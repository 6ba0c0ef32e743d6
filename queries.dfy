/** The reads the handlers make against the tables: row lookups, row counts
    and sums (a sum over no rows is 0), the derived available balance, and
    the integrity constraints the tables keep.

    Counts and sums recurse from the last row, so appending a row adds its
    contribution directly; updating a row in place is handled by the
    `…AfterUpdate` lemmas. */
module Queries {
  import opened Schema

  /** The first row satisfying `p`, if any. */
  function FirstIndex<T>(rows: seq<T>, p: T -> bool): (r: Option<nat>)
    ensures r.Some? ==> r.value < |rows| && p(rows[r.value])
    ensures r.Some? ==> forall j :: 0 <= j < r.value ==> !p(rows[j])
    ensures r.None? <==> forall j :: 0 <= j < |rows| ==> !p(rows[j])
  {
    if |rows| == 0 then None
    else if p(rows[0]) then Some(0)
    else match FirstIndex(rows[1..], p)
      case None => None
      case Some(k) => Some(k + 1)
  }

  /** The affiliate whose referral code is `code`, if any. */
  function AffiliateWithCode(affiliates: seq<Affiliate>, code: string): (r: Option<nat>)
    ensures r.Some? ==> r.value < |affiliates| && affiliates[r.value].referralCode == code
    ensures r.None? <==> forall i :: 0 <= i < |affiliates| ==> affiliates[i].referralCode != code
  {
    FirstIndex(affiliates, (a: Affiliate) => a.referralCode == code)
  }

  /** The affiliate registered under `email`, if any. */
  function AffiliateWithEmail(affiliates: seq<Affiliate>, email: string): (r: Option<nat>)
    ensures r.Some? ==> r.value < |affiliates| && affiliates[r.value].email == email
    ensures r.None? <==> forall i :: 0 <= i < |affiliates| ==> affiliates[i].email != email
  {
    FirstIndex(affiliates, (a: Affiliate) => a.email == email)
  }

  /** The referral of the referred user `userId`, if any. */
  function ReferralOfUser(referrals: seq<Referral>, userId: string): (r: Option<nat>)
    ensures r.Some? ==> r.value < |referrals| && referrals[r.value].userId == userId
    ensures r.None? <==> forall i :: 0 <= i < |referrals| ==> referrals[i].userId != userId
  {
    FirstIndex(referrals, (x: Referral) => x.userId == userId)
  }

  /* Per-row contributions to the aggregates. */

  function OwnedBy(r: Referral, a: nat): nat {
    if r.affiliateId == a then 1 else 0
  }

  function PaidOwnedBy(r: Referral, a: nat): nat {
    if r.affiliateId == a && r.status == Paid then 1 else 0
  }

  /** SUM ignores NULLs, so a paid row without a commission adds nothing. */
  function CommissionOf(r: Referral, a: nat): real {
    if r.affiliateId == a && r.status == Paid then r.commissionAmount.GetOr(0.0) else 0.0
  }

  function AmountIn(p: Payout, a: nat, states: set<PayoutStatus>): real {
    if p.affiliateId == a && p.status in states then p.amount else 0.0
  }

  /** How many referrals belong to affiliate `a`. */
  function ReferralCount(refs: seq<Referral>, a: nat): (r: nat)
    ensures r <= |refs|
  {
    if refs == [] then 0 else ReferralCount(refs[..|refs| - 1], a) + OwnedBy(refs[|refs| - 1], a)
  }

  /** How many of affiliate `a`'s referrals have paid; never more than it has. */
  function PaidCount(refs: seq<Referral>, a: nat): (r: nat)
    ensures r <= ReferralCount(refs, a)
  {
    if refs == [] then 0 else PaidCount(refs[..|refs| - 1], a) + PaidOwnedBy(refs[|refs| - 1], a)
  }

  /** The sum of the commissions of affiliate `a`'s paid referrals, zero when
      there are none; it cannot be negative while no commission is. */
  function Earned(refs: seq<Referral>, a: nat): (r: real)
    ensures PaidCount(refs, a) == 0 ==> r == 0.0
    ensures (forall i :: 0 <= i < |refs| ==> refs[i].commissionAmount.GetOr(0.0) >= 0.0) ==> r >= 0.0
  {
    if refs == [] then 0.0 else Earned(refs[..|refs| - 1], a) + CommissionOf(refs[|refs| - 1], a)
  }

  /** The sum of the amounts of affiliate `a`'s payouts in one of `states`,
      zero when there are none; it cannot be negative while no amount is. */
  function PayoutTotal(ps: seq<Payout>, a: nat, states: set<PayoutStatus>): (r: real)
    ensures states == {} ==> r == 0.0
    ensures (forall i :: 0 <= i < |ps| ==> ps[i].amount >= 0.0) ==> r >= 0.0
  {
    if ps == [] then 0.0 else PayoutTotal(ps[..|ps| - 1], a, states) + AmountIn(ps[|ps| - 1], a, states)
  }

  /** How many referrals, of any affiliate, have status `s`. */
  function ReferralsInStatus(refs: seq<Referral>, s: ReferralStatus): (r: nat)
    ensures r <= |refs|
  {
    if refs == [] then 0
    else ReferralsInStatus(refs[..|refs| - 1], s) + (if refs[|refs| - 1].status == s then 1 else 0)
  }

  /** How many payouts affiliate `a` has requested, in any status. */
  function PayoutCount(ps: seq<Payout>, a: nat): (r: nat)
    ensures r <= |ps|
  {
    if ps == [] then 0
    else PayoutCount(ps[..|ps| - 1], a) + (if ps[|ps| - 1].affiliateId == a then 1 else 0)
  }

  /** How many payouts, of any affiliate, have status `s`. */
  function PayoutsInStatus(ps: seq<Payout>, s: PayoutStatus): (r: nat)
    ensures r <= |ps|
  {
    if ps == [] then 0
    else PayoutsInStatus(ps[..|ps| - 1], s) + (if ps[|ps| - 1].status == s then 1 else 0)
  }

  /** How many affiliates have status `s`. */
  function AffiliatesInStatus(affs: seq<Affiliate>, s: AffiliateStatus): (r: nat)
    ensures r <= |affs|
  {
    if affs == [] then 0
    else AffiliatesInStatus(affs[..|affs| - 1], s) + (if affs[|affs| - 1].status == s then 1 else 0)
  }

  /* Every row has exactly one status, so the per-status counts of a table
     add up to its size. */

  lemma {:induction false} ReferralStatusesPartition(refs: seq<Referral>)
    ensures ReferralsInStatus(refs, SignedUp) + ReferralsInStatus(refs, Paid) == |refs|
  {
    if refs != [] {
      ReferralStatusesPartition(refs[..|refs| - 1]);
    }
  }

  lemma {:induction false} PayoutStatusesPartition(ps: seq<Payout>)
    ensures PayoutsInStatus(ps, PayoutStatus.Pending) + PayoutsInStatus(ps, Processing)
            + PayoutsInStatus(ps, Completed) + PayoutsInStatus(ps, Failed) == |ps|
  {
    if ps != [] {
      PayoutStatusesPartition(ps[..|ps| - 1]);
    }
  }

  lemma {:induction false} AffiliateStatusesPartition(affs: seq<Affiliate>)
    ensures AffiliatesInStatus(affs, AffiliateStatus.Pending) + AffiliatesInStatus(affs, Approved)
            + AffiliatesInStatus(affs, Rejected) + AffiliatesInStatus(affs, Suspended) == |affs|
  {
    if affs != [] {
      AffiliateStatusesPartition(affs[..|affs| - 1]);
    }
  }

  /** The payout states whose amounts are withheld from the balance. */
  const RESERVING: set<PayoutStatus> := {PayoutStatus.Pending, Processing, Completed}
  const IN_FLIGHT: set<PayoutStatus> := {PayoutStatus.Pending, Processing}
  const PAID_OUT: set<PayoutStatus> := {Completed}

  /** The unclamped available balance that payout admission checks against:
      paid commissions minus every payout that is pending, processing or
      completed. */
  function Available(t: Tables, a: nat): (r: real)
    ensures r == Earned(t.referrals, a) - PayoutTotal(t.payouts, a, IN_FLIGHT) - PayoutTotal(t.payouts, a, PAID_OUT)
    ensures (forall i :: 0 <= i < |t.payouts| ==> t.payouts[i].amount >= 0.0) ==> r <= Earned(t.referrals, a)
  {
    assert RESERVING == IN_FLIGHT + PAID_OUT;
    PayoutTotalSplit(t.payouts, a, IN_FLIGHT, PAID_OUT);
    Earned(t.referrals, a) - PayoutTotal(t.payouts, a, RESERVING)
  }

  /** The balance as dashboards show it: never below zero. */
  function Clamped(x: real): (r: real)
    ensures r >= 0.0 && r >= x
    ensures r == x || r == 0.0
  {
    if x > 0.0 then x else 0.0
  }

  // ---------------------------------------------------------------------
  // How the aggregates move when one row is updated in place

  lemma {:induction false} ReferralCountAfterUpdate(refs: seq<Referral>, i: nat, r: Referral, a: nat)
    requires i < |refs|
    ensures ReferralCount(refs[i := r], a) as int == ReferralCount(refs, a) - OwnedBy(refs[i], a) + OwnedBy(r, a)
  {
    var n := |refs| - 1;
    if i == n {
      assert refs[i := r][..n] == refs[..n];
    } else {
      assert refs[i := r][..n] == refs[..n][i := r];
      ReferralCountAfterUpdate(refs[..n], i, r, a);
    }
  }

  lemma {:induction false} PaidCountAfterUpdate(refs: seq<Referral>, i: nat, r: Referral, a: nat)
    requires i < |refs|
    ensures PaidCount(refs[i := r], a) as int == PaidCount(refs, a) - PaidOwnedBy(refs[i], a) + PaidOwnedBy(r, a)
  {
    var n := |refs| - 1;
    if i == n {
      assert refs[i := r][..n] == refs[..n];
    } else {
      assert refs[i := r][..n] == refs[..n][i := r];
      PaidCountAfterUpdate(refs[..n], i, r, a);
    }
  }

  lemma {:induction false} EarnedAfterUpdate(refs: seq<Referral>, i: nat, r: Referral, a: nat)
    requires i < |refs|
    ensures Earned(refs[i := r], a) == Earned(refs, a) - CommissionOf(refs[i], a) + CommissionOf(r, a)
  {
    var n := |refs| - 1;
    if i == n {
      assert refs[i := r][..n] == refs[..n];
    } else {
      assert refs[i := r][..n] == refs[..n][i := r];
      EarnedAfterUpdate(refs[..n], i, r, a);
    }
  }

  lemma {:induction false} PayoutTotalAfterUpdate(ps: seq<Payout>, i: nat, p: Payout, a: nat, states: set<PayoutStatus>)
    requires i < |ps|
    ensures PayoutTotal(ps[i := p], a, states) == PayoutTotal(ps, a, states) - AmountIn(ps[i], a, states) + AmountIn(p, a, states)
  {
    var n := |ps| - 1;
    if i == n {
      assert ps[i := p][..n] == ps[..n];
    } else {
      assert ps[i := p][..n] == ps[..n][i := p];
      PayoutTotalAfterUpdate(ps[..n], i, p, a, states);
    }
  }

  /** Summing over two disjoint sets of states is summing over their union. */
  lemma {:induction false} PayoutTotalSplit(ps: seq<Payout>, a: nat, s1: set<PayoutStatus>, s2: set<PayoutStatus>)
    requires s1 !! s2
    ensures PayoutTotal(ps, a, s1 + s2) == PayoutTotal(ps, a, s1) + PayoutTotal(ps, a, s2)
  {
    if ps != [] {
      PayoutTotalSplit(ps[..|ps| - 1], a, s1, s2);
    }
  }

  /** An affiliate that no referral points at has no referrals. */
  lemma {:induction false} ReferralCountUnreferenced(refs: seq<Referral>, a: nat)
    requires forall i :: 0 <= i < |refs| ==> refs[i].affiliateId != a
    ensures ReferralCount(refs, a) == 0
  {
    if refs != [] {
      ReferralCountUnreferenced(refs[..|refs| - 1], a);
    }
  }

  // ---------------------------------------------------------------------
  // Integrity of the tables

  /** A referral's payment columns are set exactly when it is paid. */
  predicate WellFormedReferral(r: Referral) {
    if r.status == SignedUp then
      r.paymentAmount.None? && r.commissionAmount.None? && r.commissionRate.None?
      && r.currency.None? && r.transactionId.None? && r.paidAt.None?
    else
      r.paymentAmount.Some? && r.commissionAmount.Some? && r.commissionRate.Some?
      && r.currency.Some? && r.transactionId.Some? && r.paidAt.Some?
  }

  ghost predicate UniqueReferredUsers(refs: seq<Referral>) {
    forall i, j :: 0 <= i < |refs| && 0 <= j < |refs| && i != j ==> refs[i].userId != refs[j].userId
  }

  ghost predicate UniqueReferralCodes(affs: seq<Affiliate>) {
    forall i, j :: 0 <= i < |affs| && 0 <= j < |affs| && i != j ==> affs[i].referralCode != affs[j].referralCode
  }

  ghost predicate UniqueEmails(affs: seq<Affiliate>) {
    forall i, j :: 0 <= i < |affs| && 0 <= j < |affs| && i != j ==> affs[i].email != affs[j].email
  }

  /** Every foreign key refers to an existing affiliate. */
  ghost predicate ForeignKeysHold(t: Tables) {
    && (forall i :: 0 <= i < |t.referrals| ==> t.referrals[i].affiliateId < |t.affiliates|)
    && (forall i :: 0 <= i < |t.payouts| ==> t.payouts[i].affiliateId < |t.affiliates|)
    && (forall i :: 0 <= i < |t.clicks| ==> t.clicks[i].affiliateId < |t.affiliates|)
  }

  /** `affiliates.total_referrals` agrees with the referrals table. */
  ghost predicate CountersAgree(t: Tables) {
    forall a :: 0 <= a < |t.affiliates| ==> t.affiliates[a].totalReferrals == ReferralCount(t.referrals, a)
  }

  /** The constraints every handler preserves. */
  ghost predicate Valid(t: Tables) {
    && ForeignKeysHold(t)
    && UniqueReferredUsers(t.referrals)
    && UniqueReferralCodes(t.affiliates)
    && UniqueEmails(t.affiliates)
    && (forall i :: 0 <= i < |t.referrals| ==> WellFormedReferral(t.referrals[i]))
    && CountersAgree(t)
  }

  /** Referral history only grows: no row is removed or reassigned to another
      affiliate or user, and a paid row is frozen. */
  ghost predicate ReferralHistoryKept(before: seq<Referral>, after: seq<Referral>) {
    && |before| <= |after|
    && forall i :: 0 <= i < |before| ==>
         && after[i].affiliateId == before[i].affiliateId
         && after[i].userId == before[i].userId
         && (before[i].status == Paid ==> after[i] == before[i])
  }

  lemma {:induction false} ReferralHistoryTransitive(r1: seq<Referral>, r2: seq<Referral>, r3: seq<Referral>)
    requires ReferralHistoryKept(r1, r2) && ReferralHistoryKept(r2, r3)
    ensures ReferralHistoryKept(r1, r3)
  {
    forall i | 0 <= i < |r1|
      ensures r3[i].affiliateId == r1[i].affiliateId && r3[i].userId == r1[i].userId
      ensures r1[i].status == Paid ==> r3[i] == r1[i]
    {
      assert r2[i].affiliateId == r1[i].affiliateId && r2[i].userId == r1[i].userId;
    }
  }
}
