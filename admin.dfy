/** The administrator's endpoints: processing payouts, changing an
    affiliate's status, and the status-filtered listings.

    Every endpoint runs after the administrator's token has been checked;
    nothing here depends on which administrator it is. */
module AdminController {
  import opened Schema
  import opened Queries
  import opened Store
  import opened Pagination
  import AffiliateController
  import WebhookController

  // ---------------------------------------------------------------------
  // Processing a payout

  datatype ProcessOutcome =
    | InvalidPayoutStatus
    | UnknownPayout
    | PayoutProcessed(payout: Payout)
  {
    function StatusCode(): nat {
      match this
      case InvalidPayoutStatus => 400
      case UnknownPayout => 404
      case PayoutProcessed(_) => 200
    }
  }

  /** The statuses an administrator may set on a payout: every payout status
      except `pending`. */
  function TargetStatus(s: string): (r: Option<PayoutStatus>)
    ensures r.Some? <==> s in {"processing", "completed", "failed"}
    ensures r.Some? ==> r == ParsePayoutStatus(s) && r.value != PayoutStatus.Pending
  {
    if s == "pending" then None else ParsePayoutStatus(s)
  }

  /** A status that closes a payout and stamps `processed_at`. */
  predicate Closing(s: PayoutStatus) {
    s == Completed || s == Failed
  }

  /** The payout update as a transition of the tables. `txHash` and `notes`
      are the trimmed body fields, empty when absent. The payout's current
      status is not consulted: any payout may be set to any allowed status. */
  function ProcessPayout(t: Tables, id: int, status: string, txHash: string, notes: string, now: int)
    : (r: Effect<ProcessOutcome>)
    ensures r.after.affiliates == t.affiliates && r.after.referrals == t.referrals && r.after.clicks == t.clicks
    ensures !r.out.PayoutProcessed? ==> r.after == t
    ensures r.out == InvalidPayoutStatus <==> TargetStatus(status).None?
    ensures r.out == UnknownPayout <==> TargetStatus(status).Some? && !(0 <= id < |t.payouts|)
    ensures r.out.PayoutProcessed? ==>
              && 0 <= id < |t.payouts|
              && r.after.payouts == t.payouts[id := r.out.payout]
    ensures r.out.PayoutProcessed? ==>
              var before := t.payouts[id];
              var p := r.out.payout;
              && p.status == TargetStatus(status).value
              // the columns the update never names
              && p.affiliateId == before.affiliateId && p.amount == before.amount
              && p.walletAddress == before.walletAddress && p.requestedAt == before.requestedAt
              // overwritten only when supplied
              && p.transactionHash == (if txHash != "" then Some(txHash) else before.transactionHash)
              && p.notes == (if notes != "" then Some(notes) else before.notes)
              // stamped exactly when the payout is closed
              && (Closing(p.status) ==> p.processedAt == Some(now))
              && (!Closing(p.status) ==> p.processedAt == before.processedAt)
  {
    match TargetStatus(status)
    case None => Effect(t, InvalidPayoutStatus)
    case Some(s) =>
      if !(0 <= id < |t.payouts|) then Effect(t, UnknownPayout)
      else
        var before := t.payouts[id];
        var p := before.(
          status := s,
          transactionHash := if txHash != "" then Some(txHash) else before.transactionHash,
          notes := if notes != "" then Some(notes) else before.notes,
          processedAt := if Closing(s) then Some(now) else before.processedAt);
        Effect(t.(payouts := t.payouts[id := p]), PayoutProcessed(p))
  }

  /** The handler assembles the `SET` list one assignment at a time and then
      issues a single `UPDATE … WHERE id = $n`, which touches no row when the
      id is unknown. */
  method HandleProcessPayout(db: Database, id: int, status: string, txHash: string, notes: string, now: int)
    returns (out: ProcessOutcome)
    modifies db
    ensures ProcessPayout(old(db.Snapshot()), id, status, txHash, notes, now) == Effect(db.Snapshot(), out)
  {
    var target := TargetStatus(status);
    if target.None? {
      return InvalidPayoutStatus;
    }
    if !(0 <= id < |db.payouts|) {
      return UnknownPayout;
    }
    var p := db.payouts[id];
    p := p.(status := target.value);
    if txHash != "" {
      p := p.(transactionHash := Some(txHash));
    }
    if notes != "" {
      p := p.(notes := Some(notes));
    }
    if target.value == Completed || target.value == Failed {
      p := p.(processedAt := Some(now));
    }
    db.payouts := db.payouts[id := p];
    return PayoutProcessed(p);
  }

  /** Processing a payout moves its owner's available balance by the change
      in what the payout withholds, and no other affiliate's balance. */
  lemma ProcessPayoutMovesBalance(t: Tables, id: int, status: string, txHash: string, notes: string, now: int)
    requires ProcessPayout(t, id, status, txHash, notes, now).out.PayoutProcessed?
    ensures var r := ProcessPayout(t, id, status, txHash, notes, now);
            var o := t.payouts[id].affiliateId;
            && Available(r.after, o) ==
                 Available(t, o) + AmountIn(t.payouts[id], o, RESERVING) - AmountIn(r.out.payout, o, RESERVING)
            && forall b :: b != o ==> Available(r.after, b) == Available(t, b)
  {
    var r := ProcessPayout(t, id, status, txHash, notes, now);
    forall b: nat
      ensures PayoutTotal(r.after.payouts, b, RESERVING) ==
                PayoutTotal(t.payouts, b, RESERVING) - AmountIn(t.payouts[id], b, RESERVING) + AmountIn(r.out.payout, b, RESERVING)
    {
      PayoutTotalAfterUpdate(t.payouts, id, r.out.payout, b, RESERVING);
    }
  }

  /** Marking a completed payout as failed gives its amount back to the
      affiliate's available balance. */
  lemma FailingCompletedPayoutReleasesIt(t: Tables, id: int, txHash: string, notes: string, now: int)
    requires 0 <= id < |t.payouts| && t.payouts[id].status == Completed
    ensures var o := t.payouts[id].affiliateId;
            Available(ProcessPayout(t, id, "failed", txHash, notes, now).after, o) == Available(t, o) + t.payouts[id].amount
  {
    ProcessPayoutMovesBalance(t, id, "failed", txHash, notes, now);
  }

  /** Setting a failed payout back to processing or completed withholds its
      amount again, whatever the balance is at that moment. */
  lemma ReopeningFailedPayoutWithholdsIt(t: Tables, id: int, status: string, txHash: string, notes: string, now: int)
    requires 0 <= id < |t.payouts| && t.payouts[id].status == Failed
    requires status == "processing" || status == "completed"
    ensures var o := t.payouts[id].affiliateId;
            Available(ProcessPayout(t, id, status, txHash, notes, now).after, o) == Available(t, o) - t.payouts[id].amount
  {
    ProcessPayoutMovesBalance(t, id, status, txHash, notes, now);
  }

  /** Because reopening is not gated on the balance, it can leave an
      affiliate owing: a failed payout of 10 is reopened after the 10 earned
      has been requested again. */
  lemma ReopeningCanOverdraw()
    ensures var aff := Affiliate("A", "a@x", "h", "CODE0001", Some("w"), Approved, 1);
            var ref := Referral(0, "u", None, Paid, 0, Some(100.0), Some(10.0), Some(10), Some("USDT"), Some("tx"), Some(1));
            var t := Tables([aff], [ref],
                            [Payout(0, 10.0, "w", Failed, None, None, 2, Some(3)),
                             Payout(0, 10.0, "w", PayoutStatus.Pending, None, None, 4, None)], []);
            && Valid(t) && Available(t, 0) == 0.0
            && Available(ProcessPayout(t, 0, "completed", "", "", 5).after, 0) == -10.0
  {
    var aff := Affiliate("A", "a@x", "h", "CODE0001", Some("w"), Approved, 1);
    var ref := Referral(0, "u", None, Paid, 0, Some(100.0), Some(10.0), Some(10), Some("USDT"), Some("tx"), Some(1));
    var t := Tables([aff], [ref],
                    [Payout(0, 10.0, "w", Failed, None, None, 2, Some(3)),
                     Payout(0, 10.0, "w", PayoutStatus.Pending, None, None, 4, None)], []);
    assert [ref][..0] == [];
    assert ReferralCount(t.referrals, 0) == 1 && Earned(t.referrals, 0) == 10.0;
    assert t.payouts[..1][..0] == [];
    assert t.payouts[..1] == [t.payouts[0]];
    assert PayoutTotal(t.payouts[..1], 0, RESERVING) == 0.0;
    assert PayoutTotal(t.payouts, 0, RESERVING) == 10.0;
    assert Valid(t);
    ReopeningFailedPayoutWithholdsIt(t, 0, "completed", "", "", 5);
  }

  /** Repeating the same update at the same instant changes nothing more. */
  lemma ProcessPayoutIdempotent(t: Tables, id: int, status: string, txHash: string, notes: string, now: int)
    ensures var once := ProcessPayout(t, id, status, txHash, notes, now).after;
            ProcessPayout(once, id, status, txHash, notes, now).after == once
  {
  }

  lemma ProcessPayoutPreservesValid(t: Tables, id: int, status: string, txHash: string, notes: string, now: int)
    requires Valid(t)
    ensures Valid(ProcessPayout(t, id, status, txHash, notes, now).after)
  {
  }

  // ---------------------------------------------------------------------
  // Changing an affiliate's status

  /** The columns the status update returns of the updated row. */
  datatype StatusReply = StatusReply(id: nat, name: string, email: string, referralCode: string, status: AffiliateStatus)

  datatype StatusUpdateOutcome =
    | InvalidAffiliateStatus
    | UnknownAffiliate
    | AffiliateStatusUpdated(affiliate: StatusReply)
  {
    function StatusCode(): nat {
      match this
      case InvalidAffiliateStatus => 400
      case UnknownAffiliate => 404
      case AffiliateStatusUpdated(_) => 200
    }
  }

  function UpdateAffiliateStatus(t: Tables, id: int, status: string): (r: Effect<StatusUpdateOutcome>)
    ensures r.after.referrals == t.referrals && r.after.payouts == t.payouts && r.after.clicks == t.clicks
    ensures !r.out.AffiliateStatusUpdated? ==> r.after == t
    ensures r.out == InvalidAffiliateStatus <==> ParseAffiliateStatus(status).None?
    ensures r.out == UnknownAffiliate <==> ParseAffiliateStatus(status).Some? && !(0 <= id < |t.affiliates|)
    ensures r.out.AffiliateStatusUpdated? ==> 0 <= id < |t.affiliates| && ParseAffiliateStatus(status).Some?
    ensures r.out.AffiliateStatusUpdated? ==>
              var row := t.affiliates[id];
              var s := ParseAffiliateStatus(status).value;
              && r.out.affiliate == StatusReply(id, row.name, row.email, row.referralCode, s)
              && r.after.affiliates == t.affiliates[id := row.(status := s)]
  {
    match ParseAffiliateStatus(status)
    case None => Effect(t, InvalidAffiliateStatus)
    case Some(s) =>
      if !(0 <= id < |t.affiliates|) then Effect(t, UnknownAffiliate)
      else
        var row := t.affiliates[id].(status := s);
        Effect(t.(affiliates := t.affiliates[id := row]),
               AffiliateStatusUpdated(StatusReply(id, row.name, row.email, row.referralCode, s)))
  }

  method HandleUpdateAffiliateStatus(db: Database, id: int, status: string) returns (out: StatusUpdateOutcome)
    modifies db
    ensures UpdateAffiliateStatus(old(db.Snapshot()), id, status) == Effect(db.Snapshot(), out)
  {
    var s := ParseAffiliateStatus(status);
    if s.None? {
      return InvalidAffiliateStatus;
    }
    if !(0 <= id < |db.affiliates|) {
      return UnknownAffiliate;
    }
    var row := db.affiliates[id].(status := s.value);
    db.affiliates := db.affiliates[id := row];
    return AffiliateStatusUpdated(StatusReply(id, row.name, row.email, row.referralCode, row.status));
  }

  lemma UpdateAffiliateStatusPreservesValid(t: Tables, id: int, status: string)
    requires Valid(t)
    ensures Valid(UpdateAffiliateStatus(t, id, status).after)
  {
  }

  /** After a status change the affiliate may use its endpoints exactly when
      the new status is `approved`. */
  lemma StatusGatesAuthentication(t: Tables, id: int, status: string)
    requires UpdateAffiliateStatus(t, id, status).out.AffiliateStatusUpdated?
    ensures AffiliateController.Authenticated(UpdateAffiliateStatus(t, id, status).after, id) <==> status == "approved"
  {
  }

  /** After a status change, signups carrying the affiliate's code are
      recorded only if the new status is `approved`; otherwise they are
      refused as inactive. */
  lemma StatusGatesSignups(t: Tables, id: int, status: string, req: WebhookController.SignupRequest, now: int)
    requires Valid(t) && UpdateAffiliateStatus(t, id, status).out.AffiliateStatusUpdated?
    requires req.refCode == t.affiliates[id].referralCode && req.refCode != "" && req.userId != ""
    ensures var after := UpdateAffiliateStatus(t, id, status).after;
            status != "approved" <==> WebhookController.Signup(after, req, now).out == WebhookController.AffiliateNotActive
  {
    var after := UpdateAffiliateStatus(t, id, status).after;
    var found := AffiliateWithCode(after.affiliates, req.refCode);
    assert after.affiliates[id].referralCode == req.refCode;
    assert found.Some?;
    assert found.value == id by {
      assert after.affiliates[found.value].referralCode == t.affiliates[found.value].referralCode;
    }
  }

  // ---------------------------------------------------------------------
  // Listings

  /** An affiliate row as the listing shows it: without the password hash,
      with its id and its paid-referral, earnings and click aggregates. */
  datatype AffiliateSummary = AffiliateSummary(
    id: nat,
    name: string,
    email: string,
    referralCode: string,
    walletAddress: Option<string>,
    status: AffiliateStatus,
    totalReferrals: nat,
    paidReferrals: nat,
    totalEarnings: real,
    totalClicks: nat)

  /** The summary of affiliate `id`. Conversions never outnumber the
      referral counter while it agrees with the table, and a summary without
      paid referrals shows no earnings. */
  function Summary(t: Tables, id: nat): (r: AffiliateSummary)
    requires id < |t.affiliates|
    ensures r.id == id && r.status == t.affiliates[id].status
    ensures CountersAgree(t) ==> r.paidReferrals <= r.totalReferrals
    ensures r.paidReferrals == 0 ==> r.totalEarnings == 0.0
    ensures r.totalClicks <= |t.clicks|
  {
    var a := t.affiliates[id];
    AffiliateSummary(id, a.name, a.email, a.referralCode, a.walletAddress, a.status, a.totalReferrals,
                     PaidCount(t.referrals, id), Earned(t.referrals, id), AffiliateController.ClickCount(t.clicks, id))
  }

  function StatusMatches(a: Affiliate, status: Option<AffiliateStatus>): bool {
    status.None? || a.status == status.value
  }

  /** The ids, below `m`, of the affiliates of one status or of all of them,
      in table order. */
  function MatchingIds(t: Tables, status: Option<AffiliateStatus>, m: nat): (ids: seq<nat>)
    requires m <= |t.affiliates|
    ensures status.None? ==> |ids| == m
    ensures status.Some? ==> |ids| == AffiliatesInStatus(t.affiliates[..m], status.value)
    ensures forall k :: 0 <= k < |ids| ==> ids[k] < m && StatusMatches(t.affiliates[ids[k]], status)
    ensures forall i :: 0 <= i < m && StatusMatches(t.affiliates[i], status) ==> i in ids
  {
    if m == 0 then []
    else
      assert t.affiliates[..m][..m - 1] == t.affiliates[..m - 1];
      MatchingIds(t, status, m - 1) + (if StatusMatches(t.affiliates[m - 1], status) then [m - 1] else [])
  }

  /** The summaries of the affiliates of one status, or of all of them: one
      per matching affiliate, and every matching affiliate has one. */
  function AffiliateRows(t: Tables, status: Option<AffiliateStatus>): (r: seq<AffiliateSummary>)
    ensures status.None? ==> |r| == |t.affiliates|
    ensures status.Some? ==> |r| == AffiliatesInStatus(t.affiliates, status.value)
    ensures forall k :: 0 <= k < |r| ==> r[k].id < |t.affiliates| && r[k] == Summary(t, r[k].id)
    ensures status.Some? ==> forall k :: 0 <= k < |r| ==> r[k].status == status.value
    ensures forall i :: 0 <= i < |t.affiliates| && (status.None? || t.affiliates[i].status == status.value) ==>
              Summary(t, i) in r
  {
    var ids := MatchingIds(t, status, |t.affiliates|);
    assert t.affiliates[..|t.affiliates|] == t.affiliates;
    var r := seq(|ids|, k requires 0 <= k < |ids| => Summary(t, ids[k]));
    SummariesCoverIds(t, ids, r);
    r
  }

  lemma SummariesCoverIds(t: Tables, ids: seq<nat>, r: seq<AffiliateSummary>)
    requires forall k :: 0 <= k < |ids| ==> ids[k] < |t.affiliates|
    requires |r| == |ids| && forall k :: 0 <= k < |ids| ==> r[k] == Summary(t, ids[k])
    ensures forall i :: i in ids ==> Summary(t, i) in r
  {
    forall i | i in ids
      ensures Summary(t, i) in r
    {
      var k :| 0 <= k < |ids| && ids[k] == i;
      assert r[k] == Summary(t, i);
    }
  }

  /** The affiliates listing, optionally of one status; a status outside the
      enumeration is ignored. The total counts the affiliates of that status. */
  function ListAffiliates(t: Tables, status: string, p: Page): (r: Listing<AffiliateSummary>)
    requires p.limit >= 1 && p.offset >= 0
    ensures ParseAffiliateStatus(status).None? ==> r.total == |t.affiliates|
    ensures ParseAffiliateStatus(status).Some? ==> r.total == AffiliatesInStatus(t.affiliates, ParseAffiliateStatus(status).value)
    ensures r.pages == PageCount(r.total, p.limit) && |r.items| == WindowSize(r.total, p)
    ensures forall i :: 0 <= i < |r.items| ==>
              r.items[i].id < |t.affiliates| && r.items[i] == Summary(t, r.items[i].id)
    ensures ParseAffiliateStatus(status).Some? ==>
              forall i :: 0 <= i < |r.items| ==> r.items[i].status == ParseAffiliateStatus(status).value
  {
    PageOf(AffiliateRows(t, ParseAffiliateStatus(status)), p)
  }

  function AnyReferralFilter(status: Option<ReferralStatus>): Referral -> bool {
    (x: Referral) => status.None? || x.status == status.value
  }

  lemma {:induction false} AnyReferralCount(refs: seq<Referral>, s: ReferralStatus)
    ensures |Filter(refs, AnyReferralFilter(Some(s)))| == ReferralsInStatus(refs, s)
  {
    if refs != [] {
      AnyReferralCount(refs[..|refs| - 1], s);
    }
  }

  /** Every referral, optionally of one status and of one affiliate; a
      status outside the enumeration is ignored. The total counts the
      referrals that match both. */
  function ListAllReferrals(t: Tables, status: string, affiliateId: Option<nat>, p: Page): (r: Listing<Referral>)
    requires p.limit >= 1 && p.offset >= 0
    ensures ParseReferralStatus(status).None? && affiliateId.None? ==> r.total == |t.referrals|
    ensures ParseReferralStatus(status).Some? && affiliateId.None? ==>
              r.total == ReferralsInStatus(t.referrals, ParseReferralStatus(status).value)
    ensures ParseReferralStatus(status).None? && affiliateId.Some? ==>
              r.total == ReferralCount(t.referrals, affiliateId.value)
    ensures ParseReferralStatus(status) == Some(Paid) && affiliateId.Some? ==>
              r.total == PaidCount(t.referrals, affiliateId.value)
    ensures ParseReferralStatus(status) == Some(SignedUp) && affiliateId.Some? ==>
              r.total + PaidCount(t.referrals, affiliateId.value) == ReferralCount(t.referrals, affiliateId.value)
    ensures r.pages == PageCount(r.total, p.limit) && |r.items| == WindowSize(r.total, p)
    ensures forall i :: 0 <= i < |r.items| ==> r.items[i] in t.referrals
    ensures affiliateId.Some? ==> forall i :: 0 <= i < |r.items| ==> r.items[i].affiliateId == affiliateId.value
    ensures ParseReferralStatus(status).Some? ==>
              forall i :: 0 <= i < |r.items| ==> r.items[i].status == ParseReferralStatus(status).value
  {
    var st := ParseReferralStatus(status);
    match affiliateId
    case Some(a) =>
      AffiliateController.OwnReferralCounts(t.referrals, a);
      PageOf(Filter(t.referrals, AffiliateController.OwnReferralFilter(a, st)), p)
    case None =>
      FilterAll(t.referrals, AnyReferralFilter(st));
      if st.Some? then
        AnyReferralCount(t.referrals, st.value);
        PageOf(Filter(t.referrals, AnyReferralFilter(st)), p)
      else PageOf(Filter(t.referrals, AnyReferralFilter(st)), p)
  }

  function PayoutFilter(status: Option<PayoutStatus>): Payout -> bool {
    (x: Payout) => status.None? || x.status == status.value
  }

  lemma {:induction false} PayoutStatusCount(ps: seq<Payout>, s: PayoutStatus)
    ensures |Filter(ps, PayoutFilter(Some(s)))| == PayoutsInStatus(ps, s)
  {
    if ps != [] {
      PayoutStatusCount(ps[..|ps| - 1], s);
    }
  }

  /** Every payout, optionally of one status; a status outside the
      enumeration is ignored. The total counts the payouts of that status. */
  function ListAllPayouts(t: Tables, status: string, p: Page): (r: Listing<Payout>)
    requires p.limit >= 1 && p.offset >= 0
    ensures ParsePayoutStatus(status).None? ==> r.total == |t.payouts|
    ensures ParsePayoutStatus(status).Some? ==> r.total == PayoutsInStatus(t.payouts, ParsePayoutStatus(status).value)
    ensures r.pages == PageCount(r.total, p.limit) && |r.items| == WindowSize(r.total, p)
    ensures forall i :: 0 <= i < |r.items| ==> r.items[i] in t.payouts
    ensures ParsePayoutStatus(status).Some? ==>
              forall i :: 0 <= i < |r.items| ==> r.items[i].status == ParsePayoutStatus(status).value
  {
    var st := ParsePayoutStatus(status);
    FilterAll(t.payouts, PayoutFilter(st));
    if st.Some? then
      PayoutStatusCount(t.payouts, st.value);
      PageOf(Filter(t.payouts, PayoutFilter(st)), p)
    else PageOf(Filter(t.payouts, PayoutFilter(st)), p)
  }
}
