/** The affiliate-facing endpoints: the balance reports, payout requests,
    the affiliate's own listings and profile updates.

    Every endpoint runs after the authentication middleware, which admits
    only an existing, approved affiliate; that is the `Authenticated`
    precondition. */
module AffiliateController {
  import opened Schema
  import opened Queries
  import opened Store
  import opened Pagination

  predicate Authenticated(t: Tables, a: nat) {
    a < |t.affiliates| && t.affiliates[a].status == Approved
  }

  // ---------------------------------------------------------------------
  // Balance reports

  /** How many clicks were recorded for affiliate `a`. */
  function ClickCount(clicks: seq<Click>, a: nat): (r: nat)
    ensures r <= |clicks|
  {
    if clicks == [] then 0
    else ClickCount(clicks[..|clicks| - 1], a) + (if clicks[|clicks| - 1].affiliateId == a then 1 else 0)
  }

  /** A paid referral of `a` that carries a commission. */
  predicate CommissionBearing(r: Referral, a: nat) {
    r.affiliateId == a && r.status == Paid && r.commissionAmount.Some?
  }

  /** The largest commission among the affiliate's paid referrals; None (SQL
      NULL) when no paid referral carries one. */
  function MaxCommission(refs: seq<Referral>, a: nat): (m: Option<real>)
    ensures m.None? <==> forall i :: 0 <= i < |refs| ==> !CommissionBearing(refs[i], a)
    ensures m.Some? ==> forall i :: 0 <= i < |refs| && CommissionBearing(refs[i], a) ==>
                          refs[i].commissionAmount.value <= m.value
    ensures m.Some? ==> exists i :: 0 <= i < |refs| && CommissionBearing(refs[i], a) &&
                          refs[i].commissionAmount.value == m.value
  {
    if refs == [] then None
    else
      var last := refs[|refs| - 1];
      var m := MaxCommission(refs[..|refs| - 1], a);
      if !CommissionBearing(last, a) then m
      else if m.None? || m.value < last.commissionAmount.value then Some(last.commissionAmount.value)
      else m
  }

  /** How many of the affiliate's paid referrals carry a commission: the rows
      the average divides by, since SQL averages skip NULLs. */
  function BearingCount(refs: seq<Referral>, a: nat): nat {
    if refs == [] then 0
    else BearingCount(refs[..|refs| - 1], a) + (if CommissionBearing(refs[|refs| - 1], a) then 1 else 0)
  }

  /** In well-formed tables every paid referral carries a commission, so
      `AVG` divides by the paid-referral count. */
  lemma {:induction false} BearingCountIsPaidCount(refs: seq<Referral>, a: nat)
    requires forall i :: 0 <= i < |refs| ==> WellFormedReferral(refs[i])
    ensures BearingCount(refs, a) == PaidCount(refs, a)
  {
    if refs != [] {
      BearingCountIsPaidCount(refs[..|refs| - 1], a);
    }
  }

  /** The figures of the earnings endpoint (the monthly breakdown aside). */
  datatype EarningsReport = EarningsReport(
    totalEarned: real,
    availableBalance: real,
    totalPaidOut: real,
    pendingPayouts: real,
    paidReferrals: nat,
    avgCommission: real,
    maxCommission: real)

  /** The available balance is the balance that payout admission checks,
      clamped at 0. */
  function Earnings(t: Tables, a: nat): (r: EarningsReport)
    ensures r.availableBalance == Clamped(Available(t, a))
    ensures r.paidReferrals <= ReferralCount(t.referrals, a)
    ensures r.paidReferrals == 0 ==> r.totalEarned == 0.0 && r.avgCommission == 0.0
  {
    var earned := Earned(t.referrals, a);
    var paidOut := PayoutTotal(t.payouts, a, PAID_OUT);
    var pending := PayoutTotal(t.payouts, a, IN_FLIGHT);
    var paid := PaidCount(t.referrals, a);
    var bearing := BearingCount(t.referrals, a);
    EarningsReport(
      earned,
      Clamped(earned - paidOut - pending),
      paidOut,
      pending,
      paid,
      if bearing > 0 then earned / bearing as real else 0.0,
      MaxCommission(t.referrals, a).GetOr(0.0))
  }

  /** The statistics of the dashboard endpoint (the 30-day series and the
      formatted conversion rate aside). */
  datatype DashboardStats = DashboardStats(
    totalClicks: nat,
    totalSignups: nat,
    paidConversions: nat,
    totalEarnings: real,
    totalPaidOut: real,
    pendingEarnings: real)

  /** The pending earnings are the same clamped balance the earnings
      endpoint reports, and no more referrals convert than signed up. */
  function Dashboard(t: Tables, a: nat): (r: DashboardStats)
    ensures r.pendingEarnings == Clamped(Available(t, a))
    ensures r.paidConversions <= r.totalSignups
    ensures r.totalClicks <= |t.clicks| && r.totalSignups <= |t.referrals|
  {
    var earned := Earned(t.referrals, a);
    var paidOut := PayoutTotal(t.payouts, a, PAID_OUT);
    var pending := PayoutTotal(t.payouts, a, IN_FLIGHT);
    DashboardStats(
      ClickCount(t.clicks, a),
      ReferralCount(t.referrals, a),
      PaidCount(t.referrals, a),
      earned,
      paidOut,
      Clamped(earned - paidOut - pending))
  }

  /** The average commission is the earnings spread over the paid
      referrals, and no paid referral's commission exceeds the maximum. */
  lemma EarningsAverageAndMaximum(t: Tables, a: nat)
    requires Valid(t)
    ensures var e := Earnings(t, a);
            && e.avgCommission == (if e.paidReferrals > 0 then e.totalEarned / e.paidReferrals as real else 0.0)
            && forall i :: 0 <= i < |t.referrals| && t.referrals[i].affiliateId == a && t.referrals[i].status == Paid ==>
                 t.referrals[i].commissionAmount.value <= e.maxCommission
  {
    BearingCountIsPaidCount(t.referrals, a);
    forall i | 0 <= i < |t.referrals| && t.referrals[i].affiliateId == a && t.referrals[i].status == Paid
      ensures CommissionBearing(t.referrals[i], a)
    {
      assert WellFormedReferral(t.referrals[i]);
    }
  }

  // ---------------------------------------------------------------------
  // Payout requests

  datatype PayoutRequestOutcome =
    | InvalidAmount
    | NoWallet
    | InsufficientBalance(availableBalance: real)
    | PayoutCreated(payoutId: nat)
  {
    function StatusCode(): nat {
      if PayoutCreated? then 201 else 400
    }
  }

  /** `!walletAddress`: NULL and the empty string both count as no wallet. */
  predicate HasWallet(aff: Affiliate) {
    aff.walletAddress.Some? && aff.walletAddress.value != ""
  }

  predicate ValidAmount(amount: Option<real>) {
    amount.Some? && amount.value > 0.0
  }

  /** The payout request handler as a transition of the tables. */
  function RequestPayout(t: Tables, a: nat, amount: Option<real>, now: int): (r: Effect<PayoutRequestOutcome>)
    requires Authenticated(t, a)
    ensures r.after.affiliates == t.affiliates && r.after.referrals == t.referrals && r.after.clicks == t.clicks
    ensures !r.out.PayoutCreated? ==> r.after == t
    // the amount and wallet checks come before the balance is read
    ensures r.out == InvalidAmount <==> !ValidAmount(amount)
    ensures r.out == NoWallet <==> ValidAmount(amount) && !HasWallet(t.affiliates[a])
    ensures r.out.InsufficientBalance? <==>
              ValidAmount(amount) && HasWallet(t.affiliates[a]) && amount.value > Available(t, a)
    ensures r.out.InsufficientBalance? ==> r.out.availableBalance == Clamped(Available(t, a))
    ensures r.out.PayoutCreated? <==>
              ValidAmount(amount) && HasWallet(t.affiliates[a]) && amount.value <= Available(t, a)
    ensures r.out.PayoutCreated? ==>
              && r.out.payoutId == |t.payouts|
              && r.after.payouts == t.payouts +
                   [Payout(a, amount.value, t.affiliates[a].walletAddress.value, PayoutStatus.Pending, None, None, now, None)]
  {
    if !ValidAmount(amount) then Effect(t, InvalidAmount)
    else if !HasWallet(t.affiliates[a]) then Effect(t, NoWallet)
    else
      var available := Available(t, a);
      if amount.value > available then Effect(t, InsufficientBalance(Clamped(available)))
      else
        var p := Payout(a, amount.value, t.affiliates[a].walletAddress.value, PayoutStatus.Pending, None, None, now, None);
        Effect(t.(payouts := t.payouts + [p]), PayoutCreated(|t.payouts|))
  }

  method HandleRequestPayout(db: Database, a: nat, amount: Option<real>, now: int) returns (out: PayoutRequestOutcome)
    requires Authenticated(db.Snapshot(), a)
    modifies db
    ensures RequestPayout(old(db.Snapshot()), a, amount, now) == Effect(db.Snapshot(), out)
  {
    if amount.None? || amount.value <= 0.0 {
      return InvalidAmount;
    }
    var wallet := db.affiliates[a].walletAddress;
    if wallet.None? || wallet.value == "" {
      return NoWallet;
    }
    var earned := Earned(db.referrals, a);
    var withheld := PayoutTotal(db.payouts, a, RESERVING);
    var available := earned - withheld;
    if amount.value > available {
      return InsufficientBalance(if available > 0.0 then available else 0.0);
    }
    var id := |db.payouts|;
    db.payouts := db.payouts + [Payout(a, amount.value, wallet.value, PayoutStatus.Pending, None, None, now, None)];
    return PayoutCreated(id);
  }

  /** An admitted payout lowers its affiliate's balance by exactly its amount,
      leaving it non-negative, and moves no other affiliate's balance. */
  lemma PayoutAdmissionKeepsBalance(t: Tables, a: nat, amount: Option<real>, now: int)
    requires Authenticated(t, a)
    requires RequestPayout(t, a, amount, now).out.PayoutCreated?
    ensures var after := RequestPayout(t, a, amount, now).after;
            && Available(after, a) == Available(t, a) - amount.value
            && Available(after, a) >= 0.0
            && forall b :: b != a ==> Available(after, b) == Available(t, b)
  {
    var ps' := RequestPayout(t, a, amount, now).after.payouts;
    assert ps'[..|ps'| - 1] == t.payouts;
  }

  /** Of two requests for the same amount where the balance covers only one,
      the first is admitted and the second refused. */
  lemma OnlyOneOfTwoRequestsFits(t: Tables, a: nat, x: real, now1: int, now2: int)
    requires Authenticated(t, a) && HasWallet(t.affiliates[a])
    requires 0.0 < x <= Available(t, a) < 2.0 * x
    ensures var first := RequestPayout(t, a, Some(x), now1);
            && first.out.PayoutCreated?
            && RequestPayout(first.after, a, Some(x), now2) == Effect(first.after, InsufficientBalance(Clamped(Available(first.after, a))))
  {
    PayoutAdmissionKeepsBalance(t, a, Some(x), now1);
  }

  lemma RequestPayoutPreservesValid(t: Tables, a: nat, amount: Option<real>, now: int)
    requires Authenticated(t, a) && Valid(t)
    ensures Valid(RequestPayout(t, a, amount, now).after)
  {
  }

  // ---------------------------------------------------------------------
  // The affiliate's own listings

  function ReferralMatches(r: Referral, a: nat, status: Option<ReferralStatus>): bool {
    r.affiliateId == a && (status.None? || r.status == status.value)
  }

  function OwnReferralFilter(a: nat, status: Option<ReferralStatus>): Referral -> bool {
    (x: Referral) => ReferralMatches(x, a, status)
  }

  /** The affiliate's referrals, optionally of one status; a status outside
      the enumeration is ignored, and then every one of its referrals counts.
      The total is the affiliate's referral count of that status, the page
      holds as many of them as fit, and each is one of its own. */
  function ListOwnReferrals(t: Tables, a: nat, status: string, p: Page): (r: Listing<Referral>)
    requires p.limit >= 1 && p.offset >= 0
    ensures ParseReferralStatus(status).None? ==> r.total == ReferralCount(t.referrals, a)
    ensures ParseReferralStatus(status) == Some(Paid) ==> r.total == PaidCount(t.referrals, a)
    ensures ParseReferralStatus(status) == Some(SignedUp) ==>
              r.total + PaidCount(t.referrals, a) == ReferralCount(t.referrals, a)
    ensures r.pages == PageCount(r.total, p.limit) && |r.items| == WindowSize(r.total, p)
    ensures forall i :: 0 <= i < |r.items| ==> r.items[i] in t.referrals && r.items[i].affiliateId == a
    ensures ParseReferralStatus(status).Some? ==>
              forall i :: 0 <= i < |r.items| ==> r.items[i].status == ParseReferralStatus(status).value
  {
    var rows := Filter(t.referrals, OwnReferralFilter(a, ParseReferralStatus(status)));
    OwnReferralCounts(t.referrals, a);
    PageOf(rows, p)
  }

  /** Filtering the referrals by owner, and by owner and status, counts them
      as the referral and paid-referral counts do. */
  lemma {:induction false} OwnReferralCounts(refs: seq<Referral>, a: nat)
    ensures |Filter(refs, OwnReferralFilter(a, None))| == ReferralCount(refs, a)
    ensures |Filter(refs, OwnReferralFilter(a, Some(Paid)))| == PaidCount(refs, a)
    ensures |Filter(refs, OwnReferralFilter(a, Some(SignedUp)))| + PaidCount(refs, a) == ReferralCount(refs, a)
  {
    if refs != [] {
      OwnReferralCounts(refs[..|refs| - 1], a);
    }
  }

  function OwnPayoutFilter(a: nat): Payout -> bool {
    (x: Payout) => x.affiliateId == a
  }

  /** The affiliate's payouts: the total is how many it has requested. */
  function ListOwnPayouts(t: Tables, a: nat, p: Page): (r: Listing<Payout>)
    requires p.limit >= 1 && p.offset >= 0
    ensures r.total == PayoutCount(t.payouts, a)
    ensures r.pages == PageCount(r.total, p.limit) && |r.items| == WindowSize(r.total, p)
    ensures forall i :: 0 <= i < |r.items| ==> r.items[i] in t.payouts && r.items[i].affiliateId == a
  {
    OwnPayoutCount(t.payouts, a);
    PageOf(Filter(t.payouts, OwnPayoutFilter(a)), p)
  }

  lemma {:induction false} OwnPayoutCount(ps: seq<Payout>, a: nat)
    ensures |Filter(ps, OwnPayoutFilter(a))| == PayoutCount(ps, a)
  {
    if ps != [] {
      OwnPayoutCount(ps[..|ps| - 1], a);
    }
  }

  // ---------------------------------------------------------------------
  // Profile updates

  /** The profile body: an empty string stands for an absent or falsy field,
      except the wallet address, where only absence (None) leaves it alone. */
  datatype ProfileRequest = ProfileRequest(
    name: string, email: string, walletAddress: Option<string>, currentPassword: string, newPassword: string)

  datatype ProfileOutcome =
    | EmailInUse
    | CurrentPasswordRequired
    | CurrentPasswordIncorrect
    | NothingToUpdate
    | ProfileUpdated
  {
    function StatusCode(): nat {
      match this
      case EmailInUse => 409
      case CurrentPasswordRequired => 400
      case CurrentPasswordIncorrect => 401
      case NothingToUpdate => 400
      case ProfileUpdated => 200
    }
  }

  /** Some affiliate other than `a` is registered under `email`. */
  predicate EmailTakenByOther(affs: seq<Affiliate>, email: string, a: nat) {
    exists i :: 0 <= i < |affs| && i != a && affs[i].email == email
  }

  /** One column assignment of the profile update. */
  datatype ProfileField = NameField(name: string) | EmailField(email: string)
                        | WalletField(wallet: string) | PasswordField(hash: string)

  function ApplyField(row: Affiliate, f: ProfileField): Affiliate {
    match f
    case NameField(n) => row.(name := n)
    case EmailField(e) => row.(email := e)
    case WalletField(w) => row.(walletAddress := Some(w))
    case PasswordField(h) => row.(passwordHash := h)
  }

  /** The row after its assignments, applied in the order they were pushed. */
  function ApplyFields(row: Affiliate, fields: seq<ProfileField>): Affiliate {
    if fields == [] then row else ApplyField(ApplyFields(row, fields[..|fields| - 1]), fields[|fields| - 1])
  }

  /** The profile handler as a transition of the tables. `checkPassword` is
      the password comparison against a stored hash and `newHash` the hash of
      the new password. */
  function UpdateProfile(t: Tables, a: nat, req: ProfileRequest, checkPassword: string -> bool, newHash: string)
    : (r: Effect<ProfileOutcome>)
    requires Authenticated(t, a)
    ensures r.after.referrals == t.referrals && r.after.payouts == t.payouts && r.after.clicks == t.clicks
    ensures r.out != ProfileUpdated ==> r.after == t
    ensures r.out == EmailInUse <==> req.email != "" && EmailTakenByOther(t.affiliates, req.email, a)
    ensures r.out == CurrentPasswordRequired <==>
              !(req.email != "" && EmailTakenByOther(t.affiliates, req.email, a))
              && req.newPassword != "" && req.currentPassword == ""
    ensures r.out == CurrentPasswordIncorrect <==>
              !(req.email != "" && EmailTakenByOther(t.affiliates, req.email, a))
              && req.newPassword != "" && req.currentPassword != "" && !checkPassword(t.affiliates[a].passwordHash)
    ensures r.out == NothingToUpdate <==>
              req.name == "" && req.email == "" && req.walletAddress.None? && req.newPassword == ""
    ensures r.out == ProfileUpdated ==>
              var old_ := t.affiliates[a];
              && |r.after.affiliates| == |t.affiliates|
              && (forall b :: 0 <= b < |t.affiliates| && b != a ==> r.after.affiliates[b] == t.affiliates[b])
              && r.after.affiliates[a] == old_.(
                   name := if req.name != "" then req.name else old_.name,
                   email := if req.email != "" then req.email else old_.email,
                   walletAddress := if req.walletAddress.Some? then req.walletAddress else old_.walletAddress,
                   passwordHash := if req.newPassword != "" then newHash else old_.passwordHash)
  {
    var row := t.affiliates[a];
    if req.email != "" && EmailTakenByOther(t.affiliates, req.email, a) then Effect(t, EmailInUse)
    else if req.newPassword != "" && req.currentPassword == "" then Effect(t, CurrentPasswordRequired)
    else if req.newPassword != "" && !checkPassword(row.passwordHash) then Effect(t, CurrentPasswordIncorrect)
    else if req.name == "" && req.email == "" && req.walletAddress.None? && req.newPassword == "" then Effect(t, NothingToUpdate)
    else
      var row' := row.(
        name := if req.name != "" then req.name else row.name,
        email := if req.email != "" then req.email else row.email,
        walletAddress := if req.walletAddress.Some? then req.walletAddress else row.walletAddress,
        passwordHash := if req.newPassword != "" then newHash else row.passwordHash);
      Effect(t.(affiliates := t.affiliates[a := row']), ProfileUpdated)
  }

  method HandleUpdateProfile(db: Database, a: nat, req: ProfileRequest, checkPassword: string -> bool, newHash: string)
    returns (out: ProfileOutcome)
    requires Authenticated(db.Snapshot(), a)
    modifies db
    ensures UpdateProfile(old(db.Snapshot()), a, req, checkPassword, newHash) == Effect(db.Snapshot(), out)
  {
    var row;
    out, row := CollectProfileFields(db.Snapshot(), a, req, checkPassword, newHash);
    if out == ProfileUpdated {
      db.affiliates := db.affiliates[a := row];
    }
  }

  /** The handler's checks and column assignments, in the order it
      makes them: the name is pushed before the email is checked, and the
      wallet before the password is. Returns the outcome and, on success,
      the row the assignments produce. */
  method CollectProfileFields(t: Tables, a: nat, req: ProfileRequest, checkPassword: string -> bool, newHash: string)
    returns (out: ProfileOutcome, updated: Affiliate)
    requires Authenticated(t, a)
    ensures UpdateProfile(t, a, req, checkPassword, newHash) ==
              Effect(if out == ProfileUpdated then t.(affiliates := t.affiliates[a := updated]) else t, out)
  {
    var row := t.affiliates[a];
    updated := row;
    var updates: seq<ProfileField> := [];
    ghost var want := row;
    if req.name != "" {
      ApplyFieldsPush(row, updates, NameField(req.name));
      updates := updates + [NameField(req.name)];
      want := want.(name := req.name);
    }
    assert ApplyFields(row, updates) == want;
    if req.email != "" {
      if EmailTakenByOther(t.affiliates, req.email, a) {
        return EmailInUse, row;
      }
      ApplyFieldsPush(row, updates, EmailField(req.email));
      updates := updates + [EmailField(req.email)];
      want := want.(email := req.email);
    }
    assert ApplyFields(row, updates) == want;
    if req.walletAddress.Some? {
      ApplyFieldsPush(row, updates, WalletField(req.walletAddress.value));
      updates := updates + [WalletField(req.walletAddress.value)];
      want := want.(walletAddress := req.walletAddress);
    }
    assert ApplyFields(row, updates) == want;
    if req.newPassword != "" {
      if req.currentPassword == "" {
        return CurrentPasswordRequired, row;
      }
      if !checkPassword(row.passwordHash) {
        return CurrentPasswordIncorrect, row;
      }
      ApplyFieldsPush(row, updates, PasswordField(newHash));
      updates := updates + [PasswordField(newHash)];
      want := want.(passwordHash := newHash);
    }
    assert ApplyFields(row, updates) == want;
    assert |updates| == 0 <==> req.name == "" && req.email == "" && req.walletAddress.None? && req.newPassword == "";
    if |updates| == 0 {
      return NothingToUpdate, row;
    }
    assert want == row.(
      name := if req.name != "" then req.name else row.name,
      email := if req.email != "" then req.email else row.email,
      walletAddress := if req.walletAddress.Some? then req.walletAddress else row.walletAddress,
      passwordHash := if req.newPassword != "" then newHash else row.passwordHash);
    return ProfileUpdated, ApplyFields(row, updates);
  }

  lemma ApplyFieldsPush(row: Affiliate, fields: seq<ProfileField>, f: ProfileField)
    ensures ApplyFields(row, fields + [f]) == ApplyField(ApplyFields(row, fields), f)
  {
    assert (fields + [f])[..|fields|] == fields;
  }

  lemma UpdateProfilePreservesValid(t: Tables, a: nat, req: ProfileRequest, checkPassword: string -> bool, newHash: string)
    requires Authenticated(t, a) && Valid(t)
    ensures Valid(UpdateProfile(t, a, req, checkPassword, newHash).after)
  {
  }
}
