/** The whole system as one state machine: every request that changes the
    tables is an event, each event is one atomic step, and the integrity
    constraints and the referral history are kept along any trace. */
module Ledger {
  import opened Schema
  import opened Queries
  import W = WebhookController
  import Aff = AffiliateController
  import Adm = AdminController
  import Auth = AuthController
  import Server

  datatype Event =
    | Signup(signup: W.SignupRequest, now: int)
    | Payment(payment: W.PaymentRequest, now: int)
    | PayoutRequest(affiliate: nat, amount: Option<real>, now: int)
    | ProfileUpdate(affiliate: nat, profile: Aff.ProfileRequest, matches: string -> bool, newHash: string)
    | ProcessPayout(payoutId: int, status: string, txHash: string, notes: string, now: int)
    | AffiliateStatusChange(affiliateId: int, status: string)
    | Registration(registration: Auth.RegisterRequest, passwordHash: string, draws: seq<seq<byte>>)
    | ClickTracked(click: Server.ClickRequest, failure: bool)

  /** The tables after one event. An affiliate request the authentication
      middleware refuses (no such affiliate, or not approved) and a
      registration whose draws never reach an unused code leave them as
      they were. */
  function Step(t: Tables, e: Event): (r: Tables)
    ensures |r.affiliates| >= |t.affiliates| && |r.referrals| >= |t.referrals|
    ensures |r.payouts| >= |t.payouts| && |r.clicks| >= |t.clicks|
  {
    match e
    case Signup(req, now) => W.Signup(t, req, now).after
    case Payment(req, now) => W.Payment(t, req, now).after
    case PayoutRequest(a, amount, now) =>
      if Aff.Authenticated(t, a) then Aff.RequestPayout(t, a, amount, now).after else t
    case ProfileUpdate(a, req, matches, newHash) =>
      if Aff.Authenticated(t, a) then Aff.UpdateProfile(t, a, req, matches, newHash).after else t
    case ProcessPayout(id, status, txHash, notes, now) => Adm.ProcessPayout(t, id, status, txHash, notes, now).after
    case AffiliateStatusChange(id, status) => Adm.UpdateAffiliateStatus(t, id, status).after
    case Registration(req, hash, draws) =>
      if Auth.WellFormedDraws(draws) && Auth.FirstUnusedDraw(t.affiliates, draws).Some?
      then Auth.Register(t, req, hash, draws).after else t
    case ClickTracked(req, failure) => Server.TrackClick(t, req, failure).after
  }

  /** The tables after a trace of events, first to last. No event deletes a
      row, so every table only grows along a trace. */
  function Run(t: Tables, events: seq<Event>): (r: Tables)
    ensures |r.affiliates| >= |t.affiliates| && |r.referrals| >= |t.referrals|
    ensures |r.payouts| >= |t.payouts| && |r.clicks| >= |t.clicks|
    decreases |events|
  {
    if events == [] then t else Run(Step(t, events[0]), events[1..])
  }

  lemma StepPreservesValid(t: Tables, e: Event)
    requires Valid(t)
    ensures Valid(Step(t, e))
  {
    match e
    case Signup(req, now) => W.SignupPreservesValid(t, req, now);
    case Payment(req, now) => W.PaymentPreservesValid(t, req, now);
    case PayoutRequest(a, amount, now) =>
      if Aff.Authenticated(t, a) {
        Aff.RequestPayoutPreservesValid(t, a, amount, now);
      }
    case ProfileUpdate(a, req, matches, newHash) =>
      if Aff.Authenticated(t, a) {
        Aff.UpdateProfilePreservesValid(t, a, req, matches, newHash);
      }
    case ProcessPayout(id, status, txHash, notes, now) => Adm.ProcessPayoutPreservesValid(t, id, status, txHash, notes, now);
    case AffiliateStatusChange(id, status) => Adm.UpdateAffiliateStatusPreservesValid(t, id, status);
    case Registration(req, hash, draws) =>
      if Auth.WellFormedDraws(draws) && Auth.FirstUnusedDraw(t.affiliates, draws).Some? {
        Auth.RegisterPreservesValid(t, req, hash, draws);
      }
    case ClickTracked(req, failure) => Server.TrackClickPreservesValid(t, req, failure);
  }

  /** Only signups add referrals and only payments change them. */
  lemma StepKeepsHistory(t: Tables, e: Event)
    ensures ReferralHistoryKept(t.referrals, Step(t, e).referrals)
  {
    match e
    case Signup(req, now) => W.SignupKeepsHistory(t, req, now);
    case Payment(req, now) => W.PaymentKeepsHistory(t, req, now);
    case _ =>
  }

  /** Every trace from valid tables ends in valid tables: in particular no
      user is ever referred twice and every counter matches its referrals. */
  lemma {:induction false} RunPreservesValid(t: Tables, events: seq<Event>)
    requires Valid(t)
    ensures Valid(Run(t, events))
    decreases |events|
  {
    if events != [] {
      StepPreservesValid(t, events[0]);
      RunPreservesValid(Step(t, events[0]), events[1..]);
    }
  }

  /** Along any trace, no referral is removed or moved to another affiliate
      or user, and a paid referral's commission stays frozen. */
  lemma {:induction false} RunKeepsHistory(t: Tables, events: seq<Event>)
    ensures ReferralHistoryKept(t.referrals, Run(t, events).referrals)
    decreases |events|
  {
    if events != [] {
      var t1 := Step(t, events[0]);
      StepKeepsHistory(t, events[0]);
      RunKeepsHistory(t1, events[1..]);
      ReferralHistoryTransitive(t.referrals, t1.referrals, Run(t1, events[1..]).referrals);
    }
  }

  // ---------------------------------------------------------------------
  // The tier count only grows

  lemma {:induction false} PaidCountOfPrefix(refs: seq<Referral>, n: nat, a: nat)
    requires n <= |refs|
    ensures PaidCount(refs[..n], a) <= PaidCount(refs, a)
    decreases |refs|
  {
    if n < |refs| {
      var m := |refs| - 1;
      assert refs[..m][..n] == refs[..n];
      PaidCountOfPrefix(refs[..m], n, a);
    } else {
      assert refs[..n] == refs;
    }
  }

  lemma {:induction false} PaidCountPointwise(before: seq<Referral>, after: seq<Referral>, a: nat)
    requires |before| == |after|
    requires forall i :: 0 <= i < |before| ==> PaidOwnedBy(before[i], a) <= PaidOwnedBy(after[i], a)
    ensures PaidCount(before, a) <= PaidCount(after, a)
    decreases |before|
  {
    if before != [] {
      var m := |before| - 1;
      PaidCountPointwise(before[..m], after[..m], a);
    }
  }

  /** Kept history never loses a paid referral, so an affiliate's paid count
      never decreases. */
  lemma HistoryKeepsPaidCount(before: seq<Referral>, after: seq<Referral>, a: nat)
    requires ReferralHistoryKept(before, after)
    ensures PaidCount(before, a) <= PaidCount(after, a)
  {
    var prefix := after[..|before|];
    assert forall i :: 0 <= i < |before| ==> prefix[i] == after[i];
    PaidCountPointwise(before, prefix, a);
    PaidCountOfPrefix(after, |before|, a);
  }

  /** Once an affiliate has reached the 20% tier, no later event brings it
      back: the tier is a lifetime count, not a period one. */
  lemma TierNeverDrops(t: Tables, events: seq<Event>, a: nat)
    ensures W.CommissionRate(PaidCount(t.referrals, a)) <= W.CommissionRate(PaidCount(Run(t, events).referrals, a))
  {
    RunKeepsHistory(t, events);
    HistoryKeepsPaidCount(t.referrals, Run(t, events).referrals, a);
  }

  // ---------------------------------------------------------------------
  // An end-to-end trace

  const START := Tables([Affiliate("A", "a@example.com", "h", "CODE0001", Some("W"), Approved, 0)], [], [], [])
  const SIGNUP_U1 := W.SignupRequest("CODE0001", "U1", "", None)
  const PAYMENT_U1 := W.PaymentRequest("U1", Some(100.0), "", "TX1", None)

  /** The tables once U1 has signed up with the affiliate's code. */
  const SIGNED_UP := Tables([Affiliate("A", "a@example.com", "h", "CODE0001", Some("W"), Approved, 1)],
                            [W.NewReferral(0, SIGNUP_U1, 1)], [], [])

  /** The signup is recorded: one referral, and the affiliate's counter at 1. */
  lemma EndToEndSignup()
    ensures W.Signup(START, SIGNUP_U1, 1) == Effect(SIGNED_UP, W.SignupRecorded)
  {
    assert AffiliateWithCode(START.affiliates, "CODE0001") == Some(0);
  }

  /** U1's payment of 100 earns 10 at 10%, and 10 is available. */
  lemma EndToEndPayment()
    ensures var p := W.Payment(SIGNED_UP, PAYMENT_U1, 2);
            && p.out == W.CommissionRecorded(10.0, 10)
            && Available(p.after, 0) == 10.0
            && p.after.affiliates == SIGNED_UP.affiliates && p.after.payouts == []
  {
    assert ReferralOfUser(SIGNED_UP.referrals, "U1") == Some(0);
    assert Earned(SIGNED_UP.referrals, 0) == 0.0 by {
      assert Earned(SIGNED_UP.referrals[..0], 0) == 0.0;
    }
    assert PaidCount(SIGNED_UP.referrals, 0) == 0 by {
      assert PaidCount(SIGNED_UP.referrals[..0], 0) == 0;
    }
    W.PaymentCreditsCommission(SIGNED_UP, PAYMENT_U1, 2);
  }

  /** An approved affiliate with no balance has a referred user sign up and
      pay 100: the commission is 10 at 10%, and 10 is available. */
  lemma EndToEndCommission()
    ensures var s := W.Signup(START, SIGNUP_U1, 1);
            var p := W.Payment(s.after, PAYMENT_U1, 2);
            && s.out == W.SignupRecorded
            && p.out == W.CommissionRecorded(10.0, 10)
            && Available(p.after, 0) == 10.0
            && Aff.Authenticated(p.after, 0) && Aff.HasWallet(p.after.affiliates[0]) && p.after.payouts == []
  {
    EndToEndSignup();
    EndToEndPayment();
  }

  /** With 10 available, a request for 10.01 is refused reporting a balance
      of 10, and nothing changes. */
  lemma EndToEndOverdraw(t: Tables)
    requires Aff.Authenticated(t, 0) && Aff.HasWallet(t.affiliates[0])
    requires Available(t, 0) == 10.0
    ensures Aff.RequestPayout(t, 0, Some(10.01), 3) == Effect(t, Aff.InsufficientBalance(10.0))
  {
  }

  /** With 10 available and no payouts yet, a request for 10 is admitted as
      pending, and once the administrator completes it the balance is 0. */
  lemma EndToEndPayoutCompleted(t: Tables)
    requires Aff.Authenticated(t, 0) && Aff.HasWallet(t.affiliates[0])
    requires Available(t, 0) == 10.0 && t.payouts == []
    ensures var fits := Aff.RequestPayout(t, 0, Some(10.0), 4);
            var done := Adm.ProcessPayout(fits.after, 0, "completed", "", "", 5);
            && fits.out == Aff.PayoutCreated(0)
            && fits.after.payouts[0].status == PayoutStatus.Pending
            && done.out.PayoutProcessed? && done.out.payout.status == Completed
            && Available(done.after, 0) == 0.0
  {
    EndToEndPayoutAdmitted(t);
    var fits := Aff.RequestPayout(t, 0, Some(10.0), 4);
    Adm.ProcessPayoutMovesBalance(fits.after, 0, "completed", "", "", 5);
  }

  /** The request for 10 is admitted as the first payout, pending, and
      withholds the whole balance. */
  lemma EndToEndPayoutAdmitted(t: Tables)
    requires Aff.Authenticated(t, 0) && Aff.HasWallet(t.affiliates[0])
    requires Available(t, 0) == 10.0 && t.payouts == []
    ensures var fits := Aff.RequestPayout(t, 0, Some(10.0), 4);
            && fits.out == Aff.PayoutCreated(0)
            && |fits.after.payouts| == 1
            && fits.after.payouts[0].status == PayoutStatus.Pending && fits.after.payouts[0].amount == 10.0
            && Available(fits.after, 0) == 0.0
  {
    Aff.PayoutAdmissionKeepsBalance(t, 0, Some(10.0), 4);
  }

  /** Both requests against the same balance. */
  lemma EndToEndPayout(t: Tables)
    requires Aff.Authenticated(t, 0) && Aff.HasWallet(t.affiliates[0])
    requires Available(t, 0) == 10.0 && t.payouts == []
    ensures var tooMuch := Aff.RequestPayout(t, 0, Some(10.01), 3);
            var fits := Aff.RequestPayout(t, 0, Some(10.0), 4);
            var done := Adm.ProcessPayout(fits.after, 0, "completed", "", "", 5);
            && tooMuch == Effect(t, Aff.InsufficientBalance(10.0))
            && fits.out == Aff.PayoutCreated(0)
            && fits.after.payouts[0].status == PayoutStatus.Pending
            && done.out.PayoutProcessed? && done.out.payout.status == Completed
            && Available(done.after, 0) == 0.0
  {
    EndToEndOverdraw(t);
    EndToEndPayoutCompleted(t);
  }

  /** The two halves as one trace. */
  lemma EndToEnd()
    ensures var p := W.Payment(W.Signup(START, SIGNUP_U1, 1).after, PAYMENT_U1, 2);
            var fits := Aff.RequestPayout(p.after, 0, Some(10.0), 4);
            && p.out == W.CommissionRecorded(10.0, 10)
            && Aff.RequestPayout(p.after, 0, Some(10.01), 3).out == Aff.InsufficientBalance(10.0)
            && fits.out == Aff.PayoutCreated(0)
            && Available(Adm.ProcessPayout(fits.after, 0, "completed", "", "", 5).after, 0) == 0.0
  {
    EndToEndCommission();
    var p := W.Payment(W.Signup(START, SIGNUP_U1, 1).after, PAYMENT_U1, 2);
    EndToEndPayout(p.after);
  }
}
