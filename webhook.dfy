/** Webhook ingestion: the signup and payment events that create referrals
    and turn them into paid, commission-bearing referrals.

    The webhook signature is checked before either handler runs and is a
    precondition here only in the sense that unsigned events never reach
    them. Each handler is one atomic step on the tables. */
module WebhookController {
  import opened Schema
  import opened Queries
  import opened Store

  // ---------------------------------------------------------------------
  // Signup

  /** The signup body. An empty string stands for a missing or falsy field. */
  datatype SignupRequest = SignupRequest(refCode: string, userId: string, email: string, timestamp: Option<int>)

  datatype SignupOutcome =
    | SignupMissingFields
    | AffiliateNotFound
    | AffiliateNotActive
    | AlreadyReferred
    | SignupRecorded
  {
    function StatusCode(): nat {
      match this
      case SignupMissingFields => 400
      case AffiliateNotFound => 404
      case AffiliateNotActive => 400
      case AlreadyReferred => 200
      case SignupRecorded => 200
    }
  }

  /** The event's own time when it carries a non-zero timestamp, else the
      time it is handled. */
  function EventTime(timestamp: Option<int>, now: int): (r: int)
    ensures timestamp.Some? && timestamp.value != 0 ==> r == timestamp.value
    ensures timestamp.None? || timestamp.value == 0 ==> r == now
  {
    if timestamp.Some? && timestamp.value != 0 then timestamp.value else now
  }

  /** The row a successful signup inserts: signed up, no payment columns, and
      signed up at the event's time. */
  function NewReferral(affiliateId: nat, req: SignupRequest, now: int): Referral {
    Referral(affiliateId, req.userId, if req.email == "" then None else Some(req.email), SignedUp,
             EventTime(req.timestamp, now), None, None, None, None, None, None)
  }

  /** The signup handler as a transition of the tables. */
  function Signup(t: Tables, req: SignupRequest, now: int): (r: Effect<SignupOutcome>)
    ensures r.after.payouts == t.payouts && r.after.clicks == t.clicks
    ensures r.out != SignupRecorded ==> r.after == t
    ensures r.out == SignupMissingFields <==> req.refCode == "" || req.userId == ""
    // the affiliate checks come before the duplicate check: they do not depend on the referrals
    ensures r.out == AffiliateNotFound <==>
              req.refCode != "" && req.userId != "" && AffiliateWithCode(t.affiliates, req.refCode).None?
    ensures r.out == AffiliateNotActive <==>
              && req.refCode != "" && req.userId != ""
              && AffiliateWithCode(t.affiliates, req.refCode).Some?
              && t.affiliates[AffiliateWithCode(t.affiliates, req.refCode).value].status != Approved
    ensures r.out == AlreadyReferred ==> ReferralOfUser(t.referrals, req.userId).Some?
    ensures r.out == SignupRecorded <==>
              && req.refCode != "" && req.userId != ""
              && AffiliateWithCode(t.affiliates, req.refCode).Some?
              && t.affiliates[AffiliateWithCode(t.affiliates, req.refCode).value].status == Approved
              && ReferralOfUser(t.referrals, req.userId).None?
    ensures r.out == SignupRecorded ==>
              var a := AffiliateWithCode(t.affiliates, req.refCode).value;
              && r.after.referrals == t.referrals + [NewReferral(a, req, now)]
              && |r.after.affiliates| == |t.affiliates|
              && r.after.affiliates[a] == t.affiliates[a].(totalReferrals := t.affiliates[a].totalReferrals + 1)
              && forall b :: 0 <= b < |t.affiliates| && b != a ==> r.after.affiliates[b] == t.affiliates[b]
  {
    if req.refCode == "" || req.userId == "" then Effect(t, SignupMissingFields)
    else match AffiliateWithCode(t.affiliates, req.refCode)
      case None => Effect(t, AffiliateNotFound)
      case Some(a) =>
        if t.affiliates[a].status != Approved then Effect(t, AffiliateNotActive)
        else if ReferralOfUser(t.referrals, req.userId).Some? then Effect(t, AlreadyReferred)
        else
          var row := t.affiliates[a];
          Effect(t.(referrals := t.referrals + [NewReferral(a, req, now)],
                    affiliates := t.affiliates[a := row.(totalReferrals := row.totalReferrals + 1)]),
                 SignupRecorded)
  }

  method HandleSignup(db: Database, req: SignupRequest, now: int) returns (out: SignupOutcome)
    modifies db
    ensures Signup(old(db.Snapshot()), req, now) == Effect(db.Snapshot(), out)
  {
    if req.refCode == "" || req.userId == "" {
      return SignupMissingFields;
    }
    var found := AffiliateWithCode(db.affiliates, req.refCode);
    if found.None? {
      return AffiliateNotFound;
    }
    var a := found.value;
    if db.affiliates[a].status != Approved {
      return AffiliateNotActive;
    }
    if ReferralOfUser(db.referrals, req.userId).Some? {
      return AlreadyReferred;
    }
    // two separate statements, as there is no transaction around them
    db.referrals := db.referrals + [NewReferral(a, req, now)];
    var row := db.affiliates[a];
    db.affiliates := db.affiliates[a := row.(totalReferrals := row.totalReferrals + 1)];
    return SignupRecorded;
  }

  /** A successful signup counts one more referral for its affiliate and
      none for any other. */
  lemma SignupCountsOneReferral(t: Tables, req: SignupRequest, now: int)
    requires Signup(t, req, now).out == SignupRecorded
    ensures var a := AffiliateWithCode(t.affiliates, req.refCode).value;
            forall b :: ReferralCount(Signup(t, req, now).after.referrals, b) ==
                          ReferralCount(t.referrals, b) + (if b == a then 1 else 0)
  {
    var a := AffiliateWithCode(t.affiliates, req.refCode).value;
    var refs' := Signup(t, req, now).after.referrals;
    assert refs'[..|refs'| - 1] == t.referrals;
  }

  /** A second delivery of a signup changes nothing, whenever it arrives. */
  lemma {:induction false} SignupIdempotent(t: Tables, req: SignupRequest, now1: int, now2: int)
    ensures var once := Signup(t, req, now1).after;
            Signup(once, req, now2).after == once
    ensures Signup(Signup(t, req, now1).after, req, now2).out != SignupRecorded
  {
    var r := Signup(t, req, now1);
    if r.out == SignupRecorded {
      var refs := r.after.referrals;
      assert refs[|t.referrals|].userId == req.userId;
      assert ReferralOfUser(refs, req.userId).Some?;
    }
  }

  /** The tables after the same signup event is delivered at each of `times`. */
  function DeliverSignups(t: Tables, req: SignupRequest, times: seq<int>): Tables
    decreases |times|
  {
    if times == [] then t else DeliverSignups(Signup(t, req, times[0]).after, req, times[1..])
  }

  /** Delivering a signup N >= 1 times is delivering it once. */
  lemma {:induction false} RepeatedSignupRecordsOnce(t: Tables, req: SignupRequest, times: seq<int>)
    requires |times| >= 1
    decreases |times|
    ensures DeliverSignups(t, req, times) == Signup(t, req, times[0]).after
  {
    var once := Signup(t, req, times[0]).after;
    if |times| > 1 {
      SignupIdempotent(t, req, times[0], times[1]);
      RepeatedSignupRecordsOnce(once, req, times[1..]);
      assert times[1..][0] == times[1];
    }
  }

  /** Recording a well-formed referral of a user not yet referred, and
      counting it on its affiliate, keeps the constraints. */
  lemma RecordReferralKeepsValid(t: Tables, a: nat, x: Referral)
    requires Valid(t) && a < |t.affiliates| && x.affiliateId == a && WellFormedReferral(x)
    requires ReferralOfUser(t.referrals, x.userId).None?
    ensures var row := t.affiliates[a];
            Valid(t.(referrals := t.referrals + [x],
                     affiliates := t.affiliates[a := row.(totalReferrals := row.totalReferrals + 1)]))
  {
    var row := t.affiliates[a];
    var t' := t.(referrals := t.referrals + [x],
                 affiliates := t.affiliates[a := row.(totalReferrals := row.totalReferrals + 1)]);
    assert forall i :: 0 <= i < |t.affiliates| ==>
      t'.affiliates[i].referralCode == t.affiliates[i].referralCode && t'.affiliates[i].email == t.affiliates[i].email;
    assert forall i :: 0 <= i < |t.referrals| ==> t'.referrals[i] == t.referrals[i];
    assert t'.referrals[..|t.referrals|] == t.referrals;
    assert CountersAgree(t');
  }

  lemma SignupPreservesValid(t: Tables, req: SignupRequest, now: int)
    requires Valid(t)
    ensures Valid(Signup(t, req, now).after)
  {
    if Signup(t, req, now).out == SignupRecorded {
      var a := AffiliateWithCode(t.affiliates, req.refCode).value;
      RecordReferralKeepsValid(t, a, NewReferral(a, req, now));
    }
  }

  lemma SignupKeepsHistory(t: Tables, req: SignupRequest, now: int)
    ensures ReferralHistoryKept(t.referrals, Signup(t, req, now).after.referrals)
  {
  }

  // ---------------------------------------------------------------------
  // Payment

  /** The payment body. `amount` is None when absent; an empty string stands
      for a missing or falsy text field. */
  datatype PaymentRequest = PaymentRequest(
    userId: string, amount: Option<real>, currency: string, transactionId: string, timestamp: Option<int>)

  datatype PaymentOutcome =
    | PaymentMissingFields
    | NoReferral
    | AlreadyAwarded
    | CommissionRecorded(commission: real, ratePercent: nat)
  {
    function StatusCode(): nat {
      if PaymentMissingFields? then 400 else 200
    }
  }

  /** A required field is absent or falsy; an amount of 0 is falsy too. */
  predicate MissingPaymentField(req: PaymentRequest) {
    req.userId == "" || req.amount.None? || req.amount.value == 0.0 || req.transactionId == ""
  }

  /** The commission tier for an affiliate that already has `priorPaid` paid
      referrals. */
  function CommissionRate(priorPaid: nat): (r: nat)
    ensures r == COMMISSION_TIER_1_PERCENT <==> priorPaid < COMMISSION_TIER_THRESHOLD
    ensures r == COMMISSION_TIER_2_PERCENT <==> priorPaid >= COMMISSION_TIER_THRESHOLD
  {
    if priorPaid < COMMISSION_TIER_THRESHOLD then COMMISSION_TIER_1_PERCENT else COMMISSION_TIER_2_PERCENT
  }

  /** The referral row after its first payment, at a given rate. */
  function Settled(r: Referral, req: PaymentRequest, rate: nat, now: int): Referral
    requires req.amount.Some?
  {
    r.(status := Paid,
       paymentAmount := Some(req.amount.value),
       commissionAmount := Some(req.amount.value * rate as real / 100.0),
       commissionRate := Some(rate),
       currency := Some(if req.currency == "" then DEFAULT_CURRENCY else req.currency),
       transactionId := Some(req.transactionId),
       paidAt := Some(EventTime(req.timestamp, now)))
  }

  /** The payment handler as a transition of the tables. */
  function Payment(t: Tables, req: PaymentRequest, now: int): (r: Effect<PaymentOutcome>)
    ensures r.after.affiliates == t.affiliates && r.after.payouts == t.payouts && r.after.clicks == t.clicks
    ensures |r.after.referrals| == |t.referrals|
    ensures !r.out.CommissionRecorded? ==> r.after == t
    ensures r.out == PaymentMissingFields <==> MissingPaymentField(req)
    ensures r.out == NoReferral <==> !MissingPaymentField(req) && ReferralOfUser(t.referrals, req.userId).None?
    ensures r.out == AlreadyAwarded <==>
              && !MissingPaymentField(req)
              && ReferralOfUser(t.referrals, req.userId).Some?
              && t.referrals[ReferralOfUser(t.referrals, req.userId).value].status == Paid
    ensures r.out.CommissionRecorded? ==>
              var i := ReferralOfUser(t.referrals, req.userId).value;
              var amount := req.amount.value;
              && !MissingPaymentField(req)
              && t.referrals[i].status == SignedUp
              // the affiliate's status is not consulted
              && r.out.commission == amount * r.out.ratePercent as real / 100.0
              && r.after.referrals[i] == t.referrals[i].(
                   status := Paid,
                   paymentAmount := Some(amount),
                   commissionAmount := Some(r.out.commission),
                   commissionRate := Some(r.out.ratePercent),
                   currency := Some(if req.currency == "" then DEFAULT_CURRENCY else req.currency),
                   transactionId := Some(req.transactionId),
                   paidAt := Some(EventTime(req.timestamp, now)))
              && forall j :: 0 <= j < |t.referrals| && j != i ==> r.after.referrals[j] == t.referrals[j]
  {
    if MissingPaymentField(req) then Effect(t, PaymentMissingFields)
    else match ReferralOfUser(t.referrals, req.userId)
      case None => Effect(t, NoReferral)
      case Some(i) =>
        if t.referrals[i].status == Paid then Effect(t, AlreadyAwarded)
        else
          var rate := CommissionRate(PaidCount(t.referrals, t.referrals[i].affiliateId));
          var row := Settled(t.referrals[i], req, rate, now);
          Effect(t.(referrals := t.referrals[i := row]), CommissionRecorded(row.commissionAmount.value, rate))
  }

  method HandlePayment(db: Database, req: PaymentRequest, now: int) returns (out: PaymentOutcome)
    modifies db
    ensures Payment(old(db.Snapshot()), req, now) == Effect(db.Snapshot(), out)
  {
    if req.userId == "" || req.amount.None? || req.amount.value == 0.0 || req.transactionId == "" {
      return PaymentMissingFields;
    }
    var found := ReferralOfUser(db.referrals, req.userId);
    if found.None? {
      return NoReferral;
    }
    var i := found.value;
    if db.referrals[i].status == Paid {
      return AlreadyAwarded;
    }
    var paidCount := PaidCount(db.referrals, db.referrals[i].affiliateId);
    var rate := CommissionRate(paidCount);
    var commission := req.amount.value * rate as real / 100.0;
    var row := db.referrals[i];
    db.referrals := db.referrals[i := row.(
      status := Paid,
      paymentAmount := Some(req.amount.value),
      commissionAmount := Some(commission),
      commissionRate := Some(rate),
      currency := Some(if req.currency == "" then DEFAULT_CURRENCY else req.currency),
      transactionId := Some(req.transactionId),
      paidAt := Some(EventTime(req.timestamp, now)))];
    return CommissionRecorded(commission, rate);
  }

  /** The tier rule: the payment that makes a referral an affiliate's k-th
      paid referral earns 10% if k <= 50 and 20% otherwise; the count of no
      other affiliate moves. */
  lemma PaymentTierRule(t: Tables, req: PaymentRequest, now: int)
    requires Payment(t, req, now).out.CommissionRecorded?
    ensures var i := ReferralOfUser(t.referrals, req.userId).value;
            var a := t.referrals[i].affiliateId;
            var r := Payment(t, req, now);
            var k := PaidCount(r.after.referrals, a);
            && k == PaidCount(t.referrals, a) + 1
            && (r.out.ratePercent == COMMISSION_TIER_1_PERCENT <==> k <= COMMISSION_TIER_THRESHOLD)
            && (r.out.ratePercent == COMMISSION_TIER_2_PERCENT <==> k > COMMISSION_TIER_THRESHOLD)
            && forall b :: b != a ==> PaidCount(r.after.referrals, b) == PaidCount(t.referrals, b)
  {
    var i := ReferralOfUser(t.referrals, req.userId).value;
    var r := Payment(t, req, now);
    assert r.after.referrals == t.referrals[i := r.after.referrals[i]];
    forall b {
      PaidCountAfterUpdate(t.referrals, i, r.after.referrals[i], b);
    }
  }

  /** A payment credits its commission to the referral's affiliate, and to
      nobody else. */
  lemma PaymentCreditsCommission(t: Tables, req: PaymentRequest, now: int)
    requires Payment(t, req, now).out.CommissionRecorded?
    ensures var i := ReferralOfUser(t.referrals, req.userId).value;
            var a := t.referrals[i].affiliateId;
            var r := Payment(t, req, now);
            && Available(r.after, a) == Available(t, a) + r.out.commission
            && forall b :: b != a ==> Available(r.after, b) == Available(t, b)
  {
    var i := ReferralOfUser(t.referrals, req.userId).value;
    var r := Payment(t, req, now);
    assert r.after.referrals == t.referrals[i := r.after.referrals[i]];
    forall b {
      EarnedAfterUpdate(t.referrals, i, r.after.referrals[i], b);
    }
  }

  /** Updating a referral without changing its user leaves user lookups as
      they were. */
  lemma ReferralOfUserAfterUpdate(refs: seq<Referral>, i: nat, x: Referral, u: string)
    requires i < |refs| && x.userId == refs[i].userId
    ensures ReferralOfUser(refs[i := x], u) == ReferralOfUser(refs, u)
  {
    var refs' := refs[i := x];
    assert forall j :: 0 <= j < |refs| ==> refs'[j].userId == refs[j].userId;
  }

  /** A second delivery of a payment credits nothing, whenever it arrives. */
  lemma PaymentIdempotent(t: Tables, req: PaymentRequest, now1: int, now2: int)
    ensures var once := Payment(t, req, now1).after;
            Payment(once, req, now2).after == once
    ensures !Payment(Payment(t, req, now1).after, req, now2).out.CommissionRecorded?
  {
    var r := Payment(t, req, now1);
    if r.out.CommissionRecorded? {
      var i := ReferralOfUser(t.referrals, req.userId).value;
      ReferralOfUserAfterUpdate(t.referrals, i, r.after.referrals[i], req.userId);
      assert r.after.referrals == t.referrals[i := r.after.referrals[i]];
    }
  }

  /** The tables after the same payment event is delivered at each of `times`. */
  function DeliverPayments(t: Tables, req: PaymentRequest, times: seq<int>): Tables
    decreases |times|
  {
    if times == [] then t else DeliverPayments(Payment(t, req, times[0]).after, req, times[1..])
  }

  /** Delivering a payment N >= 1 times credits exactly what delivering it
      once does. */
  lemma {:induction false} RepeatedPaymentCreditsOnce(t: Tables, req: PaymentRequest, times: seq<int>)
    requires |times| >= 1
    decreases |times|
    ensures DeliverPayments(t, req, times) == Payment(t, req, times[0]).after
  {
    var once := Payment(t, req, times[0]).after;
    if |times| > 1 {
      PaymentIdempotent(t, req, times[0], times[1]);
      RepeatedPaymentCreditsOnce(once, req, times[1..]);
      assert times[1..][0] == times[1];
    }
  }

  lemma PaymentPreservesValid(t: Tables, req: PaymentRequest, now: int)
    requires Valid(t)
    ensures Valid(Payment(t, req, now).after)
  {
    var r := Payment(t, req, now);
    if r.out.CommissionRecorded? {
      var i := ReferralOfUser(t.referrals, req.userId).value;
      assert r.after.referrals == t.referrals[i := r.after.referrals[i]];
      forall b | 0 <= b < |t.affiliates|
        ensures r.after.affiliates[b].totalReferrals == ReferralCount(r.after.referrals, b)
      {
        ReferralCountAfterUpdate(t.referrals, i, r.after.referrals[i], b);
      }
    }
  }

  lemma PaymentKeepsHistory(t: Tables, req: PaymentRequest, now: int)
    ensures ReferralHistoryKept(t.referrals, Payment(t, req, now).after.referrals)
  {
  }
}
