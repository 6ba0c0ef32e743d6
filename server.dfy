/** The click-tracking endpoint the main site calls for every visit that
    carries a referral code. It records the click for an approved
    affiliate's code and answers `ok` whatever happens after the code is
    found present. */
module Server {
  import opened Schema
  import opened Queries
  import opened Store
  import AffiliateController

  /** The query and headers of a click. An empty `ref` or `referer` stands
      for an absent one; `userAgent` is None when the header is absent. */
  datatype ClickRequest = ClickRequest(ref: string, ipAddress: string, userAgent: Option<string>, referer: string)

  datatype ClickOutcome = MissingRef | ClickAcknowledged
  {
    function StatusCode(): nat {
      if MissingRef? then 400 else 200
    }
  }

  /** The approved affiliate whose referral code is `code`, if any. */
  function ApprovedWithCode(affiliates: seq<Affiliate>, code: string): (r: Option<nat>)
    ensures r.Some? ==> r.value < |affiliates| && affiliates[r.value].referralCode == code
                        && affiliates[r.value].status == Approved
    ensures r.None? <==> forall i :: 0 <= i < |affiliates| ==>
                           affiliates[i].referralCode != code || affiliates[i].status != Approved
  {
    FirstIndex(affiliates, (a: Affiliate) => a.referralCode == code && a.status == Approved)
  }

  function ClickOf(a: nat, req: ClickRequest): Click {
    Click(a, req.ipAddress, req.userAgent, if req.referer == "" then None else Some(req.referer))
  }

  /** The click handler as a transition of the tables. `failure` stands for
      an error thrown by the lookup or the insert; it is caught, nothing is
      recorded and the reply is still `ok`. */
  function TrackClick(t: Tables, req: ClickRequest, failure: bool): (r: Effect<ClickOutcome>)
    ensures r.after.affiliates == t.affiliates && r.after.referrals == t.referrals && r.after.payouts == t.payouts
    ensures r.out == MissingRef <==> req.ref == ""
    ensures r.after != t <==> req.ref != "" && !failure && ApprovedWithCode(t.affiliates, req.ref).Some?
    ensures r.after != t ==>
              r.after.clicks == t.clicks + [ClickOf(ApprovedWithCode(t.affiliates, req.ref).value, req)]
  {
    if req.ref == "" then Effect(t, MissingRef)
    else if failure then Effect(t, ClickAcknowledged)
    else match ApprovedWithCode(t.affiliates, req.ref)
      case None => Effect(t, ClickAcknowledged)
      case Some(a) => Effect(t.(clicks := t.clicks + [ClickOf(a, req)]), ClickAcknowledged)
  }

  method HandleTrackClick(db: Database, req: ClickRequest, failure: bool) returns (out: ClickOutcome)
    modifies db
    ensures TrackClick(old(db.Snapshot()), req, failure) == Effect(db.Snapshot(), out)
  {
    if req.ref == "" {
      return MissingRef;
    }
    if failure {
      return ClickAcknowledged;
    }
    var found := ApprovedWithCode(db.affiliates, req.ref);
    if found.Some? {
      db.clicks := db.clicks + [ClickOf(found.value, req)];
    }
    return ClickAcknowledged;
  }

  /** A recorded click counts one more for the approved affiliate holding the
      code and none for anyone else; an affiliate that is not approved never
      gains a click. */
  lemma TrackClickCountsOne(t: Tables, req: ClickRequest, failure: bool)
    ensures var after := TrackClick(t, req, failure).after;
            forall b :: AffiliateController.ClickCount(after.clicks, b) ==
                          AffiliateController.ClickCount(t.clicks, b) +
                          (if after != t && b == ApprovedWithCode(t.affiliates, req.ref).value then 1 else 0)
    ensures var after := TrackClick(t, req, failure).after;
            forall b :: 0 <= b < |t.affiliates| && t.affiliates[b].status != Approved ==>
              AffiliateController.ClickCount(after.clicks, b) == AffiliateController.ClickCount(t.clicks, b)
  {
    var after := TrackClick(t, req, failure).after;
    if after != t {
      assert after.clicks[..|after.clicks| - 1] == t.clicks;
    }
  }

  lemma TrackClickPreservesValid(t: Tables, req: ClickRequest, failure: bool)
    requires Valid(t)
    ensures Valid(TrackClick(t, req, failure).after)
  {
  }
}
