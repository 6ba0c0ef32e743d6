/** The rows of the ledger's four tables (affiliates, referrals, payouts,
    clicks), the enumerations their status columns draw from, and the
    constants the handlers are governed by.

    A row's id is its index in its table: rows are only ever appended, so an
    index stays attached to the same row for the life of the ledger. */
module Schema {

  datatype Option<T> = None | Some(value: T) {
    function GetOr(default: T): T {
      match this
      case Some(v) => v
      case None => default
    }
  }

  /* Constants of the system configuration. The two commission rates are
     stored as integer percentages: the rate that is persisted on a referral
     row is the fractional rate times 100. */
  const COMMISSION_TIER_1_PERCENT: nat := 10
  const COMMISSION_TIER_2_PERCENT: nat := 20
  const COMMISSION_TIER_THRESHOLD: nat := 50
  const REFERRAL_CODE_LENGTH: nat := 8
  const DEFAULT_PAGE_SIZE: nat := 20
  const MAX_PAGE_SIZE: nat := 100

  /** The currency recorded for a payment that does not name one. */
  const DEFAULT_CURRENCY: string := "USDT"

  datatype AffiliateStatus = Pending | Approved | Rejected | Suspended
  datatype ReferralStatus = SignedUp | Paid
  datatype PayoutStatus = Pending | Processing | Completed | Failed

  /** A byte of a random draw. */
  type byte = x: int | 0 <= x < 256

  /* Status columns arrive from request bodies and query strings as text;
     these map the enumeration's spelling to its value and everything else
     to None. */

  function ParseAffiliateStatus(s: string): (r: Option<AffiliateStatus>)
    ensures r.Some? <==> s in {"pending", "approved", "rejected", "suspended"}
  {
    if s == "pending" then Some(AffiliateStatus.Pending)
    else if s == "approved" then Some(Approved)
    else if s == "rejected" then Some(Rejected)
    else if s == "suspended" then Some(Suspended)
    else None
  }

  function ParseReferralStatus(s: string): (r: Option<ReferralStatus>)
    ensures r.Some? <==> s in {"signed_up", "paid"}
  {
    if s == "signed_up" then Some(SignedUp)
    else if s == "paid" then Some(Paid)
    else None
  }

  function ParsePayoutStatus(s: string): (r: Option<PayoutStatus>)
    ensures r.Some? <==> s in {"pending", "processing", "completed", "failed"}
  {
    if s == "pending" then Some(PayoutStatus.Pending)
    else if s == "processing" then Some(Processing)
    else if s == "completed" then Some(Completed)
    else if s == "failed" then Some(Failed)
    else None
  }

  /* The spelling each status is stored and reported under; parsing it
     gives the status back. */
  function AffiliateStatusName(s: AffiliateStatus): (r: string)
    ensures ParseAffiliateStatus(r) == Some(s)
  {
    match s
    case Pending => "pending"
    case Approved => "approved"
    case Rejected => "rejected"
    case Suspended => "suspended"
  }

  function ReferralStatusName(s: ReferralStatus): (r: string)
    ensures ParseReferralStatus(r) == Some(s)
  {
    match s
    case SignedUp => "signed_up"
    case Paid => "paid"
  }

  function PayoutStatusName(s: PayoutStatus): (r: string)
    ensures ParsePayoutStatus(r) == Some(s)
  {
    match s
    case Pending => "pending"
    case Processing => "processing"
    case Completed => "completed"
    case Failed => "failed"
  }

  /** Distinct spellings parse to distinct statuses: a spelling that parses
      is the name of what it parses to. */
  lemma ParsedStatusesAreNamed(s: string)
    ensures ParseAffiliateStatus(s).Some? ==> AffiliateStatusName(ParseAffiliateStatus(s).value) == s
    ensures ParseReferralStatus(s).Some? ==> ReferralStatusName(ParseReferralStatus(s).value) == s
    ensures ParsePayoutStatus(s).Some? ==> PayoutStatusName(ParsePayoutStatus(s).value) == s
  {
  }

  /** A row of `affiliates`. `walletAddress` is None for SQL NULL. */
  datatype Affiliate = Affiliate(
    name: string,
    email: string,
    passwordHash: string,
    referralCode: string,
    walletAddress: Option<string>,
    status: AffiliateStatus,
    totalReferrals: nat)

  /** A row of `referrals`. The payment columns are NULL (None) while the
      referral is signed up and are filled in when it becomes paid. */
  datatype Referral = Referral(
    affiliateId: nat,
    userId: string,
    email: Option<string>,
    status: ReferralStatus,
    signedUpAt: int,
    paymentAmount: Option<real>,
    commissionAmount: Option<real>,
    commissionRate: Option<nat>,
    currency: Option<string>,
    transactionId: Option<string>,
    paidAt: Option<int>)

  /** A row of `payouts`; `walletAddress` is the affiliate's address at the
      time of the request. */
  datatype Payout = Payout(
    affiliateId: nat,
    amount: real,
    walletAddress: string,
    status: PayoutStatus,
    transactionHash: Option<string>,
    notes: Option<string>,
    requestedAt: int,
    processedAt: Option<int>)

  /** A row of `clicks`. */
  datatype Click = Click(
    affiliateId: nat,
    ipAddress: string,
    userAgent: Option<string>,
    referrerUrl: Option<string>)

  /** The contents of the four tables at one instant. */
  datatype Tables = Tables(
    affiliates: seq<Affiliate>,
    referrals: seq<Referral>,
    payouts: seq<Payout>,
    clicks: seq<Click>)

  /** What a handler leaves behind: the tables after it and its reply. */
  datatype Effect<O> = Effect(after: Tables, out: O)
}
