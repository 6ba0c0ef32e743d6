/** The database the handlers share: the four tables as fields that each
    handler reads and reassigns as one atomic step. */
module Store {
  import opened Schema

  class Database {
    var affiliates: seq<Affiliate>
    var referrals: seq<Referral>
    var payouts: seq<Payout>
    var clicks: seq<Click>

    /** The tables as a value, for stating what a handler did. */
    function Snapshot(): Tables
      reads this
    {
      Tables(affiliates, referrals, payouts, clicks)
    }

    constructor Empty()
      ensures Snapshot() == Tables([], [], [], [])
    {
      affiliates, referrals, payouts, clicks := [], [], [], [];
    }
  }
}
