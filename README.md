# Affiliate ledger: a verified model

This project models the referral, commission and payout ledger of an
affiliate-programme backend. The ledger has four tables: affiliates,
referrals, payouts and clicks. Requests change them in these ways:

- webhook events from the main site record signups (new referrals);
- payment events turn a referral into a paid, commission-bearing one, at
  10% below 50 prior paid referrals and 20% from there on;
- affiliates request payouts against their available balance;
- administrators process payouts and approve, reject or suspend
  affiliates;
- the main site reports clicks on referral links.

The model is written in Dafny.

- `schema.dfy` (`Schema`) holds the rows, the status enumerations and the
  configuration constants.
- `queries.dfy` (`Queries`) holds the lookups, counts and sums the
  handlers read, the available balance, the integrity constraints (`Valid`)
  and the history relation on the referrals table.
- `store.dfy` (`Store`) is the database: a class whose four fields are the
  tables.
- The list endpoints reply with a page of matching rows and a total. Each
  listing's contract gives the total as the matching count (the
  affiliate's referral, paid-referral or payout count, or the count of one
  status), and the page size that total and the page parameters imply.
- `webhook.dfy`, `affiliate.dfy`, `admin.dfy`, `auth.dfy`, `server.dfy` and
  `errors.dfy` follow the source's controllers, the click endpoint and the
  error handler.
- `pagination.dfy` holds the paging helper. It exists twice in the source,
  at `src/controllers/affiliateController.js:5-13` and
  `src/controllers/adminController.js:4-12`, with identical bodies, and is
  defined once here.
- `ledger.dfy` (`Ledger`) puts every state-changing request together as
  one state machine. It proves properties of whole traces and gives a
  concrete end-to-end trace.

Every state-changing handler appears twice:

- a pure function over the tables, returning the new tables and the reply
  (`Effect`);
- a method `Handle…(db, …)` that changes the `Database` object step by
  step, as the source's handler does.

The method's postcondition ties it to the function. Each function's
contract states its outcomes and their conditions, one "if and only if"
per outcome, in the source's order of checks. It also states what the new
tables are and that every other table and row is unchanged. The lemmas
beside each function prove idempotence, uniqueness, the tier rule,
balance accounting and preservation of `Valid`.

Representation choices:

- A row's id is its index in its table.
- Money is `real`, so sums are exact.
- A commission rate is an integer percent.
- An empty string stands for an absent or falsy text field, and `None`
  stands for an absent value.
- Calls the model cannot see become parameters: password hashing and
  comparison, random bytes, the current time, and a failing database
  call.

Some behaviour of the code is easy to mistake for something stricter; the
model keeps it as written:

- Completed and failed payouts are not final. An administrator may set
  any payout to processing, completed or failed, whatever its current
  status. `ProcessPayout` keeps that permissive behaviour. `ReopeningCanOverdraw` shows what it allows: a failed payout
  that is reopened after its amount was requested again leaves the
  affiliate's balance negative.
- A payment amount of 0 counts as missing, because the check is `!amount`.
- A timestamp of 0 counts as absent. The event time then falls back to the
  handling time.

## Model

| member | source | states |
|---|---|---|
| Store.Database.Empty | src/server.js:15 | the database the handlers share starts with four empty tables |
| Schema.ParseAffiliateStatus | src/config/constants.js:8 | a text status is accepted exactly when it is one of the four affiliate statuses |
| Schema.ParseReferralStatus | src/config/constants.js:9 | a text status is accepted exactly when it is `signed_up` or `paid` |
| Schema.ParsePayoutStatus | src/config/constants.js:10 | a text status is accepted exactly when it is one of the four payout statuses |
| Schema.AffiliateStatusName | src/config/constants.js:8 | parsing an affiliate status's stored spelling gives that status back |
| Schema.ReferralStatusName | src/config/constants.js:9 | parsing a referral status's stored spelling gives that status back |
| Schema.PayoutStatusName | src/config/constants.js:10 | parsing a payout status's stored spelling gives that status back |
| Schema.ParsedStatusesAreNamed | src/config/constants.js:8-10 | a spelling that parses is the name of the status it parses to, so the spellings and the statuses correspond one to one |
| Queries.AffiliateWithCode | src/controllers/webhookController.js:16-19 | finds an affiliate holding the code, or reports that none holds it |
| Queries.AffiliateWithEmail | src/controllers/authController.js:31 | finds an affiliate with the email, or reports that none has it |
| Queries.ReferralOfUser | src/controllers/webhookController.js:34-37 | finds a referral of the user, or reports that the user has none |
| Queries.ReferralCount | src/controllers/affiliateController.js:22 | an affiliate never has more referrals than the table has rows |
| Queries.PaidCount | src/controllers/affiliateController.js:23 | an affiliate never has more paid referrals than referrals |
| Queries.Earned | src/controllers/affiliateController.js:198-201 | the paid commissions are 0 when the affiliate has no paid referral, and never negative while no commission is |
| Queries.PayoutTotal | src/controllers/affiliateController.js:202-205 | the payout sum over no status is 0, and it is never negative while no amount is |
| Queries.Available | src/controllers/affiliateController.js:198-207 | the admission balance, earned minus pending, processing and completed payouts, is the earnings page's earned minus paid out minus pending (line 138), and never exceeds the earnings while no payout amount is negative |
| Queries.ReferralsInStatus | src/controllers/adminController.js:209-233 | the count of one status over every affiliate never exceeds the table |
| Queries.PayoutCount | src/controllers/affiliateController.js:247 | the count of an affiliate's payouts never exceeds the table |
| Queries.PayoutsInStatus | src/controllers/adminController.js:267-276 | the count of one payout status never exceeds the table |
| Queries.AffiliatesInStatus | src/controllers/adminController.js:81-102 | the count of one affiliate status never exceeds the table |
| Queries.ReferralStatusesPartition | src/config/constants.js:9 | signed-up and paid referrals together are the whole table |
| Queries.PayoutStatusesPartition | src/config/constants.js:10 | the four payout statuses' counts add up to the whole table |
| Queries.AffiliateStatusesPartition | src/config/constants.js:8 | the four affiliate statuses' counts add up to the whole table |
| Queries.Clamped | src/controllers/affiliateController.js:60 | the displayed balance is never negative, and it equals the balance whenever that is positive |
| Queries.ReferralCountAfterUpdate | src/controllers/affiliateController.js:22 | updating one referral changes an affiliate's referral count only by that row's change of owner |
| Queries.PaidCountAfterUpdate | src/controllers/webhookController.js:101-105 | updating one referral changes an affiliate's paid count only by that row's own contribution |
| Queries.EarnedAfterUpdate | src/controllers/affiliateController.js:198-201 | updating one referral changes an affiliate's paid commissions only by that row's own contribution |
| Queries.PayoutTotalAfterUpdate | src/controllers/affiliateController.js:202-205 | updating one payout changes an affiliate's withheld total only by that row's own contribution |
| Queries.PayoutTotalSplit | src/controllers/affiliateController.js:25-26 | the sum over disjoint status sets is the sum of the sums, so completed plus in-flight is all withheld payouts |
| Queries.ReferralCountUnreferenced | src/controllers/authController.js:46-49 | a new affiliate that no referral points at has a referral count of 0, matching its counter |
| Queries.ReferralHistoryTransitive | src/controllers/webhookController.js:94-98 | kept referral history composes across steps: rows only grow, are never reassigned, and paid rows stay frozen |
| Pagination.GetPagination | src/controllers/affiliateController.js:5-13 | page >= 1, 1 <= limit <= 100, and offset = (page - 1) * limit; missing, 0 or negative inputs take page 1 and limit 20, and larger limits are clamped to 100 |
| Pagination.PageCount | src/controllers/affiliateController.js:105 | the page count is the ceiling of total / limit: the fewest pages of `limit` rows that hold every row |
| Pagination.Filter | src/controllers/adminController.js:229-233 | every kept row is a table row the condition accepts, every accepted row is kept, and no more rows come out than go in |
| Pagination.FilterConcat | src/controllers/adminController.js:229-233 | filtering two tables joined is joining their filtered rows; with `FilterOne` this fixes the result: each accepted row once, in table order |
| Pagination.FilterOne | src/controllers/adminController.js:229-233 | a single row is kept exactly when the condition accepts it |
| Pagination.FilterMultiset | src/controllers/adminController.js:229-233 | each accepted row is kept exactly as often as the table holds it, and no rejected row is kept |
| Pagination.FilterAll | src/controllers/adminController.js:98-102 | with no condition, the whole table is listed |
| Pagination.PageOf | src/controllers/affiliateController.js:91-106 | the page holds the matching rows from `offset` on: a full page while enough rows remain, the rest on the last page, none past the end; total and page count are over all matching rows |
| WebhookController.EventTime | src/controllers/webhookController.js:48 | an event is dated by its own non-zero timestamp, and otherwise by the time it is handled |
| WebhookController.CommissionRate | src/controllers/webhookController.js:107-110 | the rate is 10% exactly when fewer than 50 referrals were paid before, and 20% exactly when 50 or more were |
| WebhookController.Signup | src/controllers/webhookController.js:10-55 | the five outcomes: missing fields 400, unknown code 404, affiliate not approved 400, user already referred (duplicate), recorded; the affiliate checks come before the duplicate check; each outcome except the last leaves every table unchanged; a recorded signup appends one `signed_up` referral and raises only that affiliate's counter, by 1 |
| WebhookController.HandleSignup | src/controllers/webhookController.js:5-58 | the insert and the counter update leave the database exactly as `Signup` describes |
| WebhookController.SignupCountsOneReferral | src/controllers/webhookController.js:45-55 | a recorded signup raises the referral count of its affiliate by exactly 1 and that of no other |
| WebhookController.SignupIdempotent | src/controllers/webhookController.js:33-42 | a second delivery of a signup changes nothing and is never recorded, whenever it arrives |
| WebhookController.RecordReferralKeepsValid | src/controllers/webhookController.js:45-55 | appending a well-formed referral of a user not yet referred and counting it on its affiliate keeps every constraint |
| WebhookController.RepeatedSignupRecordsOnce | src/controllers/webhookController.js:33-42 | delivering the same signup N >= 1 times leaves the tables as one delivery does |
| WebhookController.SignupPreservesValid | src/controllers/webhookController.js:33-55 | a signup keeps every referred user unique, codes and emails unique, foreign keys in place and every counter equal to its referral count |
| WebhookController.SignupKeepsHistory | src/controllers/webhookController.js:45-49 | a signup only appends to the referrals |
| WebhookController.Payment | src/controllers/webhookController.js:72-126 | missing user, amount (0 included) or transaction gives 400; no referral and an already-paid referral give `commission: false`; those outcomes change nothing; otherwise only that referral changes: it becomes paid, with amount, commission = amount * rate / 100, rate, currency (default USDT), transaction and time; the affiliate's status is not consulted |
| WebhookController.HandlePayment | src/controllers/webhookController.js:67-127 | the in-place update leaves the database exactly as `Payment` describes |
| WebhookController.PaymentTierRule | src/controllers/webhookController.js:100-112 | the payment that makes a referral its affiliate's k-th paid referral earns 10% if and only if k <= 50, and 20% if and only if k > 50; no other affiliate's paid count moves |
| WebhookController.PaymentCreditsCommission | src/controllers/webhookController.js:112-126 | a commission raises its affiliate's available balance by exactly the commission and leaves every other balance unchanged |
| WebhookController.ReferralOfUserAfterUpdate | src/controllers/webhookController.js:115-124 | updating a referral's payment columns does not change which referral a user lookup finds |
| WebhookController.PaymentIdempotent | src/controllers/webhookController.js:93-98 | a second delivery of a payment changes nothing and credits no commission, whenever it arrives |
| WebhookController.RepeatedPaymentCreditsOnce | src/controllers/webhookController.js:85-98 | delivering the same payment N >= 1 times leaves the tables as one delivery does |
| WebhookController.PaymentPreservesValid | src/controllers/webhookController.js:114-126 | a payment keeps the referral well formed (payment columns set exactly when paid), the counters and every other constraint |
| WebhookController.PaymentKeepsHistory | src/controllers/webhookController.js:94-98 | a payment never reassigns a referral and never touches one already paid |
| AffiliateController.MaxCommission | src/controllers/affiliateController.js:123 | the maximum is some paid referral's commission, and no paid referral's commission exceeds it; none when there is no paid commission |
| AffiliateController.BearingCountIsPaidCount | src/controllers/affiliateController.js:122 | when every row is well formed, the rows `AVG` divides by are the paid referrals |
| AffiliateController.EarningsAverageAndMaximum | src/controllers/affiliateController.js:119-123 | the average commission is total earned divided by paid referrals, 0 when there are none, and the maximum bounds every paid commission |
| AffiliateController.ClickCount | src/controllers/affiliateController.js:21 | an affiliate never has more clicks than the table has rows |
| AffiliateController.Earnings | src/controllers/affiliateController.js:113-158 | the available balance is the admission balance clamped at 0; paid referrals never outnumber referrals; with none, earnings and the average are 0 |
| AffiliateController.Dashboard | src/controllers/affiliateController.js:15-63 | pending earnings are the same clamped admission balance; conversions never outnumber signups; clicks and signups never exceed their tables |
| AffiliateController.RequestPayout | src/controllers/affiliateController.js:186-221 | missing or non-positive amount, then missing wallet, give 400 before any balance is read; an amount above the balance gives 400 with the balance clamped at 0; those outcomes change nothing; otherwise exactly one pending payout of that amount, with a copy of the wallet, is appended and nothing else changes |
| AffiliateController.HandleRequestPayout | src/controllers/affiliateController.js:180-235 | the append leaves the database exactly as `RequestPayout` describes |
| AffiliateController.PayoutAdmissionKeepsBalance | src/controllers/affiliateController.js:207-221 | after an admitted request the balance is the old balance minus the amount, hence >= 0; no other affiliate's balance changes |
| AffiliateController.OnlyOneOfTwoRequestsFits | src/controllers/affiliateController.js:207-215 | of two equal requests the balance covers only once, the first is admitted and the second refused as insufficient, with nothing changed |
| AffiliateController.RequestPayoutPreservesValid | src/controllers/affiliateController.js:217-221 | a payout request keeps every constraint |
| AffiliateController.ListOwnReferrals | src/controllers/affiliateController.js:79-106 | the total is the affiliate's referral count, its paid count for `paid`, and the rest for `signed_up`; an unknown status is ignored; the page holds as many as fit; only its own referrals of that status are listed |
| AffiliateController.OwnReferralCounts | src/controllers/affiliateController.js:79-87 | the rows the listing filters by owner, and by owner and status, are as many as the referral count, the paid count, and their difference |
| AffiliateController.ListOwnPayouts | src/controllers/affiliateController.js:242-256 | the total is the affiliate's payout count; the page holds as many as fit; only its own payouts are listed |
| AffiliateController.OwnPayoutCount | src/controllers/affiliateController.js:242-247 | the payouts the listing filters by owner are as many as the payout count |
| AffiliateController.UpdateProfile | src/controllers/affiliateController.js:269-312 | each refusal with its exact condition, in the order of checks: an email used by another affiliate gives 409; then a new password without the current one 400, and with a wrong one 401; then no field 400; those change nothing; otherwise only the supplied fields of that affiliate's row change |
| AffiliateController.HandleUpdateProfile | src/controllers/affiliateController.js:264-317 | the update writes the assembled row only on success, leaving the database exactly as `UpdateProfile` describes |
| AffiliateController.CollectProfileFields | src/controllers/affiliateController.js:269-305 | checking and pushing assignments in the handler's interleaved order yields `UpdateProfile`'s outcome and, on success, its row |
| AffiliateController.ApplyFieldsPush | src/controllers/affiliateController.js:273-301 | a pushed assignment is applied after the earlier ones |
| AffiliateController.UpdateProfilePreservesValid | src/controllers/affiliateController.js:277-284 | a profile update keeps emails unique and every other constraint |
| AdminController.TargetStatus | src/controllers/adminController.js:305-307 | an administrator may set exactly processing, completed or failed |
| AdminController.ProcessPayout | src/controllers/adminController.js:305-334 | any other status gives 400 and an unknown id 404, changing nothing; otherwise only that payout changes; the current status is not consulted; hash and notes are overwritten only when supplied; amount, affiliate, wallet and request time never change; `processed_at` is stamped exactly on completed or failed |
| AdminController.HandleProcessPayout | src/controllers/adminController.js:300-339 | building the `SET` list step by step leaves the database exactly as `ProcessPayout` describes |
| AdminController.ProcessPayoutMovesBalance | src/controllers/adminController.js:305-330 | processing moves the owner's balance by exactly the change in what the payout withholds, and no other balance |
| AdminController.FailingCompletedPayoutReleasesIt | src/controllers/adminController.js:305-330 | completed to failed gives the amount back to the available balance |
| AdminController.ReopeningFailedPayoutWithholdsIt | src/controllers/adminController.js:305-330 | failed to processing or completed withholds the amount again, whatever the balance |
| AdminController.ReopeningCanOverdraw | src/controllers/adminController.js:305-330 | from valid tables with a balance of 0, reopening a failed payout of 10 leaves a balance of -10 |
| AdminController.ProcessPayoutIdempotent | src/controllers/adminController.js:309-330 | repeating an update at the same instant changes nothing more |
| AdminController.ProcessPayoutPreservesValid | src/controllers/adminController.js:326-330 | processing a payout keeps every constraint |
| AdminController.UpdateAffiliateStatus | src/controllers/adminController.js:179-191 | a status outside the four gives 400 and an unknown id 404, changing nothing; otherwise only that affiliate's status changes, and the reply carries the id, name, email, code and new status |
| AdminController.HandleUpdateAffiliateStatus | src/controllers/adminController.js:174-196 | the in-place update leaves the database exactly as `UpdateAffiliateStatus` describes |
| AdminController.UpdateAffiliateStatusPreservesValid | src/controllers/adminController.js:183-187 | a status change keeps every constraint |
| AdminController.StatusGatesAuthentication | src/middleware/auth.js:24-26 | after a status change the affiliate may use its endpoints if and only if the new status is approved |
| AdminController.StatusGatesSignups | src/controllers/webhookController.js:28-31 | after a status change, a signup with the affiliate's code is refused as inactive if and only if the new status is not approved |
| AdminController.AffiliateRows | src/controllers/adminController.js:73-102 | one summary per affiliate of the requested status (as many as the count of that status), every such affiliate appears, and every affiliate when no status is given |
| AdminController.Summary | src/controllers/adminController.js:73-80 | a listed affiliate's summary: its own id and status, paid referrals not above the counter while counters agree, no earnings without paid referrals, clicks within the table |
| AdminController.MatchingIds | src/controllers/adminController.js:92-102 | the ids of exactly the affiliates of the requested status, as many as the count of that status |
| AdminController.ListAffiliates | src/controllers/adminController.js:92-121 | the total counts the affiliates of the requested status, or all of them for an unknown status; the page holds as many as fit; every row is a table row's summary, of that status |
| AdminController.ListAllReferrals | src/controllers/adminController.js:217-249 | the total is every referral, the count of the status, the affiliate's referral count, its paid count, or the rest for `signed_up`, as the filters given; the page holds as many as fit; every row matches the filters |
| AdminController.AnyReferralCount | src/controllers/adminController.js:217-233 | the referrals the status filter keeps are as many as the count of that status |
| AdminController.ListAllPayouts | src/controllers/adminController.js:271-292 | the total is the count of the requested status, or every payout for an unknown status; the page holds as many as fit; every row is a payout of that status |
| AdminController.PayoutStatusCount | src/controllers/adminController.js:271-276 | the payouts the status filter keeps are as many as the count of that status |
| AuthController.AlphabetChar | src/controllers/authController.js:8 | each alphabet position is a letter or a digit |
| AuthController.AlphabetAt | src/controllers/authController.js:8 | the alphabet has 62 characters, and position k holds the character `AlphabetChar` gives |
| AuthController.CodeChar | src/controllers/authController.js:12 | a random byte selects a letter or a digit |
| AuthController.CodeCharIsAlphabet | src/controllers/authController.js:12 | the byte b selects the alphabet character at b mod 62 |
| AuthController.EveryAlphanumericIsDrawn | src/controllers/authController.js:8 | every letter and digit is selected by some byte |
| AuthController.CodeFor | src/controllers/authController.js:9-14 | a code has one character per byte, each a letter or digit |
| AuthController.CodeForSpellsBytes | src/controllers/authController.js:11-13 | character i of the code is the one byte i selects |
| AuthController.CodeForIndexesAlphabet | src/controllers/authController.js:12 | character i of the code is the alphabet at bytes[i] mod 62 |
| AuthController.GenerateReferralCode | src/controllers/authController.js:7-15 | the loop builds exactly the 8-character code the bytes spell |
| AuthController.FirstUnusedDraw | src/controllers/authController.js:38-44 | the loop stops at the first draw whose code no affiliate holds, every earlier draw being taken |
| AuthController.Register | src/controllers/authController.js:31-50 | a registered email gives 409 and adds nothing; otherwise one pending affiliate with no referrals is appended, with an 8-character code no affiliate holds and no wallet when none is given |
| AuthController.DrawUnusedCode | src/controllers/authController.js:38-44 | the registration loop ends with the code of the first unused draw |
| AuthController.HandleRegister | src/controllers/authController.js:27-63 | the insert leaves the database exactly as `Register` describes |
| AuthController.AppendAffiliateKeepsValid | src/controllers/authController.js:46-49 | appending an affiliate with a new code and a new email, and no referrals counted, keeps every constraint |
| AuthController.RegisterPreservesValid | src/controllers/authController.js:38-49 | registration keeps referral codes and emails unique and every counter correct |
| AuthController.NewAffiliateAwaitsApproval | src/controllers/authController.js:46-49 | a new affiliate cannot use the affiliate endpoints, and signups with its code are refused as inactive |
| AuthController.AffiliateLogin | src/controllers/authController.js:78-100 | unknown email or wrong password gives 401; then rejected and suspended give 403; pending and approved log in with role `affiliate` |
| AuthController.FailedLoginRevealsNothing | src/controllers/authController.js:78-87 | an unknown email and a wrong password get the same 401 reply and message |
| AuthController.PendingLoginIsNotAuthenticated | src/controllers/authController.js:89-97 | a logged-in affiliate is pending or approved, and it passes the endpoints' gate only when approved |
| AuthController.AdminWithEmail | src/controllers/authController.js:124-127 | finds an administrator with the email, or reports that none has it |
| AuthController.AdminLogin | src/controllers/authController.js:129-144 | unknown email or wrong password gives 401; otherwise log in with role `admin`, with no status gate |
| Server.ApprovedWithCode | src/server.js:91-94 | finds an approved affiliate holding the code, or reports that none does |
| Server.TrackClick | src/server.js:86-108 | a missing ref gives 400; every other click is answered `ok`, even on a failure; the tables change if and only if the ref is an approved affiliate's code and nothing fails, and then by one click for that affiliate; affiliates, referrals and payouts never change |
| Server.HandleTrackClick | src/server.js:86-108 | the append leaves the database exactly as `TrackClick` describes |
| Server.TrackClickCountsOne | src/server.js:96-101 | a recorded click counts one more for that affiliate and none for any other; an affiliate that is not approved never gains a click |
| Server.TrackClickPreservesValid | src/server.js:96-101 | click tracking keeps every constraint |
| ErrorHandler.Classify | src/middleware/errorHandler.js:5-19 | a parse failure gives 400, then 23505 gives 409 "Duplicate entry", then 23503 gives 400; otherwise the error's own status or 500, with its message or "Internal server error" |
| ErrorHandler.ParseFailureComesFirst | src/middleware/errorHandler.js:5-7 | a parse failure is answered the same whatever code, status or message the error carries |
| ErrorHandler.ConstraintViolationsAreClientErrors | src/middleware/errorHandler.js:9-15 | a constraint violation ignores the error's status and message and is a 4xx |
| ErrorHandler.UnclassifiedErrorsAreServerErrors | src/middleware/errorHandler.js:17 | any other error without a status of its own is a 500 |
| Ledger.Step | src/server.js:70-73 | no event deletes a row: every table is at least as long after it |
| Ledger.Run | src/server.js:70-73 | along any trace every table only grows |
| Ledger.StepPreservesValid | src/controllers/webhookController.js:33-55 | every kind of event keeps every constraint |
| Ledger.StepKeepsHistory | src/controllers/webhookController.js:94-98 | no event removes or reassigns a referral or changes a paid one |
| Ledger.RunPreservesValid | src/controllers/webhookController.js:33-42 | along any trace from valid tables, no user is ever referred twice and every counter matches its referrals |
| Ledger.RunKeepsHistory | src/controllers/webhookController.js:94-98 | along any trace, referral status only moves from signed up to paid, and a paid referral's commission stays frozen |
| Ledger.PaidCountOfPrefix | src/controllers/webhookController.js:101-105 | appending rows never lowers a paid count |
| Ledger.PaidCountPointwise | src/controllers/webhookController.js:101-105 | rows that are each at least as paid give at least the paid count |
| Ledger.HistoryKeepsPaidCount | src/controllers/webhookController.js:101-105 | under kept history an affiliate's paid count never decreases |
| Ledger.TierNeverDrops | src/controllers/webhookController.js:107-110 | along any trace an affiliate's commission tier never drops |
| Ledger.EndToEndSignup | src/controllers/webhookController.js:45-55 | an approved affiliate's code brings U1's signup: one signed-up referral, and the counter at 1 |
| Ledger.EndToEndPayment | src/controllers/webhookController.js:100-126 | U1's payment of 100, its affiliate's first, earns 10 at 10%, leaving 10 available |
| Ledger.EndToEndCommission | src/controllers/webhookController.js:108-112 | an approved affiliate's referred user signs up and pays 100: the commission is 10 at 10%, and 10 is available |
| Ledger.EndToEndPayout | src/controllers/affiliateController.js:207-221 | with 10 available, 10.01 is refused reporting 10, 10 is admitted as pending, and completing it leaves 0 |
| Ledger.EndToEndOverdraw | src/controllers/affiliateController.js:207-215 | with 10 available, a request for 10.01 is refused reporting 10 and changes nothing |
| Ledger.EndToEndPayoutAdmitted | src/controllers/affiliateController.js:217-221 | with 10 available and no payouts, 10 is admitted as the first payout, pending, and nothing remains available |
| Ledger.EndToEndPayoutCompleted | src/controllers/adminController.js:305-330 | completing that payout leaves the balance at 0 |
| Ledger.EndToEnd | src/controllers/affiliateController.js:198-221 | the signup, payment, refused and admitted requests and completion as one trace |

## Left out

- Database I/O and transactions are not modelled. Each handler is one atomic step. The signup handler opens no transaction, and interleaving between its insert and its counter update is concurrency, outside this model.
- The webhook signature check and `logWebhook` are not modelled: `src/middleware/webhook.js` is not part of this model. Only signed events reach the handlers.
- Token verification, JWT signing and cookies are not modelled. The affiliate middleware's outcome is the `Authenticated` precondition: an existing, approved affiliate.
- `bcrypt`, `crypto.randomBytes` and `NOW()` are parameters: a password-match predicate, a new hash, byte draws, and a time.
- AuthController.Register: the source loops until it draws an unused code. The model takes a finite sequence of draws that reaches one; registrations whose draws never do are not modelled.
- AuthController.GenerateReferralCode: the random bytes are an input.
- Floating point is not modelled. Amounts are exact reals, so `parseFloat` of string amounts and rounding of `amount * rate` are outside the model.
- The input validation in the route files is not modelled. Trimming, email normalisation and the minimum payout amount are taken as already applied, and the required registration fields as present.
- AffiliateController.UpdateProfile: a JSON `null` wallet address (which clears the column) is not distinguished from an empty one. Both read as no wallet for payout requests.
- The dashboard's 30-day series, its conversion rate formatted by `toFixed`, and the earnings page's monthly breakdown are clock and formatting, and are left out.
- The earnings page's `from_conversions` figure is left out. It equals `total_earned`, because the query already keeps only paid rows.
- The admin dashboard, the affiliate detail page and the webhook log listing are read-only reports over the same tables and are left out. `getLink` (the referral link text) and `logout` (clearing the cookie) are left out too.
- The list endpoints' `ORDER BY created_at DESC` is not modelled. Listings are in table order.
- Which matching rows fill a given page depends on that order. The listing contracts therefore state the total, the page size and that every listed row matches, not which rows the page holds.
- AdminController.ListAllReferrals and AdminController.ListAllPayouts: the listing query joins the affiliates table and so drops a row whose affiliate is missing, while the count query does not. The model lists such rows; the two agree whenever the foreign keys hold (`Valid`).
- The affiliates listing's `search` (ILIKE) condition is not modelled. Neither are the joined affiliate name and email columns in the admin referral and payout listings.
- SQL text construction and placeholder numbering are modelled by their filter semantics only.
- Rate limiting, CORS, helmet, static files, the seeding script and the browser front ends are left out.
