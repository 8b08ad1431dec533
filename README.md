# Membership and payments panel — Dafny model

This project models the business logic of a small administration panel for memberships and payments. Users log in, make payments and look at their own transactions. Admins grant, extend and cancel memberships, change the status of transactions, add users, and read a dashboard and a report. The server keeps two collections, users and transactions. Every modelled route sits behind role checks (`isLoggedIn`, `isAdmin`, `isUser`); the login, password-reset and logout routes have none and are not modelled. Every request first runs a lazy membership expiry check for the session's user.

The model keeps the collections in memory. `Server.Store` is a class with a `seq<User>` and a `seq<Transaction>`, plus the id counter that stands in for the store's generated ids. The handlers that write are methods with `modifies this`. Their postconditions give the new collections in terms of the old ones. The store invariant `Valid()` says that emails are unique, ids are distinct and below the counter, and every transaction amount is above 0. Every method preserves it. The parts that only compute are functions over the sequences, with lemmas: the gate, the query and paging arithmetic, and the dashboard and report aggregates.

Modules:
- `Clock`: timestamps in milliseconds, `AddMonths`, `EndOfDay`, and the UTC calendar month `MonthOf`.
- `Records`: the user and transaction documents with their defaults, the session snapshot, failures, and the `findOne`/`findById` lookups.
- `Gate`: the three middlewares.
- `Membership`: the lifecycle rules on one user document.
- `Listing`: GET /transactions.
- `Reporting`: GET /dashboard and GET /reports.
- `Server`: the checks each handler makes before it writes, and the `Store` class.

Inputs are taken as already parsed, and dates are integer timestamps.
- `amount` and `duration`: `None` is a field that is absent or empty, which the handlers' `!field` tests reject; an email field that is absent or empty is `""`.
- `role` on the add-user form: `None` is an absent field, which the schema defaults to "user". An empty `role` is `Some("")` and is stored as `""`, so that user passes neither `isAdmin` nor `isUser`.
- `page`: `None` is a page that is absent or that `parseInt` cannot read (NaN); `|| 1` turns both into page 1.

In these places the model follows what the code actually does:
- The expiry check marks a lapsed user "Expired" even when it already is. The result is the same, and the check stays idempotent.
- `updateMembership` accepts any action string. An action other than "extend" or "cancel" saves the user unchanged and still reports success.
- A negative `page` makes the skip negative. The store refuses such a query, so the model returns `Err(NegativeSkip)`.
- The store applies the sort before skip and limit, whatever order the calls are chained in.

## Model

| member | source | states |
|---|---|---|
| `Clock.AddMonths` | server.js:195 | advancing by at least one month gives a strictly later date; by 0 months the same date |
| `Clock.AddMonthsStacks` | server.js:189-195 | advancing by a months and then by b months equals advancing by a + b months |
| `Clock.EndOfDay` | server.js:306-307 | the end bound lies in the same day as the given date, at or after it, and is the day's last millisecond |
| `Clock.MonthOf` | server.js:127 | the `$month` group key of a timestamp is a month number from 1 to 12 |
| `Clock.MonthStarts` | server.js:127 | the Gregorian month table: months start on days 0, 31, 59, 90, … 334 of a common year, one day later from March on in a leap year, and the year ends after 365 or 366 days |
| `Clock.MonthAt` | server.js:127 | the month looked up for a day of the year is a month number from 1 to 12 |
| `Clock.MonthAtInTable` | server.js:127 | the month looked up for a day of the year is the one whose first day is at or before it and whose successor's first day is after it |
| `Clock.LocateYear` | server.js:127 | a day count from the first of a year lands in that year or a later one, at a day index inside it |
| `Clock.LocateYearCounts` | server.js:127 | the days of the whole years passed plus the day index give back the count |
| `Clock.YearAndDay` | server.js:127 | a timestamp's UTC day, taken within its 400-year cycle, is a year from 2000 on and a day index inside that year |
| `Clock.YearAndDayCounts` | server.js:127 | the days of the years from 2000 plus the day index give back the day's offset in the 400-year cycle |
| `Clock.MonthOfCalendar` | server.js:127 | the `$month` key is a given month exactly when the timestamp's day of the year lies between that month's first day and the next month's first day |
| `Clock.FirstOfMarch2000` | server.js:127 | 1 March 2000, the day after a leap day, is in month 3 |
| `Records.NewUser` | server.js:404-409 | a new user carries the form's name, email and password digest; the role is the form's role or "user" when none is given; there is no membership yet |
| `Records.NewPayment` | server.js:366-372 | a payment carries the payer's email, the amount, status "Requested", category "Membership", method "UPI", and now as its creation time |
| `Records.FindByEmail` | server.js:184 | the lookup finds the first user with that email, or none exactly when no user has it |
| `Records.FindUserById` | server.js:60 | the lookup finds the first user with that id, or none exactly when no user has it |
| `Records.FindTransaction` | server.js:338 | the lookup finds the first transaction with that id, or none exactly when no transaction has it |
| `Records.FindByEmailUnique` | server.js:397-400 | with unique emails the lookup returns the only user that has the email |
| `Gate.Admit` | server.js:36-55 | a request passes exactly when the route's role condition holds; an anonymous caller is sent to login first; a caller of the wrong role is denied |
| `Gate.RolesExclusive` | server.js:43-55 | no session passes both the admin-only and the user-only gate |
| `Gate.RoleGateImpliesLoggedIn` | server.js:36-55 | passing any role gate implies being logged in |
| `Membership.Lapse` | server.js:62-65 | a user whose expiry is before now becomes "Expired"; the expiry and every other field stay; any other user is unchanged |
| `Membership.LapseConsistent` | server.js:62-64 | after the check, a lapsed expiry always comes with type "Expired" |
| `Membership.LapseIdempotent` | server.js:58-68 | running the check twice equals running it once |
| `Membership.BaseDate` | server.js:190-193 | the base is the current expiry when it is after now, otherwise now; it is never before either |
| `Membership.Grant` | server.js:187-198 | only expiry and type change; type becomes "Active"; expiry becomes the base date advanced by the months; one month or more makes the user active now |
| `Membership.GrantExtendsActive` | server.js:189-197 | a grant to a still-active member counts from the old expiry and never shortens it |
| `Membership.GrantFromNow` | server.js:190-197 | a grant to a user without a live membership counts from now |
| `Membership.GrantsStack` | server.js:189-198 | two grants in a row add up: the result is the base date advanced by the sum of the months |
| `Membership.Extend` | server.js:235-244 | "extend" applies the grant rule with exactly six months and leaves the user active |
| `Membership.Cancel` | server.js:246-249 | "cancel" sets the expiry to now and the type to "Expired"; the user is not active at now |
| `Membership.CancelConsistent` | server.js:246-249 | a cancelled membership stays consistent at every later time |
| `Membership.ApplyAction` | server.js:235-250 | "extend" extends, "cancel" cancels, any other action leaves the user as it was; id, email and role never change |
| `Listing.Contains` | server.js:298 | an empty search text matches everything; a match needs a needle no longer than the email |
| `Listing.ContainsOccurs` | server.js:298 | the search text is found exactly when it occurs in the email at some position |
| `Listing.ContainsIgnoreCase` | server.js:296-299 | the admin's search matches exactly when the search text occurs in the email once both are in lower case; an empty search matches |
| `Listing.ContainsSelf` | server.js:298 | searching for a full email finds it |
| `Listing.BuildQuery` | server.js:288-313 | a non-admin is held to their own email whatever the search says; an admin filters by a non-empty search only; the date window exists exactly when both dates are given and runs from the start to the end of the end day |
| `Listing.EmailMatches` | server.js:296-302 | no email filter passes every email; the admin's search passes exactly the emails in which the text occurs ignoring case; a non-admin's filter passes exactly their own email |
| `Listing.Matches` | server.js:294-313 | the unfiltered query matches every transaction; a match passes the email filter and, when there is a date window, lies in it; without a window the email filter alone decides |
| `Listing.Filter` | server.js:316-318 | the selection holds exactly the stored transactions that match the query |
| `Listing.FilterCounts` | server.js:316-318 | each matching transaction is selected as many times as it is stored, and each other one not at all |
| `Listing.NewestFirst` | server.js:318-321 | the result is a permutation of the input ordered by creation time, newest first |
| `Listing.NewestPrefix` | server.js:133-135 | the first n of the sorted transactions are still newest first and are all stored transactions |
| `Listing.PageNumber` | server.js:290 | an absent, unparsable or zero page becomes 1; any other number is kept |
| `Listing.Skip` | server.js:290-292 | the skip before a page is negative exactly when the page is below 1, and a multiple of 5 otherwise |
| `Listing.PageCount` | server.js:328 | the page count is the least n with 5n at least the total, so 0 for no rows |
| `Listing.Slice` | server.js:318-320 | at most five rows, taken consecutively from the skip position, in the same order |
| `Listing.ListTransactions` | server.js:286-331 | an anonymous caller is sent to login; a page below 1 is refused; otherwise the page holds the sorted matching rows from index (page-1)*5, the total is the match count and the page count its ceiling over 5 |
| `Listing.RowsMatchQuery` | server.js:294-321 | every row shown is a stored transaction that matches the query; at most five rows; newest first |
| `Listing.NonAdminSeesOnlyOwn` | server.js:296-302 | a non-admin sees only rows whose email equals their own |
| `Listing.NonAdminIgnoresSearch` | server.js:288-302 | for a non-admin the search field has no effect on the listing |
| `Listing.DateWindowInclusive` | server.js:304-313 | with both dates a row passes exactly when it was created between the start and the end day's last millisecond, bounds included; with either missing, dates do not filter |
| `Listing.PageCovers` | server.js:290-328 | the j-th match is row j mod 5 of page j div 5 + 1, and that page is within the page count |
| `Listing.PastLastPageEmpty` | server.js:318-328 | a page beyond the page count has no rows |
| `Reporting.Revenue` | server.js:114-118 | the total revenue is 0 for no transactions and at least the count when every amount is positive |
| `Reporting.CountStatus` | server.js:120-122 | the pending count never exceeds the number of transactions; it is 0 exactly when none has the status |
| `Reporting.CountActive` | server.js:137-139 | the active count never exceeds the number of users; it is 0 exactly when no expiry lies after now |
| `Reporting.CountActiveAppend` | server.js:137-139 | one more user adds one to the active count exactly when that user's expiry lies after now |
| `Reporting.KeyByMonth` | server.js:124-129 | each transaction, in order, becomes its `$month` key and its amount, and every key is a month from 1 to 12 |
| `Reporting.MonthlyTotals` | server.js:124-132 | one group for each month number that some transaction's key carries and for no other, years merged, strictly ascending, each the sum of that month's amounts |
| `Reporting.MonthlyFromComplete` | server.js:124-132 | every month from a given one on that has transactions has its group, placed after the groups of the earlier months that have transactions |
| `Reporting.MonthlyTotalsSumToRevenue` | server.js:114-132 | the monthly groups add up to the total revenue |
| `Reporting.AbsentMonthSumsToZero` | server.js:124-130 | a month that no key carries sums to 0, so leaving out its group loses nothing |
| `Reporting.DashboardSummary` | server.js:110-147 | the dashboard holds the transaction count, their total revenue, the count of "Requested" ones, the count of users active now, the month groups and the first five (or fewer) transactions newest first; pending is at most the orders, active at most the users, and the month groups sum to the revenue |
| `Reporting.EmptyDashboard` | server.js:112-139 | with no transactions every count and sum is zero and there are no months and no recent orders |
| `Reporting.ReportTotals` | server.js:267-279 | the report counts all users and, as active members, the users whose expiry lies after now, never more than the users |
| `Reporting.PaymentUpdatesDashboard` | server.js:366-374 | a recorded payment raises the order count by one, the revenue by its amount and the pending count by one |
| `Reporting.RevenueIgnoresStatus` | server.js:338-340 | a status change leaves the total revenue unchanged |
| `Reporting.CountStatusUpdate` | server.js:338-340 | a status change moves the count of a status by the old and new status only |
| `Reporting.CancelLeavesActiveCount` | server.js:246-249 | cancelling takes the user out of the active count at once |
| `Reporting.GrantJoinsActiveCount` | server.js:187-198 | a grant of a month or more puts the user in the active count |
| `Server.MembershipTarget` | server.js:172-185 | add-membership proceeds exactly for an admin with an email, a duration, the confirmation and a known user; otherwise it reports the first failing check, in the handler's order |
| `Server.UpdateTarget` | server.js:223-231 | update-membership proceeds exactly for an admin naming a known user |
| `Server.PaymentCheck` | server.js:359-364 | a payment proceeds exactly for a user-role session with an amount above 0 |
| `Server.NewUserCheck` | server.js:394-400 | add-user proceeds exactly for an admin whose email is not taken; a taken email is refused |
| `Server.ExpireSessionUser` | server.js:58-68 | only the session's user can change, only as the expiry check says, and afterwards that user is consistent |
| `Server.ExpireIdempotent` | server.js:58-68 | running the expiry check twice leaves the users as running it once |
| `Server.PaymentListedForPayer` | server.js:359-374 | a payment just recorded appears in its payer's own listing |
| `Server.Store.CheckMembershipExpiry` | server.js:58-68 | the users become the expiry-checked users; transactions are untouched; the store invariant holds |
| `Server.Store.AddMembership` | server.js:172-213 | on a failed check nothing changes and the failure is reported; otherwise only the found user changes, by the grant rule |
| `Server.Store.UpdateMembership` | server.js:223-261 | on a failed check nothing changes; otherwise only the found user changes, by the requested action |
| `Server.Store.MakePayment` | server.js:359-383 | a refused payment changes nothing; otherwise exactly one new payment is appended after the existing transactions |
| `Server.Store.UpdateStatus` | server.js:336-343 | for an admin, only the status of the transaction with that id is overwritten, with any value; an unknown id changes nothing |
| `Server.Store.AddUser` | server.js:394-418 | a taken email changes nothing; otherwise exactly one new user is appended and emails stay unique |
| `Server.Store.ViewDashboard` | server.js:110-149 | only an admin gets the dashboard of the current collections; since every stored amount is above 0, its revenue is at least its order count |
| `Server.Store.ViewReports` | server.js:267-279 | only an admin gets the report of the current users |

## Left out

- `Clock.AddMonths`: JavaScript `setMonth` is calendar arithmetic in local time. A day past the end of the target month rolls over into the next month. The model uses fixed 30-day months instead. Only two properties are relied on: the result is strictly increasing for one month or more, and months add up. The stacking lemma is therefore exact here, but not across a real month-end rollover.
- `Clock.AddMonthsStacks`: the additivity it states holds for the fixed 30-day months of the model only. With `setMonth`, advancing twice can differ from advancing once by the summed months when the first step lands on a month end that rolls over (31 January plus one month is 2 or 3 March).
- `Membership.GrantsStack`: rests on `Clock.AddMonthsStacks`, so two grants in a row equal one grant of the summed months in the 30-day model only, not across a `setMonth` rollover.
- `Clock.YearAndDay`: the 400-year cycle length (146,097 days) is taken as a constant, not derived from the month and leap-year table.
- `Clock.EndOfDay`: `setHours(23, 59, 59, 999)` works in the server's local time zone. The model takes the day in UTC.
- `Listing.ContainsIgnoreCase`: the admin search is a regular expression with the `i` option. The model treats it as a literal substring and folds case for ASCII letters only.
- `Listing.NewestFirst`: the store leaves the order of equal creation times unspecified. The model keeps insertion order for them.
- `Server.Store.CheckMembershipExpiry`: when the session's user no longer exists, the source crashes on a null document. The model changes nothing in that case.
- `Records.PasswordHash`: bcrypt hashing and comparison are a foreign library. A stored password is modelled as the digest of the plain text.
- Login, forgot-password and reset-password are not modelled. They are lookups around bcrypt and set the session.
- Sessions and logout are not modelled. The session is a parameter holding the snapshot taken at login.
- Express routing, rendering, redirects, static files and the `console.log` calls are not modelled.
- The MongoDB connection and driver are replaced by the in-memory sequences. Concurrent requests, and lost updates between them, are not modelled.
- Form coercion is not modelled. This covers a non-numeric amount, `parseInt` yielding NaN for `duration`, and an `undefined` field in a lookup filter. Amounts are integers, not floating point.
- The first admin has to exist before anyone can add users. The source has no route for this, so the `Store` constructor takes seeded users.
