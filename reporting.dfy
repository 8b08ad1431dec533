/** The admin dashboard (GET /dashboard) and the reports page (GET /reports):
    counts and sums over the two collections. */
module Reporting {
  import opened Clock
  import opened Records
  import opened Membership
  import opened Listing

  /** The sum of the amounts, as `$group … $sum: "$amount"` computes it
      (0 for an empty collection, which is what `?.total || 0` falls back to). */
  function Revenue(ts: seq<Transaction>): (r: int)
    ensures ts == [] ==> r == 0
    ensures (forall i :: 0 <= i < |ts| ==> ts[i].amount > 0) ==> r >= |ts|
  {
    if ts == [] then 0 else ts[0].amount + Revenue(ts[1..])
  }

  /** `countDocuments({ status })`. */
  function CountStatus(ts: seq<Transaction>, status: string): (n: nat)
    ensures n <= |ts|
    ensures n == |ts| <==> forall i :: 0 <= i < |ts| ==> ts[i].status == status
    ensures n == 0 <==> forall i :: 0 <= i < |ts| ==> ts[i].status != status
  {
    if ts == [] then 0
    else (if ts[0].status == status then 1 else 0) + CountStatus(ts[1..], status)
  }

  /** `User.countDocuments({ membershipExpiry: { $gt: now } })`. */
  function CountActive(users: seq<User>, now: int): (n: nat)
    ensures n <= |users|
    ensures n == 0 <==> forall i :: 0 <= i < |users| ==> !ActiveAt(users[i], now)
  {
    if users == [] then 0
    else (if ActiveAt(users[0], now) then 1 else 0) + CountActive(users[1..], now)
  }

  // ---------------------------------------------------------------------------
  // Monthly totals: `$group: { _id: { $month: "$createdAt" } … }, $sort: { _id: 1 }`
  // ---------------------------------------------------------------------------

  datatype MonthlyEntry = MonthlyEntry(month: int, total: int)

  /** A transaction as the grouping stage sees it: its `$month` key and its amount. */
  datatype Keyed = Keyed(month: int, amount: int)

  /** Every key is a month number. */
  predicate MonthKeys(rows: seq<Keyed>) {
    forall i :: 0 <= i < |rows| ==> 1 <= rows[i].month <= 12
  }

  /** The `{ $month: "$createdAt" }` key and the amount of every transaction, in order. */
  function KeyByMonth(ts: seq<Transaction>): (rows: seq<Keyed>)
    ensures |rows| == |ts|
    ensures forall i :: 0 <= i < |ts| ==> rows[i] == Keyed(MonthOf(ts[i].createdAt), ts[i].amount)
    ensures MonthKeys(rows)
  {
    if ts == [] then [] else [Keyed(MonthOf(ts[0].createdAt), ts[0].amount)] + KeyByMonth(ts[1..])
  }

  /** Some row carries month m. */
  predicate HasMonth(rows: seq<Keyed>, m: int) {
    exists i :: 0 <= i < |rows| && rows[i].month == m
  }

  /** Sum of the amounts of the rows of month m. */
  function MonthSum(rows: seq<Keyed>, m: int): int {
    if rows == [] then 0
    else (if rows[0].month == m then rows[0].amount else 0) + MonthSum(rows[1..], m)
  }

  /** The groups for months `from` to 12, in ascending month order. */
  function MonthlyFrom(rows: seq<Keyed>, from: int): (r: seq<MonthlyEntry>)
    requires 1 <= from <= 13
    ensures forall i :: 0 <= i < |r| ==> from <= r[i].month <= 12
    decreases 13 - from
  {
    if from == 13 then []
    else (if HasMonth(rows, from) then [MonthlyEntry(from, MonthSum(rows, from))] else [])
         + MonthlyFrom(rows, from + 1)
  }

  /** One group per calendar month that has a transaction, years merged,
      ascending by month number, each with the sum of that month's amounts. */
  function MonthlyTotals(ts: seq<Transaction>): (r: seq<MonthlyEntry>)
    ensures var rows := KeyByMonth(ts);
      forall i :: 0 <= i < |r| ==>
        1 <= r[i].month <= 12 && HasMonth(rows, r[i].month) && r[i].total == MonthSum(rows, r[i].month)
    ensures forall i, j :: 0 <= i < j < |r| ==> r[i].month < r[j].month
    ensures var rows := KeyByMonth(ts);
      forall m :: 1 <= m <= 12 && HasMonth(rows, m) ==> exists i :: 0 <= i < |r| && r[i].month == m
  {
    var rows := KeyByMonth(ts);
    MonthlyFromSound(rows, 1);
    MonthlyFromAscending(rows, 1);
    assert forall m :: 1 <= m <= 12 && HasMonth(rows, m) ==>
             exists i :: 0 <= i < |MonthlyFrom(rows, 1)| && MonthlyFrom(rows, 1)[i].month == m
    by {
      forall m | 1 <= m <= 12 && HasMonth(rows, m)
        ensures exists i :: 0 <= i < |MonthlyFrom(rows, 1)| && MonthlyFrom(rows, 1)[i].month == m
      {
        MonthlyFromComplete(rows, 1, m);
        assert MonthlyFrom(rows, 1)[GroupsBefore(rows, 1, m)].month == m;
      }
    }
    MonthlyFrom(rows, 1)
  }

  /** One step of MonthlyFrom: the group for `from`, if any, ahead of the rest. */
  lemma MonthlyFromStep(rows: seq<Keyed>, from: int)
    requires 1 <= from <= 12
    ensures MonthlyFrom(rows, from)
            == (if HasMonth(rows, from) then [MonthlyEntry(from, MonthSum(rows, from))] else [])
               + MonthlyFrom(rows, from + 1)
  {
  }

  /** Each group carries a month that has rows, with their sum. */
  lemma {:induction false} MonthlyFromSound(rows: seq<Keyed>, from: int)
    requires 1 <= from <= 13
    ensures forall i :: 0 <= i < |MonthlyFrom(rows, from)| ==>
              HasMonth(rows, MonthlyFrom(rows, from)[i].month)
              && MonthlyFrom(rows, from)[i].total == MonthSum(rows, MonthlyFrom(rows, from)[i].month)
    decreases 13 - from
  {
    if from < 13 {
      MonthlyFromSound(rows, from + 1);
      MonthlyFromStep(rows, from);
    }
  }

  /** The groups ascend strictly by month. */
  lemma {:induction false} MonthlyFromAscending(rows: seq<Keyed>, from: int)
    requires 1 <= from <= 13
    ensures forall i, j :: 0 <= i < j < |MonthlyFrom(rows, from)| ==>
              MonthlyFrom(rows, from)[i].month < MonthlyFrom(rows, from)[j].month
    decreases 13 - from
  {
    if from < 13 {
      MonthlyFromAscending(rows, from + 1);
      MonthlyFromStep(rows, from);
      var head := if HasMonth(rows, from) then [MonthlyEntry(from, MonthSum(rows, from))] else [];
      AscendingCons(head, MonthlyFrom(rows, from + 1), from);
    }
  }

  /** A group for month `from`, or none, ahead of ascending groups for later
      months still ascends. */
  lemma AscendingCons(head: seq<MonthlyEntry>, rest: seq<MonthlyEntry>, from: int)
    requires |head| <= 1 && forall i :: 0 <= i < |head| ==> head[i].month == from
    requires forall i :: 0 <= i < |rest| ==> from < rest[i].month
    requires forall i, j :: 0 <= i < j < |rest| ==> rest[i].month < rest[j].month
    ensures forall i, j :: 0 <= i < j < |head + rest| ==> (head + rest)[i].month < (head + rest)[j].month
  {
    var r := head + rest;
    forall i, j | 0 <= i < j < |r|
      ensures r[i].month < r[j].month
    {
      assert r[j] == rest[j - |head|];
      if i >= |head| {
        assert r[i] == rest[i - |head|];
      }
    }
  }

  /** Number of months from `from` up to, but not including, m that have
      rows: the position of month m's group. */
  function GroupsBefore(rows: seq<Keyed>, from: int, m: int): (n: nat)
    requires from <= m
    ensures n <= m - from
    decreases m - from
  {
    if from == m then 0 else (if HasMonth(rows, from) then 1 else 0) + GroupsBefore(rows, from + 1, m)
  }

  /** Every month from `from` on that has rows has a group, at the position
      given by the months before it that have one. */
  lemma {:induction false} MonthlyFromComplete(rows: seq<Keyed>, from: int, m: int)
    requires 1 <= from <= m <= 12 && HasMonth(rows, m)
    ensures GroupsBefore(rows, from, m) < |MonthlyFrom(rows, from)|
    ensures MonthlyFrom(rows, from)[GroupsBefore(rows, from, m)].month == m
    decreases 13 - from
  {
    MonthlyFromStep(rows, from);
    var rest := MonthlyFrom(rows, from + 1);
    if m == from {
      assert GroupsBefore(rows, from, m) == 0;
      assert MonthlyFrom(rows, from) == [MonthlyEntry(from, MonthSum(rows, from))] + rest;
    } else {
      MonthlyFromComplete(rows, from + 1, m);
      var k := GroupsBefore(rows, from + 1, m);
      if HasMonth(rows, from) {
        assert GroupsBefore(rows, from, m) == 1 + k;
        EntryAfter([MonthlyEntry(from, MonthSum(rows, from))], rest, k);
      } else {
        assert GroupsBefore(rows, from, m) == k;
        assert MonthlyFrom(rows, from) == rest;
      }
    }
  }

  /** Past a prefix, a concatenation reads the second part. */
  lemma EntryAfter(head: seq<MonthlyEntry>, rest: seq<MonthlyEntry>, k: nat)
    requires k < |rest|
    ensures |head| + k < |head + rest| && (head + rest)[|head| + k] == rest[k]
  {
  }

  function SumTotals(entries: seq<MonthlyEntry>): int {
    if entries == [] then 0 else entries[0].total + SumTotals(entries[1..])
  }

  /** Sum of the amounts of the rows of month `from` or later in the year. */
  function RevenueFrom(rows: seq<Keyed>, from: int): int {
    if rows == [] then 0
    else (if rows[0].month >= from then rows[0].amount else 0) + RevenueFrom(rows[1..], from)
  }

  lemma {:induction false} RevenueFromSplit(rows: seq<Keyed>, m: int)
    ensures RevenueFrom(rows, m) == MonthSum(rows, m) + RevenueFrom(rows, m + 1)
  {
    if rows != [] {
      RevenueFromSplit(rows[1..], m);
    }
  }

  lemma {:induction false} RevenueFromJanuary(ts: seq<Transaction>)
    ensures RevenueFrom(KeyByMonth(ts), 1) == Revenue(ts)
  {
    if ts != [] {
      RevenueFromJanuary(ts[1..]);
      assert KeyByMonth(ts)[1..] == KeyByMonth(ts[1..]);
    }
  }

  lemma {:induction false} RevenueFromPastDecember(rows: seq<Keyed>)
    requires MonthKeys(rows)
    ensures RevenueFrom(rows, 13) == 0
  {
    if rows != [] {
      RevenueFromPastDecember(rows[1..]);
    }
  }

  /** A month without rows sums to 0, so leaving its group out loses nothing. */
  lemma {:induction false} AbsentMonthSumsToZero(rows: seq<Keyed>, m: int)
    requires !HasMonth(rows, m)
    ensures MonthSum(rows, m) == 0
  {
    if rows != [] {
      assert rows[0].month != m;
      forall i | 0 <= i < |rows[1..]|
        ensures rows[1..][i].month != m
      {
        assert rows[1..][i] == rows[i + 1];
      }
      AbsentMonthSumsToZero(rows[1..], m);
    }
  }

  lemma {:induction false} MonthlyFromSum(rows: seq<Keyed>, from: int)
    requires 1 <= from <= 13 && MonthKeys(rows)
    ensures SumTotals(MonthlyFrom(rows, from)) == RevenueFrom(rows, from)
    decreases 13 - from
  {
    if from == 13 {
      RevenueFromPastDecember(rows);
    } else {
      MonthlyFromSum(rows, from + 1);
      RevenueFromSplit(rows, from);
      var rest := MonthlyFrom(rows, from + 1);
      if HasMonth(rows, from) {
        var r := [MonthlyEntry(from, MonthSum(rows, from))] + rest;
        assert r[1..] == rest;
        assert MonthlyFrom(rows, from) == r;
      } else {
        AbsentMonthSumsToZero(rows, from);
        assert MonthlyFrom(rows, from) == rest;
      }
    }
  }

  /** The monthly groups add up to the total revenue. */
  lemma MonthlyTotalsSumToRevenue(ts: seq<Transaction>)
    ensures SumTotals(MonthlyTotals(ts)) == Revenue(ts)
  {
    MonthlyFromSum(KeyByMonth(ts), 1);
    RevenueFromJanuary(ts);
  }

  // ---------------------------------------------------------------------------
  // Dashboard and reports
  // ---------------------------------------------------------------------------

  /** Number of most recent transactions the dashboard lists. */
  const RecentCount: int := 5

  datatype Dashboard = Dashboard(
    totalOrders: nat,
    totalRevenue: int,
    pendingOrders: nat,
    activeMembers: nat,
    monthlyData: seq<MonthlyEntry>,
    recentOrders: seq<Transaction>)

  /** GET /dashboard. */
  function DashboardSummary(users: seq<User>, ts: seq<Transaction>, now: int): (d: Dashboard)
    ensures d.totalOrders == |ts|
    ensures d.totalRevenue == Revenue(ts)
    ensures d.pendingOrders == CountStatus(ts, Requested)
    ensures d.activeMembers == CountActive(users, now)
    ensures d.monthlyData == MonthlyTotals(ts)
    ensures d.recentOrders == NewestFirst(ts)[..if |ts| < RecentCount then |ts| else RecentCount]
    ensures d.pendingOrders <= d.totalOrders
    ensures d.activeMembers <= |users|
    ensures SumTotals(d.monthlyData) == d.totalRevenue
    ensures |d.recentOrders| == if |ts| < RecentCount then |ts| else RecentCount
    ensures NewestFirstOrder(d.recentOrders)
    ensures forall t :: t in d.recentOrders ==> t in ts
  {
    MonthlyTotalsSumToRevenue(ts);
    var sorted := NewestFirst(ts);
    var recent := sorted[..if |ts| < RecentCount then |ts| else RecentCount];
    NewestPrefix(ts, |recent|);
    Dashboard(|ts|, Revenue(ts), CountStatus(ts, Requested), CountActive(users, now),
              MonthlyTotals(ts), recent)
  }

  /** An empty transaction collection gives an all-zero dashboard. */
  lemma EmptyDashboard(users: seq<User>, now: int)
    ensures var d := DashboardSummary(users, [], now);
      d.totalOrders == 0 && d.totalRevenue == 0 && d.pendingOrders == 0
      && d.monthlyData == [] && d.recentOrders == []
  {
  }

  datatype Report = Report(totalUsers: nat, activeMembers: nat)

  /** GET /reports. */
  function ReportTotals(users: seq<User>, now: int): (r: Report)
    ensures r.totalUsers == |users|
    ensures r.activeMembers == CountActive(users, now)
    ensures r.activeMembers <= r.totalUsers
  {
    Report(|users|, CountActive(users, now))
  }

  // ---------------------------------------------------------------------------
  // How the handlers' writes move the aggregates
  // ---------------------------------------------------------------------------

  lemma {:induction false} RevenueAppend(ts: seq<Transaction>, t: Transaction)
    ensures Revenue(ts + [t]) == Revenue(ts) + t.amount
  {
    if ts != [] {
      assert (ts + [t])[1..] == ts[1..] + [t];
      RevenueAppend(ts[1..], t);
    }
  }

  lemma {:induction false} CountStatusAppend(ts: seq<Transaction>, t: Transaction, status: string)
    ensures CountStatus(ts + [t], status) == CountStatus(ts, status) + (if t.status == status then 1 else 0)
  {
    if ts != [] {
      assert (ts + [t])[1..] == ts[1..] + [t];
      CountStatusAppend(ts[1..], t, status);
    }
  }

  /** Adding a user adds one to the active count exactly when that user's
      expiry lies after now. */
  lemma {:induction false} CountActiveAppend(users: seq<User>, u: User, now: int)
    ensures CountActive(users + [u], now) == CountActive(users, now) + (if ActiveAt(u, now) then 1 else 0)
  {
    if users != [] {
      assert (users + [u])[1..] == users[1..] + [u];
      CountActiveAppend(users[1..], u, now);
    }
  }

  /** A recorded payment raises the order count by one, the revenue by its
      amount, and the pending count by one. */
  lemma PaymentUpdatesDashboard(users: seq<User>, ts: seq<Transaction>, id: nat, email: string,
                                amount: int, now: int)
    ensures var before := DashboardSummary(users, ts, now);
            var after := DashboardSummary(users, ts + [NewPayment(id, email, amount, now)], now);
      && after.totalOrders == before.totalOrders + 1
      && after.totalRevenue == before.totalRevenue + amount
      && after.pendingOrders == before.pendingOrders + 1
      && after.activeMembers == before.activeMembers
  {
    RevenueAppend(ts, NewPayment(id, email, amount, now));
    CountStatusAppend(ts, NewPayment(id, email, amount, now), Requested);
  }

  lemma {:induction false} RevenueIgnoresStatus(ts: seq<Transaction>, i: nat, status: string)
    requires i < |ts|
    ensures Revenue(ts[i := ts[i].(status := status)]) == Revenue(ts)
  {
    if i > 0 {
      assert ts[i := ts[i].(status := status)][1..] == ts[1..][i - 1 := ts[i].(status := status)];
      RevenueIgnoresStatus(ts[1..], i - 1, status);
    }
  }

  lemma {:induction false} CountStatusUpdate(ts: seq<Transaction>, i: nat, s: string, status: string)
    requires i < |ts|
    ensures CountStatus(ts[i := ts[i].(status := s)], status)
         == CountStatus(ts, status) - (if ts[i].status == status then 1 else 0) + (if s == status then 1 else 0)
  {
    if i > 0 {
      assert ts[i := ts[i].(status := s)][1..] == ts[1..][i - 1 := ts[i].(status := s)];
      CountStatusUpdate(ts[1..], i - 1, s, status);
    }
  }

  lemma {:induction false} CountActiveUpdate(users: seq<User>, i: nat, u: User, now: int)
    requires i < |users|
    ensures CountActive(users[i := u], now)
         == CountActive(users, now) - (if ActiveAt(users[i], now) then 1 else 0) + (if ActiveAt(u, now) then 1 else 0)
  {
    if i > 0 {
      assert users[i := u][1..] == users[1..][i - 1 := u];
      CountActiveUpdate(users[1..], i - 1, u, now);
    }
  }

  /** Cancelling a membership takes that user out of the active count at once. */
  lemma CancelLeavesActiveCount(users: seq<User>, i: nat, now: int)
    requires i < |users|
    ensures CountActive(users[i := Cancel(users[i], now)], now)
         == CountActive(users, now) - (if ActiveAt(users[i], now) then 1 else 0)
  {
    CountActiveUpdate(users, i, Cancel(users[i], now), now);
  }

  /** A grant of at least one month puts that user in the active count. */
  lemma GrantJoinsActiveCount(users: seq<User>, i: nat, months: int, now: int)
    requires i < |users| && months >= 1
    ensures CountActive(users[i := Grant(users[i], months, now)], now)
         == CountActive(users, now) + (if ActiveAt(users[i], now) then 0 else 1)
  {
    CountActiveUpdate(users, i, Grant(users[i], months, now), now);
  }
}
