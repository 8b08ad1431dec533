/** The transaction listing (GET /transactions): the query a caller's role and
    form fields produce, the newest-first order, and the five-row pages. */
module Listing {
  import opened Clock
  import opened Records

  // ---------------------------------------------------------------------------
  // Case-insensitive substring match, the admin's email search
  // ---------------------------------------------------------------------------

  function LowerChar(c: char): (r: char)
    ensures 'A' <= c <= 'Z' ==> 'a' <= r <= 'z'
    ensures !('A' <= c <= 'Z') ==> r == c
  {
    if 'A' <= c <= 'Z' then (c as int - 'A' as int + 'a' as int) as char else c
  }

  function Lower(s: string): (r: string)
    ensures |r| == |s|
    ensures forall i :: 0 <= i < |s| ==> r[i] == LowerChar(s[i])
  {
    if s == [] then [] else [LowerChar(s[0])] + Lower(s[1..])
  }

  /** `needle` occurs in `hay` at some position. */
  function Contains(hay: string, needle: string): (b: bool)
    ensures needle == [] ==> b
    ensures b ==> |needle| <= |hay|
    decreases |hay|
  {
    (|needle| <= |hay| && hay[..|needle|] == needle) ||
    (|hay| > 0 && Contains(hay[1..], needle))
  }

  /** `needle` sits in `hay` starting at position i. */
  predicate OccursAt(hay: string, needle: string, i: int) {
    0 <= i && i + |needle| <= |hay| && hay[i..i + |needle|] == needle
  }

  /** `needle` occurs in `hay` at some position. */
  ghost predicate Occurs(hay: string, needle: string) {
    exists i :: OccursAt(hay, needle, i)
  }

  /** An occurrence in the tail is an occurrence one place further on in the whole. */
  lemma OccursInTail(hay: string, needle: string, i: nat)
    requires |hay| > 0
    ensures OccursAt(hay[1..], needle, i) <==> OccursAt(hay, needle, i + 1)
  {
    if i + |needle| <= |hay| - 1 {
      assert hay[1..][i..i + |needle|] == hay[i + 1..i + 1 + |needle|];
    }
  }

  /** Contains holds exactly when the needle occurs at some position. */
  lemma {:induction false} ContainsOccurs(hay: string, needle: string)
    ensures Contains(hay, needle) <==> Occurs(hay, needle)
    decreases |hay|
  {
    if |hay| > 0 {
      ContainsOccurs(hay[1..], needle);
      if |needle| <= |hay| && hay[..|needle|] == needle {
        assert OccursAt(hay, needle, 0);
      } else {
        if Contains(hay[1..], needle) {
          var i :| OccursAt(hay[1..], needle, i);
          OccursInTail(hay, needle, i);
        }
        if Occurs(hay, needle) {
          var i :| OccursAt(hay, needle, i);
          assert i != 0;
          OccursInTail(hay, needle, i - 1);
        }
      }
    } else if needle == [] {
      assert OccursAt(hay, needle, 0);
    }
  }

  /** Every string contains itself, so an admin searching for a full email finds it. */
  lemma ContainsSelf(s: string)
    ensures Contains(s, s)
  {
  }

  /** The admin's search, `{ $regex: search, $options: "i" }` on a literal
      text: the needle occurs in the email once both are in lower case. */
  function ContainsIgnoreCase(hay: string, needle: string): (b: bool)
    ensures b <==> Occurs(Lower(hay), Lower(needle))
    ensures needle == [] ==> b
  {
    ContainsOccurs(Lower(hay), Lower(needle));
    Contains(Lower(hay), Lower(needle))
  }

  // ---------------------------------------------------------------------------
  // The query
  // ---------------------------------------------------------------------------

  datatype EmailFilter =
    | AnyEmail                   // an admin with an empty search
    | EmailContains(text: string) // an admin's search, case-insensitive
    | ExactEmail(email: string)   // a non-admin: their own email only

  /** An inclusive window of creation times. */
  datatype Window = Window(from: int, to: int)

  datatype Query = Query(email: EmailFilter, window: Option<Window>)

  /** The query GET /transactions builds. An admin's non-empty `search` filters
      by email; any other role is held to the session's own email whatever
      `search` holds. The date window applies only when both dates are given
      and runs to the end of the end date's day. */
  function BuildQuery(viewerEmail: string, viewerRole: string, search: string,
                      startDate: Option<int>, endDate: Option<int>): (q: Query)
    ensures viewerRole != AdminRole ==> q.email == ExactEmail(viewerEmail)
    ensures viewerRole == AdminRole && search == "" ==> q.email == AnyEmail
    ensures viewerRole == AdminRole && search != "" ==> q.email == EmailContains(search)
    ensures q.window.Some? <==> startDate.Some? && endDate.Some?
    ensures q.window.Some? ==> q.window.value.from == startDate.value
    ensures q.window.Some? ==> q.window.value.to == EndOfDay(endDate.value)
  {
    var email :=
      if viewerRole == AdminRole then (if search != "" then EmailContains(search) else AnyEmail)
      else ExactEmail(viewerEmail);
    var window :=
      if startDate.Some? && endDate.Some? then Some(Window(startDate.value, EndOfDay(endDate.value)))
      else None;
    Query(email, window)
  }

  /** The email part of the query: no filter, the case-insensitive search, or
      the viewer's own email exactly. */
  predicate EmailMatches(f: EmailFilter, email: string): (b: bool)
    ensures f.AnyEmail? ==> b
    ensures f.EmailContains? ==> (b <==> Occurs(Lower(email), Lower(f.text)))
    ensures f.ExactEmail? ==> (b <==> email == f.email)
  {
    match f
    case AnyEmail => true
    case EmailContains(text) => ContainsIgnoreCase(email, text)
    case ExactEmail(e) => email == e
  }

  /** A transaction passes the query: both its email filter and, when there
      is one, its date window. */
  predicate Matches(t: Transaction, q: Query): (b: bool)
    ensures q == Query(AnyEmail, None) ==> b
    ensures b ==> EmailMatches(q.email, t.userEmail)
    ensures b && q.window.Some? ==> q.window.value.from <= t.createdAt <= q.window.value.to
    ensures q.window.None? ==> (b <==> EmailMatches(q.email, t.userEmail))
  {
    EmailMatches(q.email, t.userEmail) &&
    (q.window.Some? ==> q.window.value.from <= t.createdAt <= q.window.value.to)
  }

  /** `Transaction.find(query)` before sorting: the matching transactions in
      insertion order. */
  function Filter(ts: seq<Transaction>, q: Query): (r: seq<Transaction>)
    ensures |r| <= |ts|
    ensures forall t :: t in r ==> t in ts && Matches(t, q)
    ensures forall t :: t in ts && Matches(t, q) ==> t in r
  {
    if ts == [] then []
    else if Matches(ts[0], q) then [ts[0]] + Filter(ts[1..], q)
    else Filter(ts[1..], q)
  }

  /** Filter keeps every matching transaction as often as it occurs and drops
      every other one. */
  lemma {:induction false} FilterCounts(ts: seq<Transaction>, q: Query)
    ensures forall t :: multiset(Filter(ts, q))[t] == if Matches(t, q) then multiset(ts)[t] else 0
  {
    if ts != [] {
      FilterCounts(ts[1..], q);
      assert ts == [ts[0]] + ts[1..];
    }
  }

  // ---------------------------------------------------------------------------
  // Newest first: `.sort({ createdAt: -1 })`
  // ---------------------------------------------------------------------------

  predicate NewestFirstOrder(s: seq<Transaction>) {
    forall i, j :: 0 <= i < j < |s| ==> s[i].createdAt >= s[j].createdAt
  }

  /** Insert t into a newest-first sequence, ahead of every entry created no
      later than it. */
  function Insert(t: Transaction, s: seq<Transaction>): (r: seq<Transaction>)
    ensures |r| == |s| + 1
    ensures multiset(r) == multiset(s) + multiset{t}
    ensures r[0] == t || (|s| > 0 && r[0] == s[0])
  {
    if s == [] || t.createdAt >= s[0].createdAt then
      [t] + s
    else
      assert s == [s[0]] + s[1..];
      [s[0]] + Insert(t, s[1..])
  }

  /** Insertion keeps the newest-first order. */
  lemma {:induction false} InsertOrdered(t: Transaction, s: seq<Transaction>)
    requires NewestFirstOrder(s)
    ensures NewestFirstOrder(Insert(t, s))
  {
    if s == [] || t.createdAt >= s[0].createdAt {
    } else {
      var rest := Insert(t, s[1..]);
      InsertOrdered(t, s[1..]);
      assert rest[0].createdAt <= s[0].createdAt;
      assert Insert(t, s) == [s[0]] + rest;
    }
  }

  /** The transactions sorted by creation time, newest first; transactions
      created at the same moment keep their insertion order. */
  function NewestFirst(ts: seq<Transaction>): (r: seq<Transaction>)
    ensures NewestFirstOrder(r)
    ensures multiset(r) == multiset(ts)
    ensures |r| == |ts|
  {
    if ts == [] then []
    else
      assert ts == [ts[0]] + ts[1..];
      var rest := NewestFirst(ts[1..]);
      InsertOrdered(ts[0], rest);
      Insert(ts[0], rest)
  }

  /** The first n transactions newest first are newest first, and each is a
      stored transaction. */
  lemma NewestPrefix(ts: seq<Transaction>, n: nat)
    requires n <= |ts|
    ensures NewestFirstOrder(NewestFirst(ts)[..n])
    ensures forall t :: t in NewestFirst(ts)[..n] ==> t in ts
  {
    var sorted := NewestFirst(ts);
    var prefix := sorted[..n];
    forall i, j | 0 <= i < j < |prefix|
      ensures prefix[i].createdAt >= prefix[j].createdAt
    {
      assert prefix[i] == sorted[i] && prefix[j] == sorted[j];
    }
    forall t | t in prefix ensures t in ts {
      assert t in multiset(sorted);
    }
  }

  // ---------------------------------------------------------------------------
  // Pages
  // ---------------------------------------------------------------------------

  const PageSize: int := 5

  /** `parseInt(req.query.page) || 1`: an absent or unparsable page (None) and
      page 0 both become page 1; any other number is kept as it is. */
  function PageNumber(page: Option<int>): (p: int)
    ensures p != 0
    ensures page.None? ==> p == 1
    ensures page.Some? && page.value == 0 ==> p == 1
    ensures page.Some? && page.value != 0 ==> p == page.value
  {
    if page.None? || page.value == 0 then 1 else page.value
  }

  /** `Math.ceil(total / 5)`. */
  function PageCount(total: nat): (n: nat)
    ensures n * PageSize >= total
    ensures total > 0 ==> (n - 1) * PageSize < total
    ensures total == 0 ==> n == 0
  {
    (total + PageSize - 1) / PageSize
  }

  /** `.skip(skip).limit(5)` on a sorted result. */
  function Slice(s: seq<Transaction>, skip: nat): (r: seq<Transaction>)
    ensures |r| <= PageSize
    ensures skip >= |s| ==> r == []
    ensures skip < |s| ==> |r| == if |s| - skip < PageSize then |s| - skip else PageSize
    ensures forall i :: 0 <= i < |r| ==> skip + i < |s| && r[i] == s[skip + i]
    ensures NewestFirstOrder(s) ==> NewestFirstOrder(r)
  {
    if skip >= |s| then []
    else if skip + PageSize <= |s| then s[skip..skip + PageSize]
    else s[skip..]
  }

  /** `(page - 1) * 5`: the rows that come before page p. */
  function Skip(p: int): (n: int)
    ensures n < 0 <==> p < 1
    ensures p >= 1 ==> n % PageSize == 0
  {
    (p - 1) * PageSize
  }

  /** What the listing page renders. */
  datatype Page = Page(rows: seq<Transaction>, currentPage: int, totalPages: nat, total: nat)

  /** GET /transactions for the session `viewer`: the rows of the requested
      page of the matching transactions, newest first, and the page count.
      A page number below 1 gives a negative skip, which the store refuses. */
  function ListTransactions(ts: seq<Transaction>, viewer: Session, search: string,
                            startDate: Option<int>, endDate: Option<int>,
                            page: Option<int>): (r: Result<Page>)
    ensures viewer.Anonymous? ==> r == Err(NotLoggedIn)
    ensures viewer.SignedIn? && PageNumber(page) < 1 ==> r == Err(NegativeSkip)
    ensures viewer.SignedIn? && PageNumber(page) >= 1 ==> r.Ok?
    ensures r.Ok? ==>
      var matching := Filter(ts, BuildQuery(viewer.email, viewer.role, search, startDate, endDate));
      && PageNumber(page) >= 1
      && r.value.total == |matching|
      && r.value.totalPages == PageCount(|matching|)
      && r.value.currentPage == PageNumber(page)
      && r.value.rows == Slice(NewestFirst(matching), Skip(PageNumber(page)))
  {
    if viewer.Anonymous? then Err(NotLoggedIn)
    else
      var p := PageNumber(page);
      var skip := Skip(p);
      if skip < 0 then Err(NegativeSkip)
      else
        var matching := Filter(ts, BuildQuery(viewer.email, viewer.role, search, startDate, endDate));
        var rows := Slice(NewestFirst(matching), skip);
        Ok(Page(rows, p, PageCount(|matching|), |matching|))
  }

  /** Every row shown is a stored transaction that matches the query, at most
      five are shown, and they are newest first. */
  lemma RowsMatchQuery(ts: seq<Transaction>, viewer: Session, search: string,
                       startDate: Option<int>, endDate: Option<int>, page: Option<int>)
    requires ListTransactions(ts, viewer, search, startDate, endDate, page).Ok?
    ensures var rows := ListTransactions(ts, viewer, search, startDate, endDate, page).value.rows;
      && |rows| <= PageSize
      && NewestFirstOrder(rows)
      && forall i :: 0 <= i < |rows| ==>
           rows[i] in ts && Matches(rows[i], BuildQuery(viewer.email, viewer.role, search, startDate, endDate))
  {
    var q := BuildQuery(viewer.email, viewer.role, search, startDate, endDate);
    var matching := Filter(ts, q);
    var sorted := NewestFirst(matching);
    var rows := ListTransactions(ts, viewer, search, startDate, endDate, page).value.rows;
    var skip := Skip(PageNumber(page));
    assert rows == Slice(sorted, skip);
    SliceMembers(matching, skip);
    forall i | 0 <= i < |rows|
      ensures rows[i] in ts && Matches(rows[i], q)
    {
      assert rows[i] in matching;
    }
  }

  /** Every row of a slice of the sorted transactions is one of them. */
  lemma SliceMembers(s: seq<Transaction>, skip: nat)
    ensures forall i :: 0 <= i < |Slice(NewestFirst(s), skip)| ==> Slice(NewestFirst(s), skip)[i] in s
  {
    var sorted := NewestFirst(s);
    forall i | 0 <= i < |Slice(sorted, skip)|
      ensures Slice(sorted, skip)[i] in s
    {
      assert Slice(sorted, skip)[i] == sorted[skip + i];
      assert sorted[skip + i] in multiset(sorted);
    }
  }

  /** A caller who is not an admin sees only transactions carrying their own
      email, exactly, whatever the search field says. */
  lemma NonAdminSeesOnlyOwn(ts: seq<Transaction>, viewer: Session, search: string,
                            startDate: Option<int>, endDate: Option<int>, page: Option<int>)
    requires viewer.SignedIn? && viewer.role != AdminRole
    requires ListTransactions(ts, viewer, search, startDate, endDate, page).Ok?
    ensures forall t :: t in ListTransactions(ts, viewer, search, startDate, endDate, page).value.rows ==>
              t.userEmail == viewer.email
  {
    RowsMatchQuery(ts, viewer, search, startDate, endDate, page);
  }

  /** For a caller who is not an admin the search field changes nothing. */
  lemma NonAdminIgnoresSearch(ts: seq<Transaction>, viewer: Session, search1: string, search2: string,
                              startDate: Option<int>, endDate: Option<int>, page: Option<int>)
    requires viewer.SignedIn? && viewer.role != AdminRole
    ensures ListTransactions(ts, viewer, search1, startDate, endDate, page)
         == ListTransactions(ts, viewer, search2, startDate, endDate, page)
  {
    assert BuildQuery(viewer.email, viewer.role, search1, startDate, endDate)
        == BuildQuery(viewer.email, viewer.role, search2, startDate, endDate);
  }

  /** With both dates given, a transaction passes the date filter exactly when
      it was created no earlier than the start and no later than the last
      millisecond of the end date's day; with either date missing, every
      transaction passes it. */
  lemma DateWindowInclusive(t: Transaction, viewer: Session, search: string,
                            startDate: Option<int>, endDate: Option<int>)
    requires viewer.SignedIn?
    ensures var q := BuildQuery(viewer.email, viewer.role, search, startDate, endDate);
      && (startDate.Some? && endDate.Some? ==>
            (Matches(t, q) <==> EmailMatches(q.email, t.userEmail)
                                && startDate.value <= t.createdAt <= EndOfDay(endDate.value)))
      && (startDate.None? || endDate.None? ==> (Matches(t, q) <==> EmailMatches(q.email, t.userEmail)))
  {
  }

  /** The j-th matching transaction, newest first, is row j % 5 of page
      j / 5 + 1: paging loses no transaction and shows none twice. */
  lemma {:induction false} PageCovers(ts: seq<Transaction>, viewer: Session, search: string,
                                      startDate: Option<int>, endDate: Option<int>, j: nat)
    requires viewer.SignedIn?
    requires j < |Filter(ts, BuildQuery(viewer.email, viewer.role, search, startDate, endDate))|
    ensures var r := ListTransactions(ts, viewer, search, startDate, endDate, Some(j / PageSize + 1));
      && r.Ok?
      && j / PageSize + 1 <= r.value.totalPages
      && j % PageSize < |r.value.rows|
      && r.value.rows[j % PageSize]
         == NewestFirst(Filter(ts, BuildQuery(viewer.email, viewer.role, search, startDate, endDate)))[j]
  {
    var matching := Filter(ts, BuildQuery(viewer.email, viewer.role, search, startDate, endDate));
    ListPage(ts, viewer, search, startDate, endDate, j / PageSize + 1);
    PageRow(NewestFirst(matching), j);
  }

  /** Row j of a sorted result is row j % 5 of the slice for page j / 5 + 1,
      and that page is within the page count. */
  lemma PageRow(sorted: seq<Transaction>, j: nat)
    requires j < |sorted|
    ensures j / PageSize + 1 <= PageCount(|sorted|)
    ensures j % PageSize < |Slice(sorted, Skip(j / PageSize + 1))|
    ensures Slice(sorted, Skip(j / PageSize + 1))[j % PageSize] == sorted[j]
  {
    PageOfIndex(j, |sorted|);
    assert Skip(j / PageSize + 1) == j / PageSize * PageSize;
    SliceAt(sorted, j);
  }

  /** A signed-in caller asking for page p, 1 or more, gets the slice of the
      sorted matches that starts at row (p - 1) * 5. */
  lemma {:induction false} ListPage(ts: seq<Transaction>, viewer: Session, search: string,
                                     startDate: Option<int>, endDate: Option<int>, p: int)
    requires viewer.SignedIn? && p >= 1
    ensures var matching := Filter(ts, BuildQuery(viewer.email, viewer.role, search, startDate, endDate));
      ListTransactions(ts, viewer, search, startDate, endDate, Some(p))
      == Ok(Page(Slice(NewestFirst(matching), Skip(p)), p, PageCount(|matching|), |matching|))
  {
    var matching := Filter(ts, BuildQuery(viewer.email, viewer.role, search, startDate, endDate));
    var r := ListTransactions(ts, viewer, search, startDate, endDate, Some(p));
    assert PageNumber(Some(p)) == p;
    assert r.Ok?;
    assert r.value.rows == Slice(NewestFirst(matching), Skip(p));
    assert r.value.totalPages == PageCount(|matching|) && r.value.total == |matching|;
    assert r == Ok(Page(r.value.rows, r.value.currentPage, r.value.totalPages, r.value.total));
  }

  /** Index j of a result with `total` rows lies on page j / 5 + 1, at offset
      j % 5, and that page is within the page count. */
  lemma PageOfIndex(j: nat, total: nat)
    requires j < total
    ensures j == j / PageSize * PageSize + j % PageSize
    ensures 0 <= j % PageSize < PageSize
    ensures j / PageSize + 1 <= PageCount(total)
  {
  }

  /** Element j of s is element j % 5 of the slice that starts at the page
      boundary below j. */
  lemma SliceAt(s: seq<Transaction>, j: nat)
    requires j < |s|
    ensures j % PageSize < |Slice(s, j / PageSize * PageSize)|
    ensures Slice(s, j / PageSize * PageSize)[j % PageSize] == s[j]
  {
    PageOfIndex(j, |s|);
  }

  /** A page past the last one is empty. */
  lemma PastLastPageEmpty(ts: seq<Transaction>, viewer: Session, search: string,
                          startDate: Option<int>, endDate: Option<int>, p: int)
    requires viewer.SignedIn?
    requires p > PageCount(|Filter(ts, BuildQuery(viewer.email, viewer.role, search, startDate, endDate))|)
    ensures ListTransactions(ts, viewer, search, startDate, endDate, Some(p)).Ok?
    ensures ListTransactions(ts, viewer, search, startDate, endDate, Some(p)).value.rows == []
  {
    var total := |Filter(ts, BuildQuery(viewer.email, viewer.role, search, startDate, endDate))|;
    assert Skip(p) >= PageCount(total) * PageSize >= total;
  }
}
