/** The server's request handlers over the two collections. Every request first
    passes the membership expiry check for the session's user, then the
    route's gate, then its handler. */
module Server {
  import opened Clock
  import opened Records
  import opened Gate
  import opened Membership
  import opened Listing
  import opened Reporting

  // ---------------------------------------------------------------------------
  // What each handler decides before it writes
  // ---------------------------------------------------------------------------

  /** POST /addMembership up to the write: the gate, the form checks in the
      order the handler makes them, and the lookup. Ok carries the index of the
      user to update. */
  function MembershipTarget(users: seq<User>, session: Session, email: string,
                            duration: Option<int>, agree: bool): (r: Result<nat>)
    ensures r.Ok? <==> IsAdmin(session) && email != "" && duration.Some? && agree
                       && FindByEmail(users, email).Some?
    ensures r.Ok? ==> r.value < |users| && users[r.value].email == email
    ensures r.Ok? && EmailsUnique(users) ==> forall k :: 0 <= k < |users| && k != r.value ==> users[k].email != email
    ensures !IsLoggedIn(session) ==> r == Err(NotLoggedIn)
    ensures IsLoggedIn(session) && !IsAdmin(session) ==> r == Err(AccessDenied)
    ensures IsAdmin(session) && (email == "" || duration.None?) ==> r == Err(MissingFields)
    ensures IsAdmin(session) && email != "" && duration.Some? && !agree ==> r == Err(NotConfirmed)
    ensures IsAdmin(session) && email != "" && duration.Some? && agree && FindByEmail(users, email).None?
            ==> r == Err(UserNotFound)
  {
    var gate := Admit(session, AdminOnly);
    if gate.Fail? then Err(gate.error)
    else if email == "" || duration.None? then Err(MissingFields)
    else if !agree then Err(NotConfirmed)
    else match FindByEmail(users, email)
      case None => Err(UserNotFound)
      case Some(i) => Ok(i)
  }

  /** POST /updateMembership up to the write: the gate and the lookup. */
  function UpdateTarget(users: seq<User>, session: Session, email: string): (r: Result<nat>)
    ensures r.Ok? <==> IsAdmin(session) && FindByEmail(users, email).Some?
    ensures r.Ok? ==> r.value < |users| && users[r.value].email == email
    ensures !IsLoggedIn(session) ==> r == Err(NotLoggedIn)
    ensures IsLoggedIn(session) && !IsAdmin(session) ==> r == Err(AccessDenied)
    ensures IsAdmin(session) && FindByEmail(users, email).None? ==> r == Err(UserNotFound)
  {
    var gate := Admit(session, AdminOnly);
    if gate.Fail? then Err(gate.error)
    else match FindByEmail(users, email)
      case None => Err(UserNotFound)
      case Some(i) => Ok(i)
  }

  /** POST /makePayment up to the write: the gate, then a missing amount or one
      that is not positive is refused. */
  function PaymentCheck(session: Session, amount: Option<int>): (r: Outcome)
    ensures r.Pass? <==> IsUser(session) && amount.Some? && amount.value > 0
    ensures !IsLoggedIn(session) ==> r == Fail(NotLoggedIn)
    ensures IsLoggedIn(session) && !IsUser(session) ==> r == Fail(AccessDenied)
    ensures IsUser(session) && (amount.None? || amount.value <= 0) ==> r == Fail(InvalidAmount)
  {
    var gate := Admit(session, UserOnly);
    if gate.Fail? then gate
    else if amount.None? || amount.value <= 0 then Fail(InvalidAmount)
    else Pass
  }

  /** POST /addUser up to the write: the gate, then an email already in use is refused. */
  function NewUserCheck(users: seq<User>, session: Session, email: string): (r: Outcome)
    ensures r.Pass? <==> IsAdmin(session) && forall k :: 0 <= k < |users| ==> users[k].email != email
    ensures !IsLoggedIn(session) ==> r == Fail(NotLoggedIn)
    ensures IsLoggedIn(session) && !IsAdmin(session) ==> r == Fail(AccessDenied)
    ensures IsAdmin(session) && (exists k :: 0 <= k < |users| && users[k].email == email) ==> r == Fail(UserExists)
  {
    var gate := Admit(session, AdminOnly);
    if gate.Fail? then gate
    else if FindByEmail(users, email).Some? then Fail(UserExists)
    else Pass
  }

  /** The users after the expiry check for the session's user: only that user
      can change, and only as Lapse says. */
  function ExpireSessionUser(users: seq<User>, session: Session, now: int): (r: seq<User>)
    ensures |r| == |users|
    ensures forall k :: 0 <= k < |users| ==>
              r[k] == users[k] || (session.SignedIn? && users[k].id == session.userId && r[k] == Lapse(users[k], now))
    ensures forall k :: 0 <= k < |users| ==> r[k].id == users[k].id && r[k].email == users[k].email
    ensures session.SignedIn? && UserIdsDistinct(users) ==>
              forall k :: 0 <= k < |users| && users[k].id == session.userId ==> ConsistentAt(r[k], now)
  {
    if session.Anonymous? then users
    else match FindUserById(users, session.userId)
      case None => users
      case Some(i) => users[i := Lapse(users[i], now)]
  }

  /** Running the expiry check twice leaves the users as running it once. */
  lemma ExpireIdempotent(users: seq<User>, session: Session, now: int)
    ensures ExpireSessionUser(ExpireSessionUser(users, session, now), session, now)
         == ExpireSessionUser(users, session, now)
  {
    var once := ExpireSessionUser(users, session, now);
    if session.SignedIn? {
      match FindUserById(users, session.userId)
      case None =>
        assert FindUserById(once, session.userId).None?;
      case Some(i) =>
        assert FindUserById(once, session.userId) == Some(i);
        LapseIdempotent(users[i], now);
    }
  }

  /** A payment just recorded shows up in its payer's own transaction list
      when no date range is given. */
  lemma PaymentListedForPayer(ts: seq<Transaction>, id: nat, viewer: Session, amount: int, now: int,
                              search: string)
    requires viewer.SignedIn? && viewer.role != AdminRole
    ensures var payment := NewPayment(id, viewer.email, amount, now);
      payment in Filter(ts + [payment], BuildQuery(viewer.email, viewer.role, search, None, None))
  {
    var payment := NewPayment(id, viewer.email, amount, now);
    assert payment in ts + [payment];
  }

  // ---------------------------------------------------------------------------
  // The store
  // ---------------------------------------------------------------------------

  /** The users and transactions collections, updated in place by the handlers. */
  class Store {
    var users: seq<User>
    var transactions: seq<Transaction>
    /** The id the next inserted document receives. */
    var nextId: nat

    ghost predicate Valid()
      reads this
    {
      && EmailsUnique(users)
      && UserIdsDistinct(users)
      && TransactionIdsDistinct(transactions)
      && (forall i :: 0 <= i < |users| ==> users[i].id < nextId)
      && (forall i :: 0 <= i < |transactions| ==> transactions[i].id < nextId)
      && (forall i :: 0 <= i < |transactions| ==> transactions[i].amount > 0)
    }

    /** A store holding the seeded users (the first admin among them) and no transactions. */
    constructor (seed: seq<User>)
      requires EmailsUnique(seed) && UserIdsDistinct(seed)
      ensures Valid()
      ensures users == seed && transactions == []
    {
      users := seed;
      transactions := [];
      nextId := NextFreeId(seed);
    }

    /** The checkMembershipExpiry middleware, run before every route. */
    method CheckMembershipExpiry(session: Session, now: int)
      requires Valid()
      modifies this
      ensures Valid()
      ensures users == ExpireSessionUser(old(users), session, now)
      ensures transactions == old(transactions) && nextId == old(nextId)
    {
      if session.SignedIn? {
        var found := FindUserById(users, session.userId);
        if found.Some? {
          var user := users[found.value];
          if user.membershipExpiry.Some? && user.membershipExpiry.value < now {
            user := user.(membershipType := Some(Expired));
            users := users[found.value := user];
          }
        }
      }
    }

    /** POST /addMembership. */
    method AddMembership(session: Session, email: string, duration: Option<int>, agree: bool, now: int)
      returns (outcome: Outcome)
      requires Valid()
      modifies this
      ensures Valid()
      ensures var check := MembershipTarget(old(users), session, email, duration, agree);
        && (check.Err? ==> outcome == Fail(check.error) && users == old(users))
        && (check.Ok? ==>
              outcome == Pass
              && users == old(users)[check.value := Grant(old(users)[check.value], duration.value, now)])
      ensures transactions == old(transactions) && nextId == old(nextId)
    {
      var gate := Admit(session, AdminOnly);
      if gate.Fail? {
        return gate;
      }
      if email == "" || duration.None? {
        return Fail(MissingFields);
      }
      if !agree {
        return Fail(NotConfirmed);
      }
      var found := FindByEmail(users, email);
      if found.None? {
        return Fail(UserNotFound);
      }
      var months := duration.value;
      var user := users[found.value];
      var baseDate := if user.membershipExpiry.Some? && user.membershipExpiry.value > now
                      then user.membershipExpiry.value else now;
      baseDate := AddMonths(baseDate, months);
      user := user.(membershipExpiry := Some(baseDate));
      user := user.(membershipType := Some(Active));
      users := users[found.value := user];
      outcome := Pass;
    }

    /** POST /updateMembership: "extend", "cancel", or any other action, which
        saves the user unchanged. */
    method UpdateMembership(session: Session, email: string, action: string, now: int)
      returns (outcome: Outcome)
      requires Valid()
      modifies this
      ensures Valid()
      ensures var check := UpdateTarget(old(users), session, email);
        && (check.Err? ==> outcome == Fail(check.error) && users == old(users))
        && (check.Ok? ==>
              outcome == Pass
              && users == old(users)[check.value := ApplyAction(old(users)[check.value], action, now)])
      ensures transactions == old(transactions) && nextId == old(nextId)
    {
      var gate := Admit(session, AdminOnly);
      if gate.Fail? {
        return gate;
      }
      var found := FindByEmail(users, email);
      if found.None? {
        return Fail(UserNotFound);
      }
      var user := users[found.value];
      if action == "extend" {
        var baseDate := if user.membershipExpiry.Some? && user.membershipExpiry.value > now
                        then user.membershipExpiry.value else now;
        baseDate := AddMonths(baseDate, ExtendMonths);
        user := user.(membershipExpiry := Some(baseDate), membershipType := Some(Active));
      } else if action == "cancel" {
        user := user.(membershipExpiry := Some(now), membershipType := Some(Expired));
      }
      users := users[found.value := user];
      outcome := Pass;
    }

    /** POST /makePayment: one new "Requested" transaction for the session's email. */
    method MakePayment(session: Session, amount: Option<int>, now: int) returns (outcome: Outcome)
      requires Valid()
      modifies this
      ensures Valid()
      ensures outcome == PaymentCheck(session, amount)
      ensures outcome.Fail? ==> transactions == old(transactions) && nextId == old(nextId)
      ensures outcome.Pass? ==>
        && transactions == old(transactions) + [NewPayment(old(nextId), session.email, amount.value, now)]
        && nextId == old(nextId) + 1
      ensures users == old(users)
    {
      var gate := Admit(session, UserOnly);
      if gate.Fail? {
        return gate;
      }
      if amount.None? || amount.value <= 0 {
        return Fail(InvalidAmount);
      }
      var payment := NewPayment(nextId, session.email, amount.value, now);
      transactions := transactions + [payment];
      nextId := nextId + 1;
      outcome := Pass;
    }

    /** POST /updateStatus/:id: overwrite the status of the transaction with
        that id, whatever the old and new status; an unknown id changes nothing. */
    method UpdateStatus(session: Session, id: nat, status: string) returns (outcome: Outcome)
      requires Valid()
      modifies this
      ensures Valid()
      ensures outcome == Admit(session, AdminOnly)
      ensures outcome.Fail? ==> transactions == old(transactions)
      ensures outcome.Pass? ==>
        match FindTransaction(old(transactions), id)
        case None => transactions == old(transactions)
        case Some(i) => transactions == old(transactions)[i := old(transactions)[i].(status := status)]
      ensures users == old(users) && nextId == old(nextId)
    {
      var gate := Admit(session, AdminOnly);
      if gate.Fail? {
        return gate;
      }
      var found := FindTransaction(transactions, id);
      if found.Some? {
        var t := transactions[found.value];
        transactions := transactions[found.value := t.(status := status)];
      }
      outcome := Pass;
    }

    /** POST /addUser: one new user, unless the email is already in use. */
    method AddUser(session: Session, name: string, email: string, password: string, role: Option<string>)
      returns (outcome: Outcome)
      requires Valid()
      modifies this
      ensures Valid()
      ensures outcome == NewUserCheck(old(users), session, email)
      ensures outcome.Fail? ==> users == old(users) && nextId == old(nextId)
      ensures outcome.Pass? ==>
        && users == old(users) + [NewUser(old(nextId), name, email, password, role)]
        && nextId == old(nextId) + 1
      ensures transactions == old(transactions)
    {
      var gate := Admit(session, AdminOnly);
      if gate.Fail? {
        return gate;
      }
      var existing := FindByEmail(users, email);
      if existing.Some? {
        return Fail(UserExists);
      }
      var user := NewUser(nextId, name, email, password, role);
      users := users + [user];
      nextId := nextId + 1;
      outcome := Pass;
    }

    /** GET /dashboard. */
    method ViewDashboard(session: Session, now: int) returns (r: Result<Dashboard>)
      requires Valid()
      ensures r.Ok? <==> IsAdmin(session)
      ensures r.Err? ==> r.error == Admit(session, AdminOnly).error
      ensures r.Ok? ==> r.value == DashboardSummary(users, transactions, now)
      ensures r.Ok? ==> r.value.totalRevenue >= r.value.totalOrders
    {
      var gate := Admit(session, AdminOnly);
      if gate.Fail? {
        return Err(gate.error);
      }
      r := Ok(DashboardSummary(users, transactions, now));
    }

    /** GET /reports. */
    method ViewReports(session: Session, now: int) returns (r: Result<Report>)
      ensures r.Ok? <==> IsAdmin(session)
      ensures r.Err? ==> r.error == Admit(session, AdminOnly).error
      ensures r.Ok? ==> r.value == ReportTotals(users, now)
    {
      var gate := Admit(session, AdminOnly);
      if gate.Fail? {
        return Err(gate.error);
      }
      r := Ok(ReportTotals(users, now));
    }
  }
}
