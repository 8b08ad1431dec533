/** The two collections the server keeps (models/User.js, models/Transaction.js),
    the session snapshot, the failures a handler reports, and the lookups the
    handlers make. */
module Records {

  datatype Option<T> = None | Some(value: T)

  /** Why a request was turned away; each is a message the server sends back
      (or, for NotLoggedIn, a redirect to the login page). */
  datatype Failure =
    | NotLoggedIn        // isLoggedIn: redirect to "/"
    | AccessDenied       // isAdmin / isUser: "Access Denied"
    | MissingFields      // "All fields are mandatory."
    | NotConfirmed       // "You must confirm membership activation."
    | UserNotFound       // "User not found"
    | InvalidAmount      // "Enter valid amount."
    | UserExists         // "User already exists"
    | NegativeSkip       // the store refuses a negative skip

  datatype Outcome = Pass | Fail(error: Failure)

  datatype Result<T> = Ok(value: T) | Err(error: Failure)

  /** A one-way digest of a password. The hashing algorithm and its salt are
      not modelled: only that the stored value is the digest of the given text. */
  datatype PasswordHash = Digest(secret: string)

  /** A user document. `membershipType` and `membershipExpiry` are absent until
      a membership is first granted. */
  datatype User = User(
    id: nat,
    name: string,
    email: string,
    password: PasswordHash,
    role: string,
    membershipType: Option<string>,
    membershipExpiry: Option<int>)

  /** A transaction document; `userEmail` refers to its owner by value. */
  datatype Transaction = Transaction(
    id: nat,
    userEmail: string,
    amount: int,
    status: string,
    category: string,
    paymentMethod: string,
    createdAt: int)

  const DefaultRole: string := "user"
  const AdminRole: string := "admin"
  const Requested: string := "Requested"
  const DefaultCategory: string := "Membership"
  const DefaultMethod: string := "UPI"
  const Active: string := "Active"
  const Expired: string := "Expired"

  /** The session's snapshot of the user who logged in. */
  datatype Session = Anonymous | SignedIn(userId: nat, email: string, role: string)

  /** A new user document as the add-user form creates it: the role defaults to
      "user" when the form gives none, and there is no membership yet. */
  function NewUser(id: nat, name: string, email: string, password: string, role: Option<string>): (u: User)
    ensures u.id == id && u.name == name && u.email == email
    ensures u.password == Digest(password)
    ensures role.None? ==> u.role == DefaultRole
    ensures role.Some? ==> u.role == role.value
    ensures u.membershipType.None? && u.membershipExpiry.None?
  {
    User(id, name, email, Digest(password),
         match role case Some(r) => r case None => DefaultRole,
         None, None)
  }

  /** A payment as the make-payment form records it. */
  function NewPayment(id: nat, email: string, amount: int, now: int): (t: Transaction)
    ensures t.id == id && t.userEmail == email && t.amount == amount && t.createdAt == now
    ensures t.status == Requested && t.category == DefaultCategory && t.paymentMethod == DefaultMethod
  {
    Transaction(id, email, amount, Requested, DefaultCategory, DefaultMethod, now)
  }

  /** The first position, in insertion order, whose element satisfies p: the
      document a `findOne`-style query returns. */
  function FirstWhere<T>(s: seq<T>, p: T -> bool): (r: Option<nat>)
    ensures r.Some? ==> r.value < |s| && p(s[r.value])
    ensures r.Some? ==> forall k :: 0 <= k < r.value ==> !p(s[k])
    ensures r.None? <==> forall k :: 0 <= k < |s| ==> !p(s[k])
  {
    if |s| == 0 then None
    else if p(s[0]) then Some(0)
    else match FirstWhere(s[1..], p)
      case None => None
      case Some(k) => Some(k + 1)
  }

  /** `User.findOne({ email })`. */
  function FindByEmail(users: seq<User>, email: string): (r: Option<nat>)
    ensures r.Some? ==> r.value < |users| && users[r.value].email == email
    ensures r.Some? ==> forall k :: 0 <= k < r.value ==> users[k].email != email
    ensures r.None? <==> forall k :: 0 <= k < |users| ==> users[k].email != email
  {
    FirstWhere(users, (u: User) => u.email == email)
  }

  /** `User.findById(id)`. */
  function FindUserById(users: seq<User>, id: nat): (r: Option<nat>)
    ensures r.Some? ==> r.value < |users| && users[r.value].id == id
    ensures r.Some? ==> forall k :: 0 <= k < r.value ==> users[k].id != id
    ensures r.None? <==> forall k :: 0 <= k < |users| ==> users[k].id != id
  {
    FirstWhere(users, (u: User) => u.id == id)
  }

  /** The document `Transaction.findByIdAndUpdate(id, …)` updates. */
  function FindTransaction(ts: seq<Transaction>, id: nat): (r: Option<nat>)
    ensures r.Some? ==> r.value < |ts| && ts[r.value].id == id
    ensures r.Some? ==> forall k :: 0 <= k < r.value ==> ts[k].id != id
    ensures r.None? <==> forall k :: 0 <= k < |ts| ==> ts[k].id != id
  {
    FirstWhere(ts, (t: Transaction) => t.id == id)
  }

  /** No two users share an email: the key every handler looks users up by. */
  predicate EmailsUnique(users: seq<User>) {
    forall i, j :: 0 <= i < j < |users| ==> users[i].email != users[j].email
  }

  predicate UserIdsDistinct(users: seq<User>) {
    forall i, j :: 0 <= i < j < |users| ==> users[i].id != users[j].id
  }

  predicate TransactionIdsDistinct(ts: seq<Transaction>) {
    forall i, j :: 0 <= i < j < |ts| ==> ts[i].id != ts[j].id
  }

  /** An id above every id in use: the next one the store hands out. */
  function NextFreeId(users: seq<User>): (n: nat)
    ensures forall i :: 0 <= i < |users| ==> users[i].id < n
  {
    if users == [] then 0
    else
      var rest := NextFreeId(users[1..]);
      assert forall i :: 1 <= i < |users| ==> users[i] == users[1..][i - 1];
      if users[0].id + 1 > rest then users[0].id + 1 else rest
  }

  /** With unique emails, the user findOne returns is the only one with that email. */
  lemma FindByEmailUnique(users: seq<User>, email: string, k: nat)
    requires EmailsUnique(users)
    requires k < |users| && users[k].email == email
    ensures FindByEmail(users, email) == Some(k)
  {
  }
}
