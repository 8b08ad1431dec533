/** The membership lifecycle of one user document: the lazy expiry check and
    the admin actions that grant, extend and cancel a membership. */
module Membership {
  import opened Clock
  import opened Records

  /** The user's expiry lies strictly before `now`. */
  predicate LapsedAt(u: User, now: int) {
    u.membershipExpiry.Some? && u.membershipExpiry.value < now
  }

  /** The user counts as an active member at `now`: the expiry lies strictly after it. */
  predicate ActiveAt(u: User, now: int) {
    u.membershipExpiry.Some? && u.membershipExpiry.value > now
  }

  /** The stored type agrees with the expiry: a lapsed membership says "Expired". */
  predicate ConsistentAt(u: User, now: int) {
    LapsedAt(u, now) ==> u.membershipType == Some(Expired)
  }

  /** The checkMembershipExpiry middleware applied to one user: a lapsed user
      is marked "Expired" (whatever the type was before); nothing else changes. */
  function Lapse(u: User, now: int): (r: User)
    ensures r.membershipExpiry == u.membershipExpiry
    ensures r == u.(membershipType := r.membershipType)
    ensures LapsedAt(u, now) ==> r.membershipType == Some(Expired)
    ensures !LapsedAt(u, now) ==> r == u
  {
    if LapsedAt(u, now) then u.(membershipType := Some(Expired)) else u
  }

  /** After the check, the user's type agrees with the expiry. */
  lemma LapseConsistent(u: User, now: int)
    ensures ConsistentAt(Lapse(u, now), now)
  {
  }

  /** Running the check twice leaves the user as running it once. */
  lemma LapseIdempotent(u: User, now: int)
    ensures Lapse(Lapse(u, now), now) == Lapse(u, now)
  {
  }

  /** The date a grant or an extension counts from: the current expiry when it
      is still in the future, otherwise now. */
  function BaseDate(expiry: Option<int>, now: int): (r: int)
    ensures r >= now
    ensures expiry.Some? ==> r >= expiry.value
    ensures expiry.Some? && expiry.value > now ==> r == expiry.value
    ensures !(expiry.Some? && expiry.value > now) ==> r == now
  {
    if expiry.Some? && expiry.value > now then expiry.value else now
  }

  /** The add-membership action on a found user: the expiry becomes the base
      date advanced by `months`, and the type becomes "Active". */
  function Grant(u: User, months: int, now: int): (r: User)
    ensures r == u.(membershipExpiry := r.membershipExpiry, membershipType := r.membershipType)
    ensures r.membershipType == Some(Active)
    ensures r.membershipExpiry == Some(AddMonths(BaseDate(u.membershipExpiry, now), months))
    ensures months >= 1 ==> ActiveAt(r, now)
  {
    u.(membershipExpiry := Some(AddMonths(BaseDate(u.membershipExpiry, now), months)),
       membershipType := Some(Active))
  }

  /** A grant to a member who is still active counts from the old expiry, so
      the membership is lengthened and never shortened. */
  lemma GrantExtendsActive(u: User, months: int, now: int)
    requires ActiveAt(u, now) && months >= 0
    ensures Grant(u, months, now).membershipExpiry.value >= u.membershipExpiry.value
    ensures Grant(u, months, now).membershipExpiry.value == AddMonths(u.membershipExpiry.value, months)
  {
  }

  /** A grant to a user without a live membership counts from now. */
  lemma GrantFromNow(u: User, months: int, now: int)
    requires !ActiveAt(u, now)
    ensures Grant(u, months, now).membershipExpiry == Some(AddMonths(now, months))
  {
  }

  /** Two grants in a row add up: the second counts from the expiry the first set. */
  lemma GrantsStack(u: User, a: int, b: int, now: int)
    requires a >= 1
    ensures Grant(Grant(u, a, now), b, now).membershipExpiry
            == Some(AddMonths(BaseDate(u.membershipExpiry, now), a + b))
  {
    var base := BaseDate(u.membershipExpiry, now);
    assert Grant(u, a, now).membershipExpiry.value == AddMonths(base, a) > now;
    AddMonthsStacks(base, a, b);
  }

  /** Months an "extend" action adds. */
  const ExtendMonths: int := 6

  /** The "extend" action: the grant rule with a fixed six months. */
  function Extend(u: User, now: int): (r: User)
    ensures r == u.(membershipExpiry := r.membershipExpiry, membershipType := r.membershipType)
    ensures r.membershipType == Some(Active)
    ensures r.membershipExpiry == Some(AddMonths(BaseDate(u.membershipExpiry, now), ExtendMonths))
    ensures ActiveAt(r, now)
  {
    Grant(u, ExtendMonths, now)
  }

  /** The "cancel" action: the membership ends now and is marked "Expired". */
  function Cancel(u: User, now: int): (r: User)
    ensures r == u.(membershipExpiry := Some(now), membershipType := Some(Expired))
    ensures !ActiveAt(r, now)
  {
    u.(membershipExpiry := Some(now), membershipType := Some(Expired))
  }

  /** A cancelled membership stays consistent from then on: the type is
      "Expired" whenever the expiry has passed. */
  lemma CancelConsistent(u: User, now: int, later: int)
    ensures ConsistentAt(Cancel(u, now), later)
  {
  }

  /** The update-membership action: "extend", "cancel", or any other action,
      which leaves the user as it was. */
  function ApplyAction(u: User, action: string, now: int): (r: User)
    ensures action == "extend" ==> r == Extend(u, now)
    ensures action == "cancel" ==> r == Cancel(u, now)
    ensures action != "extend" && action != "cancel" ==> r == u
    ensures r.id == u.id && r.email == u.email && r.role == u.role
  {
    if action == "extend" then Extend(u, now)
    else if action == "cancel" then Cancel(u, now)
    else u
  }
}
