/**
  The `RoleBasedAccess` gate: renders its children for a signed-in user whose
  role is listed, and its fallback otherwise.  The user is the one the
  authentication context derives from the access token; that derivation
  (`getUserFromToken`) is a parameter here.
 */
module RoleAccess {
  import opened Wrappers

  datatype User = User(userId: string, email: string, role: string)

  /** What the gate renders; a fallback of `None` renders nothing (`null`). */
  datatype Rendered<T> = Children(children: T) | Fallback(fallback: Option<T>)

  /** The gate.  An omitted `fallback` defaults to `null`, i.e. `None`. */
  function RoleBasedAccess<T>(user: Option<User>, allowedRoles: seq<string>, children: T,
                              fallback: Option<T> := None): (r: Rendered<T>)
    ensures r.Children? <==> user.Some? && user.value.role in allowedRoles
    ensures r.Children? ==> r.children == children
    ensures r.Fallback? ==> r.fallback == fallback
  {
    match user
    case None => Fallback(fallback)
    case Some(u) => if u.role in allowedRoles then Children(children) else Fallback(fallback)
  }

  /** The authentication context's `isAdmin`: the user's role is 'ADMIN'. */
  predicate IsAdmin(user: Option<User>) {
    user.Some? && user.value.role == "ADMIN"
  }

  /** Facts about the gate: the `['ADMIN']` gate admits exactly the admins; an
      empty role list admits nobody; a longer role list never admits fewer
      users; and an omitted fallback renders nothing. */
  lemma GateProperties<T>(user: Option<User>, allowed: seq<string>, more: seq<string>, children: T)
    requires forall role :: role in allowed ==> role in more
    ensures RoleBasedAccess(user, ["ADMIN"], children).Children? <==> IsAdmin(user)
    ensures RoleBasedAccess(user, [], children) == Fallback(None)
    ensures RoleBasedAccess(user, allowed, children).Children? ==> RoleBasedAccess(user, more, children).Children?
    ensures user.None? ==> RoleBasedAccess(user, allowed, children) == Fallback(None)
  {
  }
}
