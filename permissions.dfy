/**
 * Authorization decisions (apps/products/permissions.py and the permission
 * classes of Django REST framework the views combine with it).
 */
module Permissions {
  import opened Wrappers
  import opened Principals

  datatype HttpMethod = GET | HEAD | OPTIONS | POST | PUT | PATCH | DELETE

  /** `permissions.SAFE_METHODS` */
  predicate IsSafe(m: HttpMethod) {
    m == GET || m == HEAD || m == OPTIONS
  }

  /**
   * `IsOwnerOrReadOnly.has_object_permission`: a safe method is allowed to
   * anyone, any method is allowed to staff, and a write by anyone else is
   * allowed exactly when the requester owns the object. `owner` is the
   * product's `created_by` (null once that user is deleted); the anonymous
   * user is never equal to a stored user.
   */
  function OwnerOrReadOnly(m: HttpMethod, user: Requester, owner: Option<UserId>): (r: bool)
    ensures IsSafe(m) ==> r
    ensures user.IsStaff() ==> r
    ensures !IsSafe(m) && !user.IsStaff() ==> (r <==> user.SignedIn? && owner == Some(user.id))
  {
    if IsSafe(m) then true
    else if user.IsStaff() then true
    else user.SignedIn? && owner == Some(user.id)
  }

  /** An object without an owner can be written only by staff. */
  lemma OrphanWritableOnlyByStaff(m: HttpMethod, user: Requester)
    requires !IsSafe(m)
    ensures OwnerOrReadOnly(m, user, None) <==> user.IsStaff()
  {
  }

  /** An anonymous requester can never write. */
  lemma AnonymousNeverWrites(m: HttpMethod, owner: Option<UserId>)
    requires !IsSafe(m)
    ensures !OwnerOrReadOnly(m, Anonymous, owner)
  {
  }

  /** The permission classes the views use. */
  datatype Permission = AllowAny | IsAuthenticated | IsAdminUser | IsOwnerOrReadOnly

  /** `has_permission`; `BasePermission`'s default (used by `IsOwnerOrReadOnly`) is to allow. */
  function HasPermission(p: Permission, user: Requester): (r: bool)
    ensures p == AllowAny || p == IsOwnerOrReadOnly ==> r
    ensures p == IsAuthenticated ==> (r <==> user.IsAuthenticated())
    ensures p == IsAdminUser ==> (r <==> user.IsStaff())
  {
    match p
    case AllowAny => true
    case IsAuthenticated => user.IsAuthenticated()
    case IsAdminUser => user.IsStaff()
    case IsOwnerOrReadOnly => true
  }

  /** `has_object_permission`; every class but `IsOwnerOrReadOnly` keeps `BasePermission`'s default. */
  function HasObjectPermission(p: Permission, m: HttpMethod, user: Requester, owner: Option<UserId>): (r: bool)
    ensures p != IsOwnerOrReadOnly ==> r
    ensures p == IsOwnerOrReadOnly ==> (r <==> OwnerOrReadOnly(m, user, owner))
  {
    match p
    case IsOwnerOrReadOnly => OwnerOrReadOnly(m, user, owner)
    case _ => true
  }

  /**
   * Why a request was refused: `permission_denied` raises NotAuthenticated
   * (401) for a request that carries no valid credentials and
   * PermissionDenied (403) for an authenticated one.
   */
  datatype Refusal = NotAuthenticated | PermissionDenied

  function RefusalFor(user: Requester): (r: Refusal)
    ensures r == NotAuthenticated <==> user.Anonymous?
  {
    if user.Anonymous? then NotAuthenticated else PermissionDenied
  }

  /** `check_permissions`: the first class in the list that refuses decides the refusal. */
  function CheckPermissions(ps: seq<Permission>, user: Requester): (r: Option<Refusal>)
    ensures r.None? <==> forall i :: 0 <= i < |ps| ==> HasPermission(ps[i], user)
    ensures r.Some? ==> r.value == RefusalFor(user)
  {
    if ps == [] then None
    else if !HasPermission(ps[0], user) then Some(RefusalFor(user))
    else
      var rest := CheckPermissions(ps[1..], user);
      assert forall i :: 1 <= i < |ps| ==> ps[i] == ps[1..][i - 1];
      rest
  }

  /** `check_object_permissions` */
  function CheckObjectPermissions(ps: seq<Permission>, m: HttpMethod, user: Requester, owner: Option<UserId>): (r: Option<Refusal>)
    ensures r.None? <==> forall i :: 0 <= i < |ps| ==> HasObjectPermission(ps[i], m, user, owner)
    ensures r.Some? ==> r.value == RefusalFor(user)
  {
    if ps == [] then None
    else if !HasObjectPermission(ps[0], m, user, owner) then Some(RefusalFor(user))
    else
      var rest := CheckObjectPermissions(ps[1..], m, user, owner);
      assert forall i :: 1 <= i < |ps| ==> ps[i] == ps[1..][i - 1];
      rest
  }
}
