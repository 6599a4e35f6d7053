/** Who is making a request: Django's `request.user`. */
module Principals {

  type UserId = nat

  /** `AnonymousUser`, or a signed-in user with the user's `is_staff` flag. */
  datatype Requester = Anonymous | SignedIn(id: UserId, isStaff: bool) {

    /** `request.user.is_authenticated` */
    predicate IsAuthenticated() {
      SignedIn?
    }

    /** `request.user.is_staff`; `AnonymousUser.is_staff` is false. */
    predicate IsStaff() {
      SignedIn? && isStaff
    }
  }
}
