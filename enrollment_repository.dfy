/**
 * The enrollment repository's lookup by user, which both the bookings and the
 * tickets services call first. Its source file is not part of this model; the
 * lookup is taken to be `findFirst({ where: { userId } })` like the others.
 */
module EnrollmentRepository {
  import opened Model
  import Lookup

  /** An enrollment of `userId`, or None when the user has none. */
  function FindEnrollmentByUserId(t: Tables, userId: int): (r: Option<Enrollment>)
    requires Consistent(t)
    ensures r.Some? ==> r.value.id in t.enrollments && t.enrollments[r.value.id] == r.value
    ensures r.Some? ==> r.value.userId == userId
    ensures r.None? <==> forall k :: k in t.enrollments ==> t.enrollments[k].userId != userId
  {
    match Lookup.FindFirst(t.enrollments, (e: Enrollment) => e.userId == userId)
    case None => None
    case Some(k) => Some(t.enrollments[k])
  }
}
