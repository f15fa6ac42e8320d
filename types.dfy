/**
 * Values of the medical-records backend: caller identities, roles, user
 * profiles, medical records, and the errors the public operations return.
 */
module Types {

  /** An opaque caller identity; the backend only ever compares two of them. */
  type Principal(==, !new)

  /** Timestamps are unsigned 64-bit nanosecond counts supplied by the host. */
  newtype u64 = x: int | 0 <= x < 0x1_0000_0000_0000_0000

  datatype UserRole = Patient | Doctor

  /** A registry entry: `roles` is kept in grant order and never holds a role twice. */
  datatype User = User(
    name: string,
    roles: seq<UserRole>,
    activeRole: UserRole,
    registeredDate: u64
  )

  /** One append-only ledger entry. */
  datatype MedicalRecord = MedicalRecord(
    patientId: Principal,
    doctorId: Principal,
    diagnosis: string,
    medication: string,
    notes: string,
    createdAt: u64
  )

  /**
   * The failures of the public operations, one per distinct message the
   * backend returns.
   */
  datatype Error =
    | UserNotFound      // the caller (or the looked-up identity) is not registered
    | RoleNotAvailable  // switching to a role the caller was never granted
    | DoctorNotFound    // an unregistered caller tried to create a record
    | NotDoctor         // a record creator whose active role is not Doctor
    | AccessDenied      // a reader whose active role does not permit the read

  datatype Result<T> = Ok(value: T) | Err(error: Error)

  predicate NoDuplicates(roles: seq<UserRole>)
  {
    forall i, j :: 0 <= i < j < |roles| ==> roles[i] != roles[j]
  }

  /** The registry invariant every stored user keeps. */
  predicate WellFormed(u: User)
  {
    NoDuplicates(u.roles) && u.activeRole in u.roles
  }

  /**
   * Grants `role` on top of `roles`: appended at the end when absent, and
   * the list is left as it is when the role is already held.
   */
  function AddRole(roles: seq<UserRole>, role: UserRole): (r: seq<UserRole>)
    ensures forall x :: x in r <==> x in roles || x == role
    ensures |r| >= |roles| && r[..|roles|] == roles
    ensures role in roles ==> r == roles
    ensures role !in roles ==> |r| == |roles| + 1
    ensures NoDuplicates(roles) ==> NoDuplicates(r)
  {
    if role in roles then roles else roles + [role]
  }

  /** Any three roles repeat one: there are only two. */
  lemma ThreeRolesRepeat(a: UserRole, b: UserRole, c: UserRole)
    ensures a == b || a == c || b == c
  {
  }

  /** With two roles and no duplicates, a user holds at most both of them. */
  lemma {:induction false} RolesAtMostTwo(roles: seq<UserRole>)
    requires NoDuplicates(roles)
    ensures |roles| <= 2
  {
    if |roles| > 2 {
      ThreeRolesRepeat(roles[0], roles[1], roles[2]);
      assert false;
    }
  }
}
