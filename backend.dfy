/**
 * The backend's state machine: an identity registry (principal to user
 * profile) and a record ledger (patient to append-only record list), with
 * the role-gated operations over them. The host serialises calls, so every
 * operation runs to completion on its own; the calling principal and the
 * clock reading are passed in explicitly.
 */
module Backend {
  import opened Types

  /**
   * `after` keeps every profile of `before` under the same key: the name and
   * registration date are unchanged and the old role list is a prefix of the
   * new one. No entry is ever removed.
   */
  ghost predicate RegistryGrows(before: map<Principal, User>, after: map<Principal, User>)
  {
    forall p :: p in before ==>
      && p in after
      && after[p].name == before[p].name
      && after[p].registeredDate == before[p].registeredDate
      && |before[p].roles| <= |after[p].roles|
      && after[p].roles[..|before[p].roles|] == before[p].roles
  }

  /** `after` only appends: each old record list is a prefix of the new one. */
  ghost predicate LedgerExtends(before: map<Principal, seq<MedicalRecord>>, after: map<Principal, seq<MedicalRecord>>)
  {
    forall p :: p in before ==> p in after && before[p] <= after[p]
  }

  /** Registry growth is transitive: two growth steps make one. */
  lemma RegistryGrowsTransitive(a: map<Principal, User>, b: map<Principal, User>, c: map<Principal, User>)
    requires RegistryGrows(a, b) && RegistryGrows(b, c)
    ensures RegistryGrows(a, c)
  {
  }

  /** Ledger extension is transitive: two append-only steps make one. */
  lemma LedgerExtendsTransitive(a: map<Principal, seq<MedicalRecord>>, b: map<Principal, seq<MedicalRecord>>, c: map<Principal, seq<MedicalRecord>>)
    requires LedgerExtends(a, b) && LedgerExtends(b, c)
    ensures LedgerExtends(a, c)
  {
  }

  class Backend {
    var users: map<Principal, User>
    var records: map<Principal, seq<MedicalRecord>>

    /**
     * Every user's active role is one of its roles and its roles are
     * distinct; every record is filed under its own patient.
     */
    ghost predicate Valid()
      reads this
    {
      && (forall p :: p in users ==> WellFormed(users[p]))
      && (forall p :: p in records ==>
            forall i :: 0 <= i < |records[p]| ==> records[p][i].patientId == p)
    }

    /** The records filed under `patientId`, empty when there are none. */
    function RecordsOf(patientId: Principal): seq<MedicalRecord>
      reads this
    {
      if patientId in records then records[patientId] else []
    }

    /** No registered user holds more than the two roles that exist. */
    lemma RegisteredRolesAtMostTwo()
      requires Valid()
      ensures forall p :: p in users ==> |users[p].roles| <= 2
    {
      forall p | p in users ensures |users[p].roles| <= 2 {
        RolesAtMostTwo(users[p].roles);
      }
    }

    /** Both tables start empty. */
    constructor ()
      ensures Valid()
      ensures users == map[] && records == map[]
    {
      users := map[];
      records := map[];
    }

    /**
     * Registers `caller` with `role`. A new caller gets a fresh profile whose
     * only and active role is `role`; a known caller only gains `role` when
     * it does not hold it yet. Never fails.
     */
    method RegisterUser(caller: Principal, now: u64, name: string, role: UserRole) returns (result: Result<Principal>)
      requires Valid()
      modifies this
      ensures Valid()
      ensures result == Ok(caller)
      ensures caller !in old(users) ==>
        users == old(users)[caller := User(name, [role], role, now)]
      ensures caller in old(users) ==>
        users == old(users)[caller := old(users[caller]).(roles := AddRole(old(users[caller].roles), role))]
      ensures caller in old(users) && role in old(users[caller].roles) ==> users == old(users)
      ensures caller in users && role in users[caller].roles
      ensures RegistryGrows(old(users), users)
      ensures records == old(records)
    {
      if caller in users {
        var user := users[caller];
        users := users[caller := user.(roles := AddRole(user.roles, role))];
        return Ok(caller);
      }
      users := users[caller := User(name, [role], role, now)];
      result := Ok(caller);
    }

    /**
     * Makes `role` the caller's active role, provided the caller is
     * registered and holds it; a failing call changes nothing.
     */
    method SwitchRole(caller: Principal, role: UserRole) returns (result: Result<()>)
      requires Valid()
      modifies this
      ensures Valid()
      ensures caller !in old(users) ==> result == Err(UserNotFound) && users == old(users)
      ensures caller in old(users) && role !in old(users[caller].roles) ==>
        result == Err(RoleNotAvailable) && users == old(users)
      ensures caller in old(users) && role in old(users[caller].roles) ==>
        result == Ok(()) && users == old(users)[caller := old(users[caller]).(activeRole := role)]
      ensures result.Ok? ==> users[caller].activeRole == role
      ensures RegistryGrows(old(users), users)
      ensures records == old(records)
    {
      if caller in users {
        var user := users[caller];
        if role in user.roles {
          users := users[caller := user.(activeRole := role)];
          result := Ok(());
        } else {
          result := Err(RoleNotAvailable);
        }
      } else {
        result := Err(UserNotFound);
      }
    }

    /**
     * Appends a record written by `caller` to `patientId`'s list. Only a
     * caller whose ACTIVE role is Doctor may do so; holding the Doctor role
     * while Patient is active is not enough. The patient need not be
     * registered. A failing call changes nothing.
     */
    method CreateMedicalRecord(caller: Principal, now: u64, patientId: Principal, diagnosis: string, medication: string, notes: string)
      returns (result: Result<()>)
      requires Valid()
      modifies this
      ensures Valid()
      ensures caller !in old(users) ==> result == Err(DoctorNotFound) && records == old(records)
      ensures caller in old(users) && old(users[caller].activeRole) != Doctor ==>
        result == Err(NotDoctor) && records == old(records)
      ensures caller in old(users) && old(users[caller].activeRole) == Doctor ==>
        result == Ok(()) &&
        records == old(records)[patientId :=
          old(RecordsOf(patientId)) + [MedicalRecord(patientId, caller, diagnosis, medication, notes, now)]]
      ensures result.Ok? ==> |RecordsOf(patientId)| == |old(RecordsOf(patientId))| + 1
      ensures forall p :: p != patientId ==> RecordsOf(p) == old(RecordsOf(p))
      ensures LedgerExtends(old(records), records)
      ensures users == old(users)
    {
      if caller !in users {
        return Err(DoctorNotFound);
      }
      if users[caller].activeRole != Doctor {
        return Err(NotDoctor);
      }
      var record := MedicalRecord(patientId, caller, diagnosis, medication, notes, now);
      records := records[patientId := RecordsOf(patientId) + [record]];
      result := Ok(());
    }

    /**
     * Reads `patientId`'s records on behalf of `caller`: a Doctor-active
     * caller may read anyone's, a Patient-active caller only its own. An
     * absent patient reads as the empty list, never as an error.
     */
    function GetMedicalRecords(caller: Principal, patientId: Principal): (r: Result<seq<MedicalRecord>>)
      reads this
      ensures caller !in users ==> r == Err(UserNotFound)
      ensures caller in users && users[caller].activeRole == Doctor ==> r.Ok?
      ensures caller in users && users[caller].activeRole == Patient ==> (r.Ok? <==> caller == patientId)
      ensures caller in users && r.Err? ==> r.error == AccessDenied
      ensures r.Ok? && patientId in records ==> r.value == records[patientId]
      ensures r.Ok? && patientId !in records ==> r.value == []
      ensures Valid() && r.Ok? ==> forall i :: 0 <= i < |r.value| ==> r.value[i].patientId == patientId
    {
      if caller !in users then Err(UserNotFound)
      else match users[caller].activeRole
        case Doctor => Ok(RecordsOf(patientId))
        case Patient => if caller == patientId then Ok(RecordsOf(patientId)) else Err(AccessDenied)
    }

    /** Looks up any principal's profile; no caller check. */
    function GetUserInfo(userId: Principal): (r: Result<(Principal, User)>)
      reads this
      ensures r.Ok? <==> userId in users
      ensures r.Ok? ==> r.value.0 == userId && r.value.1 == users[userId]
      ensures r.Err? ==> r.error == UserNotFound
      ensures Valid() && r.Ok? ==> WellFormed(r.value.1)
    {
      if userId in users then Ok((userId, users[userId])) else Err(UserNotFound)
    }

    /** The caller's active role: the active role of its profile lookup. */
    function GetActiveRole(caller: Principal): (r: Result<UserRole>)
      reads this
      ensures GetUserInfo(caller).Ok? ==> r == Ok(GetUserInfo(caller).value.1.activeRole)
      ensures GetUserInfo(caller).Err? ==> r == Err(GetUserInfo(caller).error)
      ensures Valid() && r.Ok? ==> r.value in users[caller].roles
    {
      if caller in users then Ok(users[caller].activeRole) else Err(UserNotFound)
    }

    /**
     * Lists every registered principal with its profile, once each, in an
     * unspecified order (each step takes any key not yet listed).
     */
    method GetAllUsers() returns (entries: seq<(Principal, User)>)
      ensures forall e :: e in entries <==> e.0 in users && users[e.0] == e.1
      ensures forall i, j :: 0 <= i < j < |entries| ==> entries[i].0 != entries[j].0
      ensures |entries| == |users|
    {
      entries := [];
      var rest := users.Keys;
      while rest != {}
        invariant rest <= users.Keys
        invariant forall e :: e in entries <==> e.0 in users.Keys - rest && users[e.0] == e.1
        invariant forall i, j :: 0 <= i < j < |entries| ==> entries[i].0 != entries[j].0
        invariant |entries| == |users.Keys - rest|
        decreases rest
      {
        var k :| k in rest;
        entries := entries + [(k, users[k])];
        rest := rest - {k};
      }
    }
  }
}
