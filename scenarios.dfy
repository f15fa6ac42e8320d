/**
 * Client sessions against the backend, showing what a caller can conclude
 * from the operations' contracts alone.
 */
module Scenarios {
  import opened Types
  import opened Backend

  /**
   * A registers as Doctor and B as Patient. A files a "flu" record for B,
   * which B can read back. C, another Patient, is refused B's records.
   */
  method DoctorFilesRecordForPatient(a: Principal, b: Principal, c: Principal, t: u64)
    requires a != b && b != c && a != c
  {
    var backend := new Backend();
    var ra := backend.RegisterUser(a, t, "A", Doctor);
    var rb := backend.RegisterUser(b, t, "B", Patient);
    var rc := backend.RegisterUser(c, t, "C", Patient);
    assert ra == Ok(a) && rb == Ok(b) && rc == Ok(c);

    var created := backend.CreateMedicalRecord(a, t, b, "flu", "rest", "");
    assert created == Ok(());

    var own := backend.GetMedicalRecords(b, b);
    assert own.Ok? && |own.value| == 1;
    assert own.value[0].diagnosis == "flu" && own.value[0].doctorId == a;

    var other := backend.GetMedicalRecords(c, b);
    assert other == Err(AccessDenied);

    var none := backend.GetMedicalRecords(c, c);
    assert none == Ok([]);
  }

  /**
   * A holds both roles with Doctor active, switches to Patient, and is then
   * refused record creation although Doctor is still among its roles.
   * Registering again leaves the name and the active role as they were.
   */
  method SwitchedDoctorCannotWrite(a: Principal, b: Principal, t0: u64, t1: u64)
  {
    var backend := new Backend();
    var _ := backend.RegisterUser(a, t0, "A", Doctor);
    var _ := backend.RegisterUser(a, t1, "renamed", Patient);
    assert backend.users[a] == User("A", [Doctor, Patient], Doctor, t0);

    var refused := backend.SwitchRole(b, Patient);
    assert refused == Err(UserNotFound) || a == b;

    var switched := backend.SwitchRole(a, Patient);
    assert switched == Ok(());
    assert Doctor in backend.users[a].roles;

    var created := backend.CreateMedicalRecord(a, t1, b, "flu", "", "");
    assert created == Err(NotDoctor);
    assert backend.RecordsOf(b) == [];
  }
}
