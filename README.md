# Medical records backend: a Dafny model

This project models a small role-based access-control backend for medical records. The backend keeps two in-memory tables:

- the **identity registry** maps a principal to a user profile. A profile holds a name, the roles granted so far, the active role and the registration time.
- the **record ledger** maps a patient principal to the list of medical records filed for that patient. The list is append-only.

A principal can register as Patient, as Doctor, or as both. It acts under one active role at a time, and every call checks that active role. Only a Doctor-active caller can file a record. A Doctor-active caller can read anyone's records. A Patient-active caller can read only its own.

Layout:

- `types.dfy`, module `Types`, holds the values:
  - `Principal` is an opaque type with equality only;
  - `u64` is the host's 64-bit timestamp;
  - `UserRole`, `User` and `MedicalRecord`;
  - the `Error` and `Result` types;
  - the role-list helper `AddRole` and the user invariant `WellFormed`.
- `backend.dfy`, module `Backend`, holds the class `Backend`:
  - the fields `users` and `records` are the two tables;
  - `Valid()` is the object invariant;
  - the three update operations are methods with `modifies this`;
  - the three lookups are functions;
  - the full registry listing is a method.
- `scenarios.dfy`, module `Scenarios`, holds two client sessions that use only the operations' contracts.

The calling principal and the clock are runtime calls in lib.rs. Every operation takes them as the explicit parameters `caller` and `now`.

Error names follow the messages in lib.rs:

- **Unregistered caller of `create_medical_record`.** The message at src/medical_records_backend/src/lib.rs:108 says the doctor was not found. It differs from the user-not-found message at lib.rs:87, 146, 167 and 189, so the model keeps it as a separate error, `DoctorNotFound`.
- **Missing role in `switch_role`.** `RoleNotAvailable` is named after the message at lib.rs:84.
- **Read refused by `get_medical_records`.** `AccessDenied` is named after the message at lib.rs:143.

## Model

| member | source | states |
|---|---|---|
| Types.AddRole | src/medical_records_backend/src/lib.rs:53-55 | granting a role gives exactly the old roles plus the new one; the old list stays as a prefix; a role already held leaves the list unchanged; otherwise exactly one entry is added; a duplicate-free list stays duplicate-free |
| Types.RolesAtMostTwo | src/medical_records_backend/src/lib.rs:15-19 | because roles are never duplicated, a user holds at most the two roles that exist |
| Backend.RegistryGrowsTransitive | src/medical_records_backend/src/lib.rs:52-57 | the registry-growth relation that registering and role switching ensure (no profile disappears; name, registration date and earlier roles stay as they were) is transitive |
| Backend.LedgerExtendsTransitive | src/medical_records_backend/src/lib.rs:122-128 | the ledger-extension relation that record creation ensures (every old record list is a prefix of the new one) is transitive |
| Backend.Backend.constructor | src/medical_records_backend/src/lib.rs:31-35 | both tables start empty and the invariant holds |
| Backend.Backend.RegisterUser | src/medical_records_backend/src/lib.rs:45-70 | a new caller gets a profile with the given name, `roles == [role]`, active role `role` and registration time `now`. A known caller only gains `role` when absent; its name, active role and registration time stay untouched, and the profile is unchanged when the role is already held. Always returns `Ok(caller)`. The ledger is unchanged and the invariant is kept |
| Backend.Backend.SwitchRole | src/medical_records_backend/src/lib.rs:72-90 | an unregistered caller gets `UserNotFound`; a role not held gets `RoleNotAvailable`; both failures change nothing. On success only the caller's active role changes, to `role`. The ledger is unchanged and the invariant is kept |
| Backend.Backend.CreateMedicalRecord | src/medical_records_backend/src/lib.rs:92-131 | an unregistered caller gets `DoctorNotFound`, and a caller whose active role is not Doctor gets `NotDoctor`; in both cases the ledger is unchanged. On success exactly one record is appended to `patientId`'s list; the list is started empty if absent, and the record carries `patientId`, `doctorId == caller` and `createdAt == now`. Other patients' lists and the registry are unchanged, and `patientId` need not be registered |
| Backend.Backend.RegisteredRolesAtMostTwo | src/medical_records_backend/src/lib.rs:52-68 | under the invariant that registration keeps, no registered user holds more than two roles |
| Backend.Backend.GetMedicalRecords | src/medical_records_backend/src/lib.rs:133-158 | an unregistered caller gets `UserNotFound`. A Doctor-active caller always succeeds. A Patient-active caller succeeds exactly when reading its own records; every other refusal is `AccessDenied`. Success returns the stored list, or the empty list for an absent patient. Under the invariant, every returned record belongs to `patientId` |
| Backend.Backend.GetUserInfo | src/medical_records_backend/src/lib.rs:160-169 | succeeds exactly when the principal is registered, returning it paired with its profile; otherwise fails with `UserNotFound`. Under the invariant the returned profile is well formed |
| Backend.Backend.GetActiveRole | src/medical_records_backend/src/lib.rs:182-190 | agrees with the active role of the caller's profile lookup, and fails exactly as that lookup does. Under the invariant the role is one the caller holds |
| Backend.Backend.GetAllUsers | src/medical_records_backend/src/lib.rs:171-179 | lists exactly the registry's entries, each principal once, with as many entries as the registry has; no order is promised |

## Left out

- The runtime's caller identity and clock (src/medical_records_backend/src/lib.rs:37-43) are foreign calls. They are the parameters `caller` and `now` of each operation.
- The thread-local cells around the two tables are runtime plumbing, and so are the update/query entry-point annotations. The host runs one call at a time, so the tables are plain fields of one object, and concurrency is not modelled.
- The Candid derives and the wire encoding of arguments and results belong to an external serialisation library.
- The message strings are replaced by the `Error` datatype, with one constructor per distinct message.
- Backend.Backend.GetAllUsers: the order of the listing comes from hash-map iteration and is unspecified. The model picks each next key nondeterministically and states no order.
- The principal's internal byte structure is not interpreted; only equality is used.
- `Vec::contains` is modelled as sequence membership.
