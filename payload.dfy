/** The patient snapshot a transfer is checksummed over
    (app/services/transfer_service.py, `build_patient_payload` and the
    timestamp assignment of `create_transfer_checksum` and
    `verify_transfer_checksum`). */
module Payload {
  import opened Wrappers
  import opened Models
  import opened Json
  import opened IsoFormat

  /** A row of `patients`. */
  datatype Patient = Patient(
    patientId: string,
    hospitalId: HospitalId,
    name: string,
    email: string,
    dob: Option<CalendarDate>)

  /** A row of `treatment_sessions`. Float columns hold the `repr` text of
      their value. The table has no `notes` column. */
  datatype TreatmentSession = TreatmentSession(
    sessionId: string,
    patientId: string,
    hospitalId: HospitalId,
    treatmentId: int,
    deviceId: Option<int>,
    doctorId: Option<string>,
    nurseId: Option<string>,
    doctorMinutes: Option<int>,
    nurseMinutes: Option<int>,
    deviceCost: Option<FloatRepr>,
    devicePrice: Option<FloatRepr>,
    staffCost: Option<FloatRepr>,
    totalPrice: Option<FloatRepr>,
    profit: Option<FloatRepr>,
    createdAt: Option<Timestamp>)

  /** Why building the payload raises. */
  datatype PayloadError =
    | PatientNotFound   // `Patient.query.get` gave None: AttributeError on `patient.patient_id`
    | MissingNotes      // AttributeError on `ts.notes`

  // ---------------------------------------------------------------------
  // Column values as JSON
  // ---------------------------------------------------------------------

  function IdJson(h: HospitalId): Json {
    match h
    case IntKey(n) => JInt(n)
    case TextKey(s) => JStr(s)
  }

  function IntOrNull(o: Option<int>): Json {
    if o.Some? then JInt(o.value) else JNull
  }

  function StrOrNull(o: Option<string>): Json {
    if o.Some? then JStr(o.value) else JNull
  }

  function FloatOrNull(o: Option<FloatRepr>): Json {
    if o.Some? then JFloat(o.value) else JNull
  }

  /** `d.isoformat() if d else None`. */
  function DateOrNull(o: Option<CalendarDate>): Json {
    if o.Some? then JStr(DateText(o.value)) else JNull
  }

  /** `t.isoformat() if t else None`. */
  function TimestampOrNull(o: Option<Timestamp>): Json {
    if o.Some? then JStr(DateTimeText(o.value)) else JNull
  }

  // ---------------------------------------------------------------------
  // The payload
  // ---------------------------------------------------------------------

  function PatientJson(p: Patient): Json {
    JObj([
      Field("patient_id", JStr(p.patientId)),
      Field("name", JStr(p.name)),
      Field("email", JStr(p.email)),
      Field("dob", DateOrNull(p.dob)),
      Field("current_hospital_id", IdJson(p.hospitalId))])
  }

  /** One `treatment_history` entry, with `notes` null. */
  function SessionJson(ts: TreatmentSession): Json {
    JObj([
      Field("session_id", JStr(ts.sessionId)),
      Field("treatment_id", JInt(ts.treatmentId)),
      Field("hospital_id", IdJson(ts.hospitalId)),
      Field("device_id", IntOrNull(ts.deviceId)),
      Field("doctor_id", StrOrNull(ts.doctorId)),
      Field("doctor_minutes", IntOrNull(ts.doctorMinutes)),
      Field("nurse_minutes", IntOrNull(ts.nurseMinutes)),
      Field("device_cost", FloatOrNull(ts.deviceCost)),
      Field("device_price", FloatOrNull(ts.devicePrice)),
      Field("staff_cost", FloatOrNull(ts.staffCost)),
      Field("total_price", FloatOrNull(ts.totalPrice)),
      Field("profit", FloatOrNull(ts.profit)),
      Field("notes", JNull),
      Field("created_at", TimestampOrNull(ts.createdAt))])
  }

  function ContextJson(departmentId: int, timestamp: Json): Json {
    JObj([Field("department_id", JInt(departmentId)), Field("timestamp", timestamp)])
  }

  /** The payload dict, with `timestamp` holding the given value. */
  function PayloadOf(p: Patient, departmentId: int, history: seq<TreatmentSession>, timestamp: Json): Json {
    JObj([
      Field("patient", PatientJson(p)),
      Field("transfer_context", ContextJson(departmentId, timestamp)),
      Field("treatment_history", JArr(MapSeq(SessionJson, history)))])
  }

  /** `Patient.query.get(patient_id)`: the row with that primary key. */
  function FindPatient(patients: seq<Patient>, patientId: string): (r: Option<Patient>)
    ensures r.Some? ==> r.value in patients && r.value.patientId == patientId
    ensures r.None? <==> forall p | p in patients :: p.patientId != patientId
  {
    if patients == [] then None
    else if patients[0].patientId == patientId then Some(patients[0])
    else FindPatient(patients[1..], patientId)
  }

  /** `build_patient_payload` as written: every history entry reads
      `ts.notes`, which a session does not have, so the builder raises as
      soon as the patient has one session. */
  function BuildPatientPayloadAsWritten(patients: seq<Patient>, patientId: string, departmentId: int,
                                        history: seq<TreatmentSession>): (r: Result<Json, PayloadError>)
    ensures r.Ok? <==> FindPatient(patients, patientId).Some? && history == []
    ensures r.Err? ==> r.error == (if FindPatient(patients, patientId).None? then PatientNotFound else MissingNotes)
    ensures r.Ok? ==> r == BuildPatientPayload(patients, patientId, departmentId, history)
  {
    match FindPatient(patients, patientId)
    case None => Err(PatientNotFound)
    case Some(p) => if history != [] then Err(MissingNotes) else Ok(PayloadOf(p, departmentId, [], JNull))
  }

  /** `build_patient_payload` with `notes` written as null. `history` is
      what the session query returned (see `IsHistoryQuery`). */
  function BuildPatientPayload(patients: seq<Patient>, patientId: string, departmentId: int,
                               history: seq<TreatmentSession>): (r: Result<Json, PayloadError>)
    ensures r.Ok? <==> FindPatient(patients, patientId).Some?
    ensures r.Err? ==> r.error == PatientNotFound
    ensures r.Ok? ==>
      && r.value.JObj?
      && Lookup(r.value.fields, "patient") == Some(PatientJson(FindPatient(patients, patientId).value))
      && Lookup(r.value.fields, "transfer_context") == Some(ContextJson(departmentId, JNull))
      && Lookup(r.value.fields, "treatment_history") == Some(JArr(MapSeq(SessionJson, history)))
  {
    match FindPatient(patients, patientId)
    case None => Err(PatientNotFound)
    case Some(p) =>
      PayloadLookups(PatientJson(p), ContextJson(departmentId, JNull), JArr(MapSeq(SessionJson, history)));
      Ok(PayloadOf(p, departmentId, history, JNull))
  }

  /** `payload["patient"]`, `payload["transfer_context"]` and
      `payload["treatment_history"]` of a built payload. */
  lemma PayloadLookups(patient: Json, context: Json, history: Json)
    ensures var f := [Field("patient", patient), Field("transfer_context", context), Field("treatment_history", history)];
      && Lookup(f, "patient") == Some(patient)
      && Lookup(f, "transfer_context") == Some(context)
      && Lookup(f, "treatment_history") == Some(history)
  {
    assert "patient"[0] != "transfer_context"[0] && "patient"[0] != "treatment_history"[0];
    assert "transfer_context"[2] != "treatment_history"[2];
    LookupThree(Field("patient", patient), Field("transfer_context", context), Field("treatment_history", history));
  }

  lemma LookupThree(a: Field, b: Field, c: Field)
    requires a.key != b.key && a.key != c.key && b.key != c.key
    ensures Lookup([a, b, c], a.key) == Some(a.value)
    ensures Lookup([a, b, c], b.key) == Some(b.value)
    ensures Lookup([a, b, c], c.key) == Some(c.value)
  {
    assert [a, b, c][1..] == [b, c];
    assert [b, c][1..] == [c];
  }

  /** The builder as written succeeds only for a patient with no session at
      all. */
  lemma AsWrittenFailsWithHistory(patients: seq<Patient>, patientId: string, departmentId: int,
                                  history: seq<TreatmentSession>)
    ensures BuildPatientPayloadAsWritten(patients, patientId, departmentId, history).Ok?
        <==> FindPatient(patients, patientId).Some? && history == []
    ensures FindPatient(patients, patientId).Some? && history != [] ==>
        BuildPatientPayloadAsWritten(patients, patientId, departmentId, history) == Err(MissingNotes)
  {
  }

  /** A patient with a session who exists: the builder as written raises on
      them, the corrected one builds their payload. */
  lemma NotesCounterexample()
    ensures var p := Patient("p1", IntKey(1), "Ann", "ann@example.org", None);
      var ts := TreatmentSession("s1", "p1", IntKey(1), 7, None, None, None, None, None,
                                 None, None, None, None, None, None);
      && BuildPatientPayloadAsWritten([p], "p1", 3, [ts]) == Err(MissingNotes)
      && BuildPatientPayload([p], "p1", 3, [ts]).Ok?
  {
  }

  // ---------------------------------------------------------------------
  // The session query
  // ---------------------------------------------------------------------

  /** The sessions of a patient, in table order. */
  function SessionsOf(sessions: seq<TreatmentSession>, patientId: string): (r: seq<TreatmentSession>)
    ensures forall ts | ts in r :: ts in sessions && ts.patientId == patientId
  {
    if sessions == [] then []
    else (if sessions[0].patientId == patientId then [sessions[0]] else []) + SessionsOf(sessions[1..], patientId)
  }

  /** `ORDER BY created_at` ascending; a missing value sorts first. */
  predicate CreatedNoLater(a: Option<Timestamp>, b: Option<Timestamp>) {
    a.None? || (b.Some? && Instant(a.value) <= Instant(b.value))
  }

  predicate SortedByCreation(h: seq<TreatmentSession>) {
    forall i, j | 0 <= i < j < |h| :: CreatedNoLater(h[i].createdAt, h[j].createdAt)
  }

  /** What `TreatmentSession.query.filter_by(patient_id=…)
      .order_by(TreatmentSession.created_at).all()` may return: the
      patient's sessions in some order sorted by `created_at`. Sessions
      created at the same instant may come in any order. */
  ghost predicate IsHistoryQuery(sessions: seq<TreatmentSession>, patientId: string, history: seq<TreatmentSession>)
    ensures IsHistoryQuery(sessions, patientId, history) ==>
      && |history| == |SessionsOf(sessions, patientId)|
      && forall ts | ts in history :: ts in sessions && ts.patientId == patientId
  {
    SameItems(history, SessionsOf(sessions, patientId));
    multiset(history) == multiset(SessionsOf(sessions, patientId)) && SortedByCreation(history)
  }

  /** Two sequences with the same multiset have the same length and the
      same members. */
  lemma SameItems<T>(a: seq<T>, b: seq<T>)
    ensures multiset(a) == multiset(b) ==> |a| == |b| && forall x | x in a :: x in b
  {
    if multiset(a) == multiset(b) {
      assert |a| == |multiset(a)| == |multiset(b)| == |b|;
      forall x | x in a ensures x in b {
        assert x in multiset(a);
      }
    }
  }

  /** The built payload has one history entry per session the query
      returned, in that order; every session of the patient, and no other,
      appears in it; its `timestamp` slot is null. */
  lemma PayloadHistory(sessions: seq<TreatmentSession>, patients: seq<Patient>, patientId: string,
                       departmentId: int, history: seq<TreatmentSession>)
    requires FindPatient(patients, patientId).Some?
    requires IsHistoryQuery(sessions, patientId, history)
    ensures var r := BuildPatientPayload(patients, patientId, departmentId, history);
      && r.Ok?
      && r.value.fields[1].value == ContextJson(departmentId, JNull)
      && r.value.fields[2].key == "treatment_history"
      && var items := r.value.fields[2].value.items;
      && |items| == |SessionsOf(sessions, patientId)|
      && (forall k | 0 <= k < |items| :: items[k] == SessionJson(history[k]))
      && (forall ts | ts in sessions && ts.patientId == patientId :: SessionJson(ts) in items)
      && (forall k | 0 <= k < |items| :: history[k].patientId == patientId)
      && SortedByCreation(history)
  {
    var p := FindPatient(patients, patientId).value;
    assert BuildPatientPayload(patients, patientId, departmentId, history) == Ok(PayloadOf(p, departmentId, history, JNull));
    HistoryItems(sessions, patientId, history);
  }

  /** The history entries of a query result: one per session of the
      patient, each built from its session. */
  lemma HistoryItems(sessions: seq<TreatmentSession>, patientId: string, history: seq<TreatmentSession>)
    requires IsHistoryQuery(sessions, patientId, history)
    ensures var items := MapSeq(SessionJson, history);
      && |items| == |SessionsOf(sessions, patientId)|
      && (forall ts | ts in sessions && ts.patientId == patientId :: SessionJson(ts) in items)
      && (forall k | 0 <= k < |items| :: history[k].patientId == patientId)
  {
    var items := MapSeq(SessionJson, history);
    assert |history| == |multiset(history)| == |multiset(SessionsOf(sessions, patientId))| == |SessionsOf(sessions, patientId)|;
    forall ts | ts in sessions && ts.patientId == patientId ensures SessionJson(ts) in items {
      SessionsOfComplete(sessions, patientId, ts);
      assert ts in multiset(history);
      var k :| 0 <= k < |history| && history[k] == ts;
      assert items[k] == SessionJson(ts);
    }
    forall k | 0 <= k < |items| ensures history[k].patientId == patientId {
      assert history[k] in multiset(SessionsOf(sessions, patientId));
    }
  }

  lemma {:induction false} SessionsOfComplete(sessions: seq<TreatmentSession>, patientId: string, ts: TreatmentSession)
    requires ts in sessions && ts.patientId == patientId
    ensures ts in SessionsOf(sessions, patientId)
  {
    if sessions[0] != ts {
      SessionsOfComplete(sessions[1..], patientId, ts);
    }
  }

  /** Two sorted arrangements of the same sessions with distinct creation
      instants have the same first session. */
  lemma SortedSameHead(a: seq<TreatmentSession>, b: seq<TreatmentSession>)
    requires a != [] && multiset(a) == multiset(b)
    requires SortedByCreation(a) && SortedByCreation(b)
    requires DistinctInstants(a)
    ensures a[0] == b[0]
  {
    assert b[0] in multiset(a);
    assert a[0] in multiset(b);
    var i :| 0 <= i < |a| && a[i] == b[0];
    var j :| 0 <= j < |b| && b[j] == a[0];
    assert CreatedNoLater(a[0].createdAt, a[i].createdAt);
    assert CreatedNoLater(b[0].createdAt, b[j].createdAt);
    assert UniqueInstant(a, 0, i) ==> i == 0;
  }

  /** Creation instants tell the sessions of a list apart: none two share
      one, and at most one has none. */
  predicate DistinctInstants(h: seq<TreatmentSession>) {
    forall i, j | 0 <= i < j < |h| :: UniqueInstant(h, i, j)
  }

  predicate UniqueInstant(h: seq<TreatmentSession>, i: nat, j: nat)
    requires i < |h| && j < |h|
  {
    var a, b := h[i].createdAt, h[j].createdAt;
    !(CreatedNoLater(a, b) && CreatedNoLater(b, a))
  }

  lemma SortedTail(h: seq<TreatmentSession>)
    requires h != [] && SortedByCreation(h)
    ensures SortedByCreation(h[1..])
  {
    forall i, j | 0 <= i < j < |h[1..]| ensures CreatedNoLater(h[1..][i].createdAt, h[1..][j].createdAt) {
      assert h[1..][i] == h[i + 1] && h[1..][j] == h[j + 1];
    }
  }

  lemma DistinctTail(h: seq<TreatmentSession>)
    requires h != [] && DistinctInstants(h)
    ensures DistinctInstants(h[1..])
  {
    forall i, j | 0 <= i < j < |h[1..]| ensures UniqueInstant(h[1..], i, j) {
      assert UniqueInstant(h, i + 1, j + 1);
    }
  }

  /** Removing the same first item from two arrangements of the same items
      leaves arrangements of the same items. */
  lemma TailsSameItems(a: seq<TreatmentSession>, b: seq<TreatmentSession>)
    requires a != [] && multiset(a) == multiset(b) && a[0] == b[0]
    ensures b != [] && multiset(a[1..]) == multiset(b[1..])
  {
    assert a == [a[0]] + a[1..];
    assert b == [b[0]] + b[1..];
    assert multiset(a[1..]) == multiset(a) - multiset{a[0]};
    assert multiset(b[1..]) == multiset(b) - multiset{b[0]};
  }

  /** With distinct creation instants the session query has one answer. */
  lemma {:induction false} HistoryDetermined(a: seq<TreatmentSession>, b: seq<TreatmentSession>)
    requires multiset(a) == multiset(b)
    requires SortedByCreation(a) && SortedByCreation(b)
    requires DistinctInstants(a)
    ensures a == b
    decreases |a|
  {
    if a != [] {
      SortedSameHead(a, b);
      TailsSameItems(a, b);
      SortedTail(a);
      SortedTail(b);
      DistinctTail(a);
      HistoryDetermined(a[1..], b[1..]);
      assert a == [a[0]] + a[1..] && b == [b[0]] + b[1..];
    } else {
      assert |b| == |multiset(b)| == |multiset(a)| == 0;
    }
  }

  // ---------------------------------------------------------------------
  // `payload["transfer_context"]["timestamp"] = …`
  // ---------------------------------------------------------------------

  /** `d.get(key)`: the value of the first item with that key. */
  function Lookup(fields: seq<Field>, key: string): (r: Option<Json>)
    ensures r.Some? ==> Field(key, r.value) in fields
    ensures r.None? <==> forall f | f in fields :: f.key != key
  {
    if fields == [] then None
    else if fields[0].key == key then Some(fields[0].value)
    else Lookup(fields[1..], key)
  }

  /** `d[key] = v`: replaces the value in place, or appends a new item. */
  function DictSet(fields: seq<Field>, key: string, v: Json): seq<Field> {
    if fields == [] then [Field(key, v)]
    else if fields[0].key == key then [Field(key, v)] + fields[1..]
    else [fields[0]] + DictSet(fields[1..], key, v)
  }

  /** After `d[key] = v`, `d.get(key)` is `v`. */
  lemma {:induction false} DictSetLookup(fields: seq<Field>, key: string, v: Json)
    ensures Lookup(DictSet(fields, key, v), key) == Some(v)
  {
    if fields != [] && fields[0].key != key {
      DictSetLookup(fields[1..], key, v);
    }
  }

  /** `d[key] = v` on a key already present keeps every item in its place
      with its key. */
  lemma {:induction false} DictSetInPlace(fields: seq<Field>, key: string, v: Json)
    requires Lookup(fields, key).Some?
    ensures |DictSet(fields, key, v)| == |fields|
    ensures forall i | 0 <= i < |fields| :: DictSet(fields, key, v)[i].key == fields[i].key
  {
    if fields[0].key != key {
      var r := DictSet(fields[1..], key, v);
      DictSetInPlace(fields[1..], key, v);
      var d := DictSet(fields, key, v);
      assert d == [fields[0]] + r;
      forall i | 1 <= i < |fields| ensures d[i].key == fields[i].key {
        assert d[i] == r[i - 1] && fields[i] == fields[1..][i - 1];
      }
    }
  }

  /** `d[key] = v` on a new key appends the item last. */
  lemma {:induction false} DictSetAppends(fields: seq<Field>, key: string, v: Json)
    requires Lookup(fields, key).None?
    ensures DictSet(fields, key, v) == fields + [Field(key, v)]
  {
    if fields != [] {
      DictSetAppends(fields[1..], key, v);
      assert fields == [fields[0]] + fields[1..];
    }
  }

  /** After `d[key] = v`, every other key keeps its value. */
  lemma {:induction false} DictSetKeepsOthers(fields: seq<Field>, key: string, v: Json)
    ensures forall other | other != key :: Lookup(DictSet(fields, key, v), other) == Lookup(fields, other)
  {
    if fields != [] && fields[0].key != key {
      DictSetKeepsOthers(fields[1..], key, v);
    }
  }

  /** Assigns the `timestamp` slot of the `transfer_context` dict; `None`
      when the payload has no such dict (the assignment would raise). */
  function SetTimestamp(payload: Json, timestamp: Json): (r: Option<Json>)
    ensures r.Some? <==> payload.JObj? && Lookup(payload.fields, "transfer_context").Some?
                         && Lookup(payload.fields, "transfer_context").value.JObj?
    ensures r.Some? ==>
      && r.value.JObj? && |r.value.fields| == |payload.fields|
      && (forall i | 0 <= i < |payload.fields| :: r.value.fields[i].key == payload.fields[i].key)
      && (forall k | k != "transfer_context" :: Lookup(r.value.fields, k) == Lookup(payload.fields, k))
    ensures r.Some? ==>
      var context, context0 := Lookup(r.value.fields, "transfer_context"), Lookup(payload.fields, "transfer_context");
      && context.Some? && context.value.JObj?
      && Lookup(context.value.fields, "timestamp") == Some(timestamp)
      && (forall k | k != "timestamp" :: Lookup(context.value.fields, k) == Lookup(context0.value.fields, k))
  {
    if !payload.JObj? then None
    else match Lookup(payload.fields, "transfer_context")
      case Some(JObj(context)) =>
        var context1 := JObj(DictSet(context, "timestamp", timestamp));
        DictSetLookup(context, "timestamp", timestamp);
        DictSetKeepsOthers(context, "timestamp", timestamp);
        DictSetLookup(payload.fields, "transfer_context", context1);
        DictSetInPlace(payload.fields, "transfer_context", context1);
        DictSetKeepsOthers(payload.fields, "transfer_context", context1);
        Some(JObj(DictSet(payload.fields, "transfer_context", context1)))
      case _ => None
  }

  /** Setting the timestamp of a built payload fills its slot and changes
      nothing else. */
  lemma SetTimestampOfPayload(p: Patient, departmentId: int, history: seq<TreatmentSession>, t: Json)
    ensures SetTimestamp(PayloadOf(p, departmentId, history, JNull), t) == Some(PayloadOf(p, departmentId, history, t))
  {
    SetTimestampOfShape(PatientJson(p), JInt(departmentId), JArr(MapSeq(SessionJson, history)), t);
  }

  /** The same, for any values in the three slots. */
  lemma SetTimestampOfShape(patient: Json, department: Json, history: Json, t: Json)
    ensures var c0 := JObj([Field("department_id", department), Field("timestamp", JNull)]);
      var c1 := JObj([Field("department_id", department), Field("timestamp", t)]);
      SetTimestamp(JObj([Field("patient", patient), Field("transfer_context", c0), Field("treatment_history", history)]), t)
        == Some(JObj([Field("patient", patient), Field("transfer_context", c1), Field("treatment_history", history)]))
  {
    var f0, f2 := Field("patient", patient), Field("treatment_history", history);
    var d := Field("department_id", department);
    var c0, c1 := [d, Field("timestamp", JNull)], [d, Field("timestamp", t)];
    assert "patient"[0] != "transfer_context"[0] && "department_id"[0] != "timestamp"[0];
    SecondOfThree(f0, Field("transfer_context", JObj(c0)), f2, JObj(c1));
    SecondOfTwo(d, Field("timestamp", JNull), t);
  }

  lemma SecondOfThree(a: Field, b: Field, c: Field, v: Json)
    requires a.key != b.key
    ensures Lookup([a, b, c], b.key) == Some(b.value)
    ensures DictSet([a, b, c], b.key, v) == [a, Field(b.key, v), c]
  {
    assert [a, b, c][1..] == [b, c];
    assert [b, c][1..] == [c];
  }

  lemma SecondOfTwo(a: Field, b: Field, v: Json)
    requires a.key != b.key
    ensures DictSet([a, b], b.key, v) == [a, Field(b.key, v)]
  {
    assert [a, b][1..] == [b];
    assert [b][1..] == [];
  }

  /** The payload both sides hash: the built payload with `timestamp` set
      to the transfer's `transferred_at`, or null. */
  function TimestampedPayload(patients: seq<Patient>, patientId: string, departmentId: int,
                              history: seq<TreatmentSession>, transferredAt: Option<Timestamp>): (r: Result<Json, PayloadError>)
    ensures r.Ok? <==> FindPatient(patients, patientId).Some?
    ensures r.Ok? ==> r.value == PayloadOf(FindPatient(patients, patientId).value, departmentId, history,
                                           TimestampOrNull(transferredAt))
  {
    match BuildPatientPayload(patients, patientId, departmentId, history)
    case Err(e) => Err(e)
    case Ok(payload) =>
      SetTimestampOfPayload(FindPatient(patients, patientId).value, departmentId, history, TimestampOrNull(transferredAt));
      Ok(SetTimestamp(payload, TimestampOrNull(transferredAt)).value)
  }

  // ---------------------------------------------------------------------
  // History order reaches the checksum
  // ---------------------------------------------------------------------

  /** Sessions with different ids have different canonical entries. */
  lemma SessionCanonDiffers(s1: TreatmentSession, s2: TreatmentSession)
    requires s1.sessionId != s2.sessionId
    ensures Canon(SessionJson(s1)) != Canon(SessionJson(s2))
  {
    FieldValueMatters(SessionJson(s1).fields, SessionJson(s2).fields, 0, 0);
  }

  /** Two sessions created at the same instant: the session query may return
      them in either order (the ordering has no tiebreaker). */
  lemma TiedSessionsEitherOrder(sessions: seq<TreatmentSession>, patientId: string,
                                s1: TreatmentSession, s2: TreatmentSession)
    requires sessions == [s1, s2]
    requires s1.patientId == patientId && s2.patientId == patientId
    requires s1.createdAt == s2.createdAt
    ensures IsHistoryQuery(sessions, patientId, [s1, s2]) && IsHistoryQuery(sessions, patientId, [s2, s1])
  {
    PairSessions(s1, s2, patientId);
    SortedPair(s1, s2);
    SortedPair(s2, s1);
    assert multiset([s2, s1]) == multiset([s1, s2]);
  }

  lemma PairSessions(s1: TreatmentSession, s2: TreatmentSession, patientId: string)
    requires s1.patientId == patientId && s2.patientId == patientId
    ensures SessionsOf([s1, s2], patientId) == [s1, s2]
  {
    var sessions := [s1, s2];
    assert sessions[1..] == [s2] && sessions[1..][1..] == [];
    assert SessionsOf(sessions[1..][1..], patientId) == [];
    assert SessionsOf(sessions[1..], patientId) == [s2];
  }

  lemma SortedPair(s1: TreatmentSession, s2: TreatmentSession)
    requires CreatedNoLater(s1.createdAt, s2.createdAt)
    ensures SortedByCreation([s1, s2])
  {
  }

  /** Swapping two sessions of the history changes the payload's canonical
      text. */
  lemma SwappedSessionsChangeText(p: Patient, departmentId: int, t: Json,
                                  s1: TreatmentSession, s2: TreatmentSession)
    requires s1.sessionId != s2.sessionId
    ensures CanonicalText(PayloadOf(p, departmentId, [s1, s2], t))
         != CanonicalText(PayloadOf(p, departmentId, [s2, s1], t))
  {
    SwappedHistoryDiffers(s1, s2);
    HistoryChangesText(PatientJson(p), ContextJson(departmentId, t),
                       JArr(MapSeq(SessionJson, [s1, s2])), JArr(MapSeq(SessionJson, [s2, s1])));
  }

  /** Payloads that differ in their history differ in canonical text. */
  lemma HistoryChangesText(patient: Json, context: Json, h1: Json, h2: Json)
    requires Canon(h1) != Canon(h2)
    ensures var f1 := [Field("patient", patient), Field("transfer_context", context), Field("treatment_history", h1)];
      var f2 := [Field("patient", patient), Field("transfer_context", context), Field("treatment_history", h2)];
      CanonicalText(JObj(f1)) != CanonicalText(JObj(f2))
  {
    var f1 := [Field("patient", patient), Field("transfer_context", context), Field("treatment_history", h1)];
    var f2 := [Field("patient", patient), Field("transfer_context", context), Field("treatment_history", h2)];
    JsonParse.FieldValueChangesText(f1, f2, 2, 2);
  }

  lemma SwappedHistoryDiffers(s1: TreatmentSession, s2: TreatmentSession)
    requires s1.sessionId != s2.sessionId
    ensures Canon(JArr(MapSeq(SessionJson, [s1, s2]))) != Canon(JArr(MapSeq(SessionJson, [s2, s1])))
  {
    var h1, h2 := MapSeq(SessionJson, [s1, s2]), MapSeq(SessionJson, [s2, s1]);
    assert h1[0] == SessionJson(s1) && h2[0] == SessionJson(s2);
    SessionCanonDiffers(s1, s2);
    ArrayHeadMatters(h1, h2);
  }
}
