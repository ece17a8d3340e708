/** The transfer record and its integrity check
    (app/models/data_transfer.py; app/services/transfer_service.py,
    `create_transfer_checksum` and `verify_transfer_checksum`). */
module Transfer {
  import opened Wrappers
  import opened Json
  import opened IsoFormat
  import opened Checksum
  import opened Payload

  /** `transfer_status`, an enum column defaulting to "pending". */
  datatype TransferStatus = Pending | Verified | Accepted | Rejected | Failed

  /** The checksum both hospitals compute for a transfer: the hex digest of
      the patient payload whose `timestamp` slot holds `transferred_at`. */
  function TransferChecksum(patients: seq<Patient>, patientId: string, departmentId: int,
                            history: seq<TreatmentSession>, transferredAt: Option<Timestamp>,
                            sha256: Sha256): (r: Result<string, PayloadError>)
    ensures r.Ok? <==> FindPatient(patients, patientId).Some?
    ensures r.Ok? ==> |r.value| == 64
  {
    match TimestampedPayload(patients, patientId, departmentId, history, transferredAt)
    case Err(e) => Err(e)
    case Ok(payload) => Ok(GenerateChecksum(payload, sha256))
  }

  /** What `verify_transfer_checksum` returns for a transfer whose stored
      checksum is `original`: an error when the payload cannot be rebuilt,
      otherwise whether the stored checksum equals the recomputed one. */
  function ChecksumMatches(original: Option<string>, patients: seq<Patient>, patientId: string,
                           departmentId: int, history: seq<TreatmentSession>,
                           transferredAt: Option<Timestamp>, sha256: Sha256): (r: Result<bool, PayloadError>)
    ensures r.Ok? <==> FindPatient(patients, patientId).Some?
    ensures r.Err? ==> r.error == PatientNotFound
    ensures r == Ok(true) ==> original.Some? && |original.value| == 64
  {
    match TransferChecksum(patients, patientId, departmentId, history, transferredAt, sha256)
    case Err(e) => Err(e)
    case Ok(c) => Ok(original == Some(c))
  }

  /** A transfer that was never checksummed never verifies. */
  lemma NoOriginalNeverMatches(patients: seq<Patient>, patientId: string, departmentId: int,
                               history: seq<TreatmentSession>, transferredAt: Option<Timestamp>, sha256: Sha256)
    ensures ChecksumMatches(None, patients, patientId, departmentId, history, transferredAt, sha256)
         != Ok(true)
    ensures ChecksumMatches(None, patients, patientId, departmentId, history, transferredAt, sha256).Ok?
        <==> FindPatient(patients, patientId).Some?
  {
  }

  /** Verification on the data the checksum was created from succeeds. */
  lemma CreatedChecksumMatches(patients: seq<Patient>, patientId: string, departmentId: int,
                               history: seq<TreatmentSession>, transferredAt: Option<Timestamp>, sha256: Sha256)
    requires FindPatient(patients, patientId).Some?
    ensures var c := TransferChecksum(patients, patientId, departmentId, history, transferredAt, sha256).value;
      ChecksumMatches(Some(c), patients, patientId, departmentId, history, transferredAt, sha256) == Ok(true)
  {
  }

  /** Checksum and verification each run the session query once. Whatever
      the two runs return, if no two of the patient's sessions share a
      creation instant, verification of unchanged data succeeds. */
  lemma QueryResultsVerify(patients: seq<Patient>, sessions: seq<TreatmentSession>,
                           patientId: string, departmentId: int,
                           history1: seq<TreatmentSession>, history2: seq<TreatmentSession>,
                           transferredAt: Option<Timestamp>, sha256: Sha256)
    requires FindPatient(patients, patientId).Some?
    requires IsHistoryQuery(sessions, patientId, history1) && IsHistoryQuery(sessions, patientId, history2)
    requires DistinctInstants(history1)
    ensures var c := TransferChecksum(patients, patientId, departmentId, history1, transferredAt, sha256).value;
      ChecksumMatches(Some(c), patients, patientId, departmentId, history2, transferredAt, sha256) == Ok(true)
  {
    HistoryDetermined(history1, history2);
    CreatedChecksumMatches(patients, patientId, departmentId, history1, transferredAt, sha256);
  }

  /** Verification succeeds exactly when the payload rebuilt at
      verification time has the same canonical form as the one the checksum
      was created from, or when the hash collides on their two texts. */
  lemma MatchesIffSamePayload(patients1: seq<Patient>, history1: seq<TreatmentSession>,
                              patients2: seq<Patient>, history2: seq<TreatmentSession>,
                              patientId: string, departmentId: int,
                              transferredAt: Option<Timestamp>, sha256: Sha256)
    requires FindPatient(patients1, patientId).Some? && FindPatient(patients2, patientId).Some?
    ensures var c := TransferChecksum(patients1, patientId, departmentId, history1, transferredAt, sha256).value;
      var p1 := TimestampedPayload(patients1, patientId, departmentId, history1, transferredAt).value;
      var p2 := TimestampedPayload(patients2, patientId, departmentId, history2, transferredAt).value;
      (ChecksumMatches(Some(c), patients2, patientId, departmentId, history2, transferredAt, sha256) == Ok(true)
       <==> Canon(p1) == Canon(p2) || Collides(sha256, CanonicalText(p1), CanonicalText(p2)))
  {
    var p1 := TimestampedPayload(patients1, patientId, departmentId, history1, transferredAt).value;
    var p2 := TimestampedPayload(patients2, patientId, departmentId, history2, transferredAt).value;
    ChecksumDetectsChange(p1, p2, sha256);
  }

  /** Two sessions of the patient created at the same instant: if the
      source's query returned them in one order and the target's in the
      other, verification fails on unchanged data unless the hash collides
      on the two payload texts. */
  lemma TiedSessionsCanFailVerification(patients: seq<Patient>, sessions: seq<TreatmentSession>,
                                        patientId: string, departmentId: int,
                                        transferredAt: Option<Timestamp>, sha256: Sha256,
                                        s1: TreatmentSession, s2: TreatmentSession)
    requires FindPatient(patients, patientId).Some?
    requires sessions == [s1, s2]
    requires s1.patientId == patientId && s2.patientId == patientId
    requires s1.createdAt == s2.createdAt && s1.sessionId != s2.sessionId
    ensures IsHistoryQuery(sessions, patientId, [s1, s2]) && IsHistoryQuery(sessions, patientId, [s2, s1])
    ensures var c := TransferChecksum(patients, patientId, departmentId, [s1, s2], transferredAt, sha256).value;
      var p, t := FindPatient(patients, patientId).value, TimestampOrNull(transferredAt);
      || ChecksumMatches(Some(c), patients, patientId, departmentId, [s2, s1], transferredAt, sha256) == Ok(false)
      || Collides(sha256, CanonicalText(PayloadOf(p, departmentId, [s1, s2], t)),
                          CanonicalText(PayloadOf(p, departmentId, [s2, s1], t)))
  {
    TiedSessionsEitherOrder(sessions, patientId, s1, s2);
    var p := FindPatient(patients, patientId).value;
    var t := TimestampOrNull(transferredAt);
    SwappedSessionsChangeText(p, departmentId, t, s1, s2);
    JsonParse.CanonicalTextIff(PayloadOf(p, departmentId, [s1, s2], t), PayloadOf(p, departmentId, [s2, s1], t));
    DifferentHistoriesFail(patients, patientId, departmentId, [s1, s2], [s2, s1], transferredAt, sha256);
  }

  /** A history whose payload differs in canonical form from the one
      checksummed fails verification, unless the hash collides on the two
      payload texts. */
  lemma DifferentHistoriesFail(patients: seq<Patient>, patientId: string, departmentId: int,
                               history1: seq<TreatmentSession>, history2: seq<TreatmentSession>,
                               transferredAt: Option<Timestamp>, sha256: Sha256)
    requires FindPatient(patients, patientId).Some?
    requires var p, t := FindPatient(patients, patientId).value, TimestampOrNull(transferredAt);
      Canon(PayloadOf(p, departmentId, history1, t)) != Canon(PayloadOf(p, departmentId, history2, t))
    ensures var c := TransferChecksum(patients, patientId, departmentId, history1, transferredAt, sha256).value;
      var p, t := FindPatient(patients, patientId).value, TimestampOrNull(transferredAt);
      || ChecksumMatches(Some(c), patients, patientId, departmentId, history2, transferredAt, sha256) == Ok(false)
      || Collides(sha256, CanonicalText(PayloadOf(p, departmentId, history1, t)),
                          CanonicalText(PayloadOf(p, departmentId, history2, t)))
  {
    MatchesIffSamePayload(patients, history1, patients, history2, patientId, departmentId, transferredAt, sha256);
  }

  /** `create_transfer_checksum` on the builder as written: it raises for
      every patient with a session, and otherwise stores what the corrected
      builder gives. */
  function TransferChecksumAsWritten(patients: seq<Patient>, patientId: string, departmentId: int,
                                     history: seq<TreatmentSession>, transferredAt: Option<Timestamp>,
                                     sha256: Sha256): (r: Result<string, PayloadError>)
    ensures r.Ok? <==> FindPatient(patients, patientId).Some? && history == []
    ensures FindPatient(patients, patientId).Some? && history != [] ==> r == Err(MissingNotes)
    ensures r.Ok? ==> r == TransferChecksum(patients, patientId, departmentId, history, transferredAt, sha256)
  {
    match BuildPatientPayloadAsWritten(patients, patientId, departmentId, history)
    case Err(e) => Err(e)
    case Ok(payload) =>
      SetTimestampOfPayload(FindPatient(patients, patientId).value, departmentId, history, TimestampOrNull(transferredAt));
      Ok(GenerateChecksum(SetTimestamp(payload, TimestampOrNull(transferredAt)).value, sha256))
  }

  /** A row of `data_transfers`. */
  class DataTransfer {
    var transferId: nat
    var patientId: string
    var sourceHospital: int
    var targetHospital: int
    var departmentId: int
    var initiatedByStaff: int
    var checksumOriginal: Option<string>
    var checksumVerified: Option<string>
    var transferStatus: TransferStatus
    var transferredAt: Option<Timestamp>

    /** A new transfer: both checksums empty, status "pending". */
    constructor(transferId: nat, patientId: string, sourceHospital: int, targetHospital: int,
                departmentId: int, initiatedByStaff: int, transferredAt: Option<Timestamp>)
      ensures this.transferId == transferId && this.patientId == patientId
      ensures this.sourceHospital == sourceHospital && this.targetHospital == targetHospital
      ensures this.departmentId == departmentId && this.initiatedByStaff == initiatedByStaff
      ensures this.transferredAt == transferredAt
      ensures checksumOriginal.None? && checksumVerified.None? && transferStatus == Pending
    {
      this.transferId := transferId;
      this.patientId := patientId;
      this.sourceHospital := sourceHospital;
      this.targetHospital := targetHospital;
      this.departmentId := departmentId;
      this.initiatedByStaff := initiatedByStaff;
      this.transferredAt := transferredAt;
      checksumOriginal := None;
      checksumVerified := None;
      transferStatus := Pending;
    }

    /** `verify_transfer_checksum(transfer)`: rebuilds the payload from the
        current tables and compares its checksum with the stored one;
        writes nothing. */
    function VerifyTransferChecksum(patients: seq<Patient>, history: seq<TreatmentSession>, sha256: Sha256)
      : (r: Result<bool, PayloadError>)
      reads this
      ensures r.Ok? <==> FindPatient(patients, patientId).Some?
      ensures r.Ok? ==>
        var c := TransferChecksum(patients, patientId, departmentId, history, transferredAt, sha256).value;
        (r.value <==> checksumOriginal == Some(c))
    {
      ChecksumMatches(checksumOriginal, patients, patientId, departmentId, history, transferredAt, sha256)
    }

    /** `create_transfer_checksum(transfer)`: stores the checksum of the
        current payload in `checksum_original` and touches no other field.
        A missing patient raises before anything is stored. */
    method CreateTransferChecksum(patients: seq<Patient>, history: seq<TreatmentSession>, sha256: Sha256)
      returns (r: Result<(), PayloadError>)
      modifies this`checksumOriginal
      ensures r.Ok? <==> FindPatient(patients, patientId).Some?
      ensures r.Ok? ==>
        checksumOriginal == Some(TransferChecksum(patients, patientId, departmentId, history, transferredAt, sha256).value)
      ensures r.Err? ==> checksumOriginal == old(checksumOriginal)
      ensures r.Ok? ==> VerifyTransferChecksum(patients, history, sha256) == Ok(true)
    {
      var payload := BuildPatientPayload(patients, patientId, departmentId, history);
      if payload.Err? {
        return Err(payload.error);
      }
      var p, t := FindPatient(patients, patientId).value, TimestampOrNull(transferredAt);
      var stamped := SetTimestamp(payload.value, t);
      SetTimestampOfPayload(p, departmentId, history, t);
      assert stamped == Some(PayloadOf(p, departmentId, history, t));
      checksumOriginal := Some(GenerateChecksum(stamped.value, sha256));
      assert checksumOriginal == Some(TransferChecksum(patients, patientId, departmentId, history, transferredAt, sha256).value);
      r := Ok(());
    }
  }
}
