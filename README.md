# Patient transfer core of the hospital network

This project is a Dafny model of the patient-transfer core of a Flask
application that runs a network of hospitals. The model covers:

- **Transfer service**:
  - builds the graph of directed hospital connections;
  - scores a candidate hospital from the first connection to it;
  - lists the hospitals that have the requested department;
  - ranks the candidates by descending score;
  - builds the patient payload (patient, transfer context, treatment history);
  - stores a checksum of that payload on the transfer record;
  - later rebuilds the payload and compares checksums.
- **Checksum service**: SHA-256 of `json.dumps(payload, sort_keys=True, default=str)`, as a hex digest.
- **Super-admin connection routes**:
  - adding a connection rejects a self-link and a duplicate in the same direction, and adds the reverse row with the same metrics when it is missing;
  - deleting a connection by key answers 404 for an unknown key and leaves the reverse row in place.

Modules:

| module | file | models |
|---|---|---|
| `Wrappers` | wrappers.dfy | `Option`, `Result` |
| `Models` | models.dfy | rows of `hospitals`, `departments`, `hospital_connections` |
| `Json` | json.dfy | JSON values and the `json.dumps` writer, with `sort_keys` (`SortFields`) and `default=str` (`Canon`) |
| `JsonParse` | json_parse.dfy | a reader for that text, used to prove the writer loses nothing |
| `IsoFormat` | isoformat.dfy | `date.isoformat()` and `datetime.isoformat()` |
| `Checksum` | checksum.dfy | `generate_checksum` |
| `TransferGraph` | graph.dfy | `build_graph`, `score_hospital`, `get_candidate_hospitals` |
| `Ranking` | ranking.dfy | `compute_hospital_scores` and Python's stable sort |
| `Payload` | payload.dfy | `build_patient_payload`, the session query, the timestamp assignment |
| `Transfer` | transfer.dfy | the `DataTransfer` record, `create_transfer_checksum`, `verify_transfer_checksum` |
| `Connections` | connections.dfy | the connection table and the add/delete routes |

How the source's behaviour is represented:

- **Database tables** are sequences of rows in table order.
- **The session query** (`order_by(created_at)`, no tiebreaker) is a relation, `IsHistoryQuery`. Any permutation of the patient's sessions that is sorted by creation time is a possible result.
- **The hash** is a parameter `sha256: string -> Digest`. Nothing assumes it is free of collisions. A lemma that relates checksums to payload contents names the one pair of canonical texts involved: its conclusion holds unless `Collides(sha256, s, t)`, that is, unless the hash maps those two different texts to the same digest.
- **The connection table's state** is a class whose methods update `rows` and `nextId`. The auto-increment key is `nextId`.
- **The transfer record** is a class. `CreateTransferChecksum` may write only `checksumOriginal`. `VerifyTransferChecksum` is a function that reads the record and writes nothing.

## Model

| member | source | states |
|---|---|---|
| Checksum.GenerateChecksum | app/services/checksum_service.py:4-9 | the checksum is 64 lower-case hexadecimal characters |
| Checksum.UnHexHexDigest | app/services/checksum_service.py:9 | the hex digest can be read back into the digest bytes it came from |
| Checksum.HexDigestInjective | app/services/checksum_service.py:9 | two digests have the same hex text if and only if they are equal |
| Checksum.ChecksumIgnoresInsertionOrder | app/services/checksum_service.py:8 | two dicts with the same items, inserted in different orders, get the same checksum |
| Checksum.ChecksumDetectsChange | app/services/checksum_service.py:4-9 | two payloads have equal checksums if and only if their canonical contents are equal or the hash collides on their two canonical texts; equal contents always give equal checksums |
| Checksum.ChecksumKeepsListOrder | app/services/checksum_service.py:8 | swapping two list items of different content changes the checksum, unless the hash collides on the two texts |
| Checksum.ChecksumOfOther | app/services/checksum_service.py:8 | a non-JSON value (`default=str`) hashes the same as the string of its `str()` |
| Json.Canon | app/services/checksum_service.py:8 | after `default=str` no non-JSON value is left; arrays stay arrays and dicts stay dicts; a dict's keys are written in non-decreasing order |
| Json.SortAscending | app/services/checksum_service.py:8 | `sort_keys` writes a dict with distinct keys in strictly ascending key order |
| Json.SortIgnoresInsertionOrder | app/services/checksum_service.py:8 | two arrangements of the same dict items sort to the same sequence |
| Json.CanonObjectIff | app/services/checksum_service.py:8 | two dicts have the same canonical form if and only if their canonical items are the same multiset |
| Json.InsertionOrderIrrelevant | app/services/checksum_service.py:8 | dict insertion order does not change the canonical text |
| JsonParse.ParseWrite | app/services/checksum_service.py:8 | reading the written text of a converted value gives the value back |
| JsonParse.CanonicalTextIff | app/services/checksum_service.py:8 | two values have equal canonical texts if and only if their canonical forms are equal |
| JsonParse.ListOrderMatters | app/services/checksum_service.py:8 | list order is kept: swapping two items of different content changes the text |
| IsoFormat.DateText | app/services/transfer_service.py:22 | `date.isoformat()` is 10 characters long |
| IsoFormat.DateTimeText | app/services/transfer_service.py:44 | `datetime.isoformat()` is 19 characters long, or 26 when there are microseconds |
| IsoFormat.DateTextInjective | app/services/transfer_service.py:22 | two dates have the same text if and only if they are equal |
| IsoFormat.DateTimeTextInjective | app/services/transfer_service.py:44 | two datetimes have the same text if and only if they are equal |
| Payload.FindPatient | app/services/transfer_service.py:11 | the patient found has the requested key; nothing is found if and only if no row has that key |
| Payload.AsWrittenFailsWithHistory | app/services/transfer_service.py:43 | as written, the builder succeeds only for an existing patient with no session; with a session it fails on `ts.notes` |
| Payload.NotesCounterexample | app/services/transfer_service.py:43 | one patient with one session: the as-written builder raises and the corrected one builds the payload |
| Payload.PayloadHistory | app/services/transfer_service.py:10-54 | for an existing patient the payload is built with a null timestamp and one history entry per session, in query order; every session of the patient appears and no other; the history is sorted by creation time |
| Payload.IsHistoryQuery | app/services/transfer_service.py:13-15 | a query result holds as many sessions as the patient has, and only sessions of that patient from the table |
| Payload.HistoryItems | app/services/transfer_service.py:13-15 | the history entries match the patient's sessions one for one, and every session of the patient has its entry |
| Payload.HistoryDetermined | app/services/transfer_service.py:13-15 | when no two sessions share a creation instant, the query result is unique |
| Payload.TiedSessionsEitherOrder | app/services/transfer_service.py:13-15 | two sessions created at the same instant can be returned in either order |
| Payload.SessionCanonDiffers | app/services/transfer_service.py:31 | sessions with different ids give different canonical entries |
| Payload.SwappedSessionsChangeText | app/services/transfer_service.py:29-47 | swapping two sessions with different ids in the history changes the payload's canonical text |
| Payload.BuildPatientPayload | app/services/transfer_service.py:10-54 | with `notes` written as null: the build fails, with patient-not-found, exactly when the patient is missing; otherwise `payload["patient"]` is the patient's dict, `payload["transfer_context"]` holds the department and a null timestamp, and `payload["treatment_history"]` has one entry per session of the query result, in order |
| Payload.BuildPatientPayloadAsWritten | app/services/transfer_service.py:10-54 | as written, the build succeeds exactly for an existing patient with no session; a missing patient gives patient-not-found, a session gives the `notes` error; when it succeeds it agrees with the corrected builder |
| Payload.DictSetLookup | app/services/transfer_service.py:69 | after `d[key] = v`, `d[key]` is `v` |
| Payload.DictSetKeepsOthers | app/services/transfer_service.py:69 | after `d[key] = v`, every other key keeps its value |
| Payload.DictSetInPlace | app/services/transfer_service.py:69 | assigning an existing key keeps the dict's length and every item's key in its place |
| Payload.DictSetAppends | app/services/transfer_service.py:69 | assigning a new key appends it as the last item |
| Payload.SetTimestamp | app/services/transfer_service.py:69 | the assignment succeeds exactly when the payload is a dict whose `transfer_context` is a dict; afterwards `timestamp` holds the value, every other key at both levels keeps its value, and the top-level keys keep their places |
| Payload.SetTimestampOfPayload | app/services/transfer_service.py:69 | setting the timestamp of a built payload fills its slot and changes nothing else |
| Payload.TimestampedPayload | app/services/transfer_service.py:62-69 | the payload that is hashed exists if and only if the patient exists; it is the built payload with `timestamp` set to the ISO text of `transferred_at`, or null |
| Transfer.TransferChecksum | app/services/transfer_service.py:62-71 | a checksum exists if and only if the patient exists; it is 64 characters long |
| Transfer.ChecksumMatches | app/services/transfer_service.py:133-154 | verification raises, with patient-not-found, exactly when the patient is missing; it answers true only when a 64-character checksum is stored |
| Transfer.NoOriginalNeverMatches | app/services/transfer_service.py:147-154 | a transfer without a stored checksum never verifies; verification raises only when the patient is missing |
| Transfer.CreatedChecksumMatches | app/services/transfer_service.py:133-154 | verification on the data the checksum was made from succeeds |
| Transfer.QueryResultsVerify | app/services/transfer_service.py:13-15 | when no two of the patient's sessions share a creation instant, a checksum made on one run of the session query verifies on any other run over unchanged data |
| Transfer.MatchesIffSamePayload | app/services/transfer_service.py:133-154 | verification succeeds if and only if the rebuilt payload has the same canonical form as the one that was hashed, or the hash collides on the two payload texts |
| Transfer.DifferentHistoriesFail | app/services/transfer_service.py:133-154 | a history whose payload differs in canonical form fails verification, unless the hash collides on the two payload texts |
| Transfer.TiedSessionsCanFailVerification | app/services/transfer_service.py:13-15 | two sessions tied on `created_at`: both orders are valid query results, and a checksum made on one order fails verification on the other, unless the hash collides on the two payload texts |
| Transfer.TransferChecksumAsWritten | app/services/transfer_service.py:57-72 | with the builder as written, `create_transfer_checksum` raises for every existing patient with a session; when it succeeds it stores the same checksum as the corrected model |
| Transfer.DataTransfer.constructor | app/models/data_transfer.py:8-20 | a new transfer is pending and has no checksums |
| Transfer.DataTransfer.VerifyTransferChecksum | app/services/transfer_service.py:133-154 | verification raises exactly when the patient is missing; otherwise it answers whether the stored checksum equals the checksum of the current payload; it writes nothing |
| Transfer.DataTransfer.CreateTransferChecksum | app/services/transfer_service.py:57-72 | succeeds if and only if the patient exists, then stores the transfer's checksum in `checksum_original` and nothing else; a failure changes nothing; right after it, verification succeeds |
| TransferGraph.AddEdge | app/services/transfer_service.py:80-85 | `setdefault(...).append(...)` adds the row's source as a key, appends the row's edge at the end of that source's list (a new list when there was none), and leaves every other list unchanged |
| TransferGraph.GraphOf | app/services/transfer_service.py:75-86 | the keys of the built graph are exactly the sources of the rows |
| TransferGraph.BuildGraph | app/services/transfer_service.py:75-86 | the loop builds the graph of the rows added in order |
| TransferGraph.GraphOfLists | app/services/transfer_service.py:75-86 | the graph has a list exactly for the hospitals with an outgoing row, and each list holds the edges of the rows leaving that hospital, in row order |
| TransferGraph.GraphPlacesEveryRow | app/services/transfer_service.py:79-85 | every row appears in its source's list, at its rank among the rows leaving that source |
| TransferGraph.EdgeScore | app/services/transfer_service.py:95 | the score times `1 + cost + latency` is the reliability; it is an error exactly when that divisor is 0 |
| TransferGraph.ScoreEdges | app/services/transfer_service.py:91-97 | the first edge to the target decides the score; without such an edge the score is 0 |
| TransferGraph.ScoreHospital | app/services/transfer_service.py:89-97 | the first edge from the source to the target decides the score; with none, including when the source has no list, the score is 0 |
| TransferGraph.ScannedEdges | app/services/transfer_service.py:91 | `graph.get(source, [])` gives the edges of the rows leaving the source, in row order |
| TransferGraph.ScoreFromFirstRow | app/services/transfer_service.py:89-97 | on the built graph, the first row from the source to the target decides the score |
| TransferGraph.ScoreWithoutRow | app/services/transfer_service.py:89-97 | with no row from the source to the target, the score is 0 |
| TransferGraph.CandidateHospitals | app/services/transfer_service.py:100-109 | the candidates are exactly the hospitals, other than the patient's, that have the department |
| TransferGraph.AtMostOneCandidate | app/services/transfer_service.py:105-108 | a department id is the key of one hospital's department, so there is at most one candidate |
| Ranking.SortByScoreDesc | app/services/transfer_service.py:128 | the sort is a permutation of its input |
| Ranking.SortNonIncreasing | app/services/transfer_service.py:128 | the sorted list is in non-increasing score order |
| Ranking.SortStable | app/services/transfer_service.py:128 | entries with equal scores keep their relative order |
| Ranking.ScoreCandidates | app/services/transfer_service.py:117-125 | the scoring loop gives one entry per candidate, in candidate order, with that candidate's score; it fails exactly when some score fails |
| Ranking.ScoreAndSort | app/services/transfer_service.py:117-129 | the loop followed by the sort computes the ranked list |
| Ranking.ComputeHospitalScores | app/services/transfer_service.py:112-129 | the ranking is computed over the built graph and the candidate list |
| Ranking.Ranked | app/services/transfer_service.py:112-129 | the ranking fails exactly when some candidate's score fails; otherwise it is the scored list rearranged in non-increasing score order |
| Ranking.RankedProperties | app/services/transfer_service.py:112-129 | the ranking has one entry per candidate, each with that candidate's score; it is a permutation of the scored list, non-increasing and stable; it fails exactly when some score fails |
| Connections.AddOutcomeOf | app/routes/superadmin_routes.py:92-132 | a self-link is rejected; a row already in the same direction is rejected; otherwise the connection is created, and the reverse row is added exactly when it is missing |
| Connections.AddRows | app/routes/superadmin_routes.py:107-134 | an add keeps every existing row in place and appends at most two rows |
| Connections.NextIdAfterAdd | app/routes/superadmin_routes.py:107-134 | the key counter advances by exactly the number of rows the add appended |
| Connections.AddRejected | app/routes/superadmin_routes.py:92-105 | a rejected add leaves the rows and the key counter unchanged |
| Connections.AddSucceedsIff | app/routes/superadmin_routes.py:92-105 | an add succeeds if and only if the hospitals differ and no row exists in that direction; a reverse row does not block it |
| Connections.AddAppends | app/routes/superadmin_routes.py:107-134 | a successful add keeps the old rows, then appends the forward row with the given metrics, then the reverse row with the same metrics when it was missing |
| Connections.AddLinksBothWays | app/routes/superadmin_routes.py:107-134 | after a successful add, both directions are present |
| Connections.AddKeepsConsistent | app/routes/superadmin_routes.py:92-134 | adding keeps the table free of self-links and of duplicate rows per direction |
| Connections.AddKeepsKeys | app/routes/superadmin_routes.py:107-134 | adding issues fresh, distinct keys |
| Connections.Without | app/routes/superadmin_routes.py:144-147 | deleting by key keeps exactly the rows with another key, and never adds one |
| Connections.WithoutRemovesOne | app/routes/superadmin_routes.py:144-147 | deleting by key removes exactly the row with that key and keeps the others in order |
| Connections.DeleteKeepsOthers | app/routes/superadmin_routes.py:142-150 | deletion removes one row and that key; it keeps the reverse row, the primary key and the consistency of the table |
| Connections.ConnectionTable.AddHospitalConnection | app/routes/superadmin_routes.py:84-136 | the route reports its outcome and updates the rows and the key counter as `AddRows` and `NextIdAfterAdd` say; it keeps the key invariant and consistency |
| Connections.ConnectionTable.DeleteHospitalConnection | app/routes/superadmin_routes.py:142-150 | answers 404 if and only if the key is absent; otherwise removes that row; it keeps the key invariant and consistency |

## Left out

- HTTP handling is not modelled: redirects, flash text and `get_or_404`'s exception. The model has the outcome value (`AddOutcome`, `found`) instead.
- Access control: the add and delete connection routes check neither a login nor the session's role, unlike `dashboard` and `add_hospital` (app/routes/superadmin_routes.py:19-22, 33-35). The model has no caller identity either, so `AddHospitalConnection` and `DeleteHospitalConnection` accept every caller, as the routes do.
- Form parsing is not modelled: `int(...)` and `float(...)` on form fields are taken as already parsed, and their `ValueError` paths are not modelled.
- SQLAlchemy is not modelled: sessions, commits, rollbacks and lazy loading. A committed table is a sequence of rows, and the auto-increment key is the counter `nextId`.
- Hospital keys are not coerced. The hospitals table declares its key as a string while every referring column is an integer. `HospitalId` keeps both forms, and equality is exact, as in Python. So in `score_hospital` and `get_candidate_hospitals`, an integer and a string never compare equal. The database's own coercion in the SQL filter is not modelled.
- SQL row order is not modelled: the candidate query's order is taken to be table order. The session query's order is modelled only as "sorted by `created_at`", with ties in any order.
- `score_hospital` rounding is left out: `round(score, 4)` is not applied, and scores are exact reals rather than IEEE doubles. A division by zero is an error result (`ZeroDivision`).
- SHA-256 internals and UTF-8 encoding are not modelled: the hash is the parameter `sha256`.
- JSON escapes are simplified. The writer escapes only `"` and `\`. `ensure_ascii` `\uXXXX` escapes are not modelled, and neither are other control characters, `Infinity` or `NaN`. A float column holds its `repr` text.
- `date` and `datetime` bounds are Python's field ranges. Whether a day exists in its month is not checked.
- `created_at` and `transferred_at` are nullable in the model. The first is filled by the database; a missing value sorts first.
- The debug `print` calls in `build_patient_payload` and `verify_transfer_checksum` are not modelled.
- Status and `checksum_verified`: the system's specification has verification store `checksum_verified` and move the status to verified or failed. The code does neither: `verify_transfer_checksum` only returns the comparison, and nothing in this core writes the status or `checksum_verified`. The model follows the code: `VerifyTransferChecksum` writes nothing, and the record only carries those fields.
- Other code is not part of this model: the other routes, the simulation engine, the treatment service and patient access.
- The session query's tie order follows the code. The system's specification says ties are broken by session id, but the code orders by `created_at` only. The model follows the code and proves the consequence (`Transfer.TiedSessionsCanFailVerification`).
- Transfer.TransferChecksum, Transfer.ChecksumMatches, Transfer.DataTransfer.CreateTransferChecksum, Transfer.DataTransfer.VerifyTransferChecksum, Transfer.NoOriginalNeverMatches, Transfer.CreatedChecksumMatches, Transfer.QueryResultsVerify and the other `Transfer` lemmas are stated on the corrected builder (`notes` written as null; see Findings). As written, both routines raise for every existing patient with a session; `Transfer.TransferChecksumAsWritten` states that.
- `checksum_original` may be overwritten. The specification says it is set once and never overwritten, but `create_transfer_checksum` assigns it on every call. The model follows the code: `CreateTransferChecksum` overwrites it.

## Findings

| source | as written | input that shows it | evidently intended | confidence | as-written member | corrected member |
|---|---|---|---|---|---|---|
| app/services/transfer_service.py:43 | each history entry reads `ts.notes`, but `treatment_sessions` has no `notes` column, so building the payload raises `AttributeError` | an existing patient with at least one treatment session (`Payload.NotesCounterexample`) | write `"notes": null` (or leave the key out) so that patients with history can be transferred | not executed | Payload.BuildPatientPayloadAsWritten | Payload.BuildPatientPayload |
