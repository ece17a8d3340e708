/** Maintenance of the `hospital_connections` table by the super-admin
    routes (app/routes/superadmin_routes.py, `add_hospital_connection` and
    `delete_hospital_connection`). */
module Connections {
  import opened Models

  /** Some row goes from `from` to `to`. */
  predicate HasPair(rows: seq<Connection>, from: HospitalId, to: HospitalId) {
    exists c | c in rows :: c.hospitalFrom == from && c.hospitalTo == to
  }

  /** The shape the add route keeps: no hospital linked to itself and at
      most one row per ordered pair. */
  predicate Consistent(rows: seq<Connection>) {
    && (forall i | 0 <= i < |rows| :: rows[i].hospitalFrom != rows[i].hospitalTo)
    && (forall i, j | 0 <= i < j < |rows| ::
          !(rows[i].hospitalFrom == rows[j].hospitalFrom && rows[i].hospitalTo == rows[j].hospitalTo))
  }

  /** The primary key: distinct rows have distinct ids, all below the next
      id the table will issue. */
  predicate KeysValid(rows: seq<Connection>, nextId: nat) {
    && (forall i | 0 <= i < |rows| :: rows[i].connectionId < nextId)
    && (forall i, j | 0 <= i < j < |rows| :: rows[i].connectionId != rows[j].connectionId)
  }

  // ---------------------------------------------------------------------
  // Adding a connection
  // ---------------------------------------------------------------------

  /** What the add route reports (its flash message). */
  datatype AddOutcome = SelfConnection | AlreadyExists | Created(reverseAdded: bool)

  function AddOutcomeOf(rows: seq<Connection>, from: HospitalId, to: HospitalId): (o: AddOutcome)
    ensures o == SelfConnection <==> from == to
    ensures o == AlreadyExists <==> from != to && HasPair(rows, from, to)
    ensures o.Created? ==> (o.reverseAdded <==> !HasPair(rows, to, from))
  {
    if from == to then SelfConnection
    else if HasPair(rows, from, to) then AlreadyExists
    else Created(!HasPair(rows, to, from))
  }

  /** The rows after an add: `from -> to` with the given metrics, then
      `to -> from` with the same metrics when no such row was there. */
  function AddRows(rows: seq<Connection>, nextId: nat, from: HospitalId, to: HospitalId,
                   cost: real, latency: real, reliability: real): (r: seq<Connection>)
    ensures |rows| <= |r| <= |rows| + 2
    ensures r[..|rows|] == rows
  {
    match AddOutcomeOf(rows, from, to)
    case Created(reverseAdded) =>
      rows + [Connection(nextId, from, to, cost, latency, reliability)]
           + (if reverseAdded then [Connection(nextId + 1, to, from, cost, latency, reliability)] else [])
    case _ => rows
  }

  function NextIdAfterAdd(rows: seq<Connection>, nextId: nat, from: HospitalId, to: HospitalId): (r: nat)
    ensures forall cost, latency, reliability ::
      r == nextId + |AddRows(rows, nextId, from, to, cost, latency, reliability)| - |rows|
  {
    match AddOutcomeOf(rows, from, to)
    case Created(reverseAdded) => if reverseAdded then nextId + 2 else nextId + 1
    case _ => nextId
  }

  /** A rejected add changes nothing: a self-link, or an existing row in the
      same direction. */
  lemma AddRejected(rows: seq<Connection>, nextId: nat, from: HospitalId, to: HospitalId,
                    cost: real, latency: real, reliability: real)
    requires from == to || HasPair(rows, from, to)
    ensures AddRows(rows, nextId, from, to, cost, latency, reliability) == rows
    ensures NextIdAfterAdd(rows, nextId, from, to) == nextId
  {
  }

  /** An add succeeds exactly when it links two different hospitals with no
      row yet in that direction: a row in the other direction does not
      block it. */
  lemma AddSucceedsIff(rows: seq<Connection>, from: HospitalId, to: HospitalId)
    ensures AddOutcomeOf(rows, from, to).Created? <==> from != to && !HasPair(rows, from, to)
  {
  }

  /** A successful add keeps every existing row as it was and appends one
      row, or two when the reverse direction was missing; the first carries
      the given metrics, the second the same metrics reversed. */
  lemma AddAppends(rows: seq<Connection>, nextId: nat, from: HospitalId, to: HospitalId,
                   cost: real, latency: real, reliability: real)
    requires AddOutcomeOf(rows, from, to).Created?
    ensures var r := AddRows(rows, nextId, from, to, cost, latency, reliability);
      && r[..|rows|] == rows
      && |r| == |rows| + (if HasPair(rows, to, from) then 1 else 2)
      && r[|rows|] == Connection(nextId, from, to, cost, latency, reliability)
      && (!HasPair(rows, to, from) ==> r[|rows| + 1] == Connection(nextId + 1, to, from, cost, latency, reliability))
  {
    var r := AddRows(rows, nextId, from, to, cost, latency, reliability);
    assert r[..|rows|] == rows;
  }

  /** After a successful add both directions are present. */
  lemma AddLinksBothWays(rows: seq<Connection>, nextId: nat, from: HospitalId, to: HospitalId,
                         cost: real, latency: real, reliability: real)
    requires AddOutcomeOf(rows, from, to).Created?
    ensures var r := AddRows(rows, nextId, from, to, cost, latency, reliability);
      HasPair(r, from, to) && HasPair(r, to, from)
  {
    var r := AddRows(rows, nextId, from, to, cost, latency, reliability);
    AddAppends(rows, nextId, from, to, cost, latency, reliability);
    assert r[|rows|] in r;
    if !HasPair(rows, to, from) {
      assert r[|rows| + 1] in r;
    } else {
      var c :| c in rows && c.hospitalFrom == to && c.hospitalTo == from;
      assert c in r;
    }
  }

  /** Adding keeps the table free of self-links and of two rows for one
      ordered pair. */
  lemma AddKeepsConsistent(rows: seq<Connection>, nextId: nat, from: HospitalId, to: HospitalId,
                           cost: real, latency: real, reliability: real)
    requires Consistent(rows)
    ensures Consistent(AddRows(rows, nextId, from, to, cost, latency, reliability))
  {
    if AddOutcomeOf(rows, from, to).Created? {
      var r := AddRows(rows, nextId, from, to, cost, latency, reliability);
      AddAppends(rows, nextId, from, to, cost, latency, reliability);
      forall i, j | 0 <= i < j < |r|
        ensures !(r[i].hospitalFrom == r[j].hospitalFrom && r[i].hospitalTo == r[j].hospitalTo)
      {
        if j >= |rows| && i < |rows| {
          assert r[i] in rows;
        }
      }
    }
  }

  /** Adding issues fresh ids. */
  lemma AddKeepsKeys(rows: seq<Connection>, nextId: nat, from: HospitalId, to: HospitalId,
                     cost: real, latency: real, reliability: real)
    requires KeysValid(rows, nextId)
    ensures KeysValid(AddRows(rows, nextId, from, to, cost, latency, reliability),
                      NextIdAfterAdd(rows, nextId, from, to))
  {
    if AddOutcomeOf(rows, from, to).Created? {
      var r := AddRows(rows, nextId, from, to, cost, latency, reliability);
      var n := NextIdAfterAdd(rows, nextId, from, to);
      AddAppends(rows, nextId, from, to, cost, latency, reliability);
      assert n == nextId + |r| - |rows|;
      forall i | 0 <= i < |r|
        ensures r[i].connectionId < n && (i >= |rows| ==> r[i].connectionId == nextId + i - |rows|)
      {
        if i < |rows| {
          assert r[i] == r[..|rows|][i];
        }
      }
      forall i, j | 0 <= i < j < |r|
        ensures r[i].connectionId != r[j].connectionId
      {
        if j < |rows| {
          assert r[i] == r[..|rows|][i] && r[j] == r[..|rows|][j];
        } else if i < |rows| {
          assert r[i] == r[..|rows|][i];
        }
      }
    }
  }

  // ---------------------------------------------------------------------
  // Deleting a connection
  // ---------------------------------------------------------------------

  /** The rows other than the one with key `id`. */
  function Without(rows: seq<Connection>, id: nat): (r: seq<Connection>)
    ensures |r| <= |rows|
    ensures forall c | c in r :: c in rows && c.connectionId != id
    ensures forall c | c in rows && c.connectionId != id :: c in r
  {
    if rows == [] then []
    else (if rows[0].connectionId == id then [] else [rows[0]]) + Without(rows[1..], id)
  }

  predicate HasId(rows: seq<Connection>, id: nat) {
    exists c | c in rows :: c.connectionId == id
  }

  /** `rows` without its entry at index `k`. */
  function RemoveAt(rows: seq<Connection>, k: nat): (r: seq<Connection>)
    requires k < |rows|
    ensures |r| == |rows| - 1
    ensures forall i | 0 <= i < |r| :: r[i] == rows[if i < k then i else i + 1]
  {
    rows[..k] + rows[k + 1..]
  }

  /** Under a primary key, deleting by key removes exactly the one row with
      that key and keeps the others in order. */
  lemma {:induction false} WithoutRemovesOne(rows: seq<Connection>, nextId: nat, k: nat)
    requires KeysValid(rows, nextId)
    requires k < |rows|
    ensures Without(rows, rows[k].connectionId) == RemoveAt(rows, k)
  {
    var id := rows[k].connectionId;
    var tail := rows[1..];
    TailKeys(rows, nextId);
    if k == 0 {
      forall i | 0 <= i < |tail| ensures tail[i].connectionId != id {
        assert tail[i] == rows[i + 1];
      }
      WithoutAbsent(tail, id);
      assert RemoveAt(rows, 0) == tail;
    } else {
      assert rows[0].connectionId != id;
      assert tail[k - 1] == rows[k];
      WithoutRemovesOne(tail, nextId, k - 1);
      RemoveAtCons(rows, k);
    }
  }

  lemma TailKeys(rows: seq<Connection>, nextId: nat)
    requires KeysValid(rows, nextId) && rows != []
    ensures KeysValid(rows[1..], nextId)
  {
    var tail := rows[1..];
    forall i, j | 0 <= i < j < |tail| ensures tail[i].connectionId != tail[j].connectionId {
      assert tail[i] == rows[i + 1] && tail[j] == rows[j + 1];
    }
  }

  lemma RemoveAtCons(rows: seq<Connection>, k: nat)
    requires 0 < k < |rows|
    ensures RemoveAt(rows, k) == [rows[0]] + RemoveAt(rows[1..], k - 1)
  {
    var r, rt := RemoveAt(rows, k), RemoveAt(rows[1..], k - 1);
    forall i | 0 <= i < |r| ensures r[i] == ([rows[0]] + rt)[i] {
      if i > 0 {
        assert ([rows[0]] + rt)[i] == rt[i - 1];
      }
    }
  }

  lemma {:induction false} WithoutAbsent(rows: seq<Connection>, id: nat)
    requires forall i | 0 <= i < |rows| :: rows[i].connectionId != id
    ensures Without(rows, id) == rows
  {
    if rows != [] {
      WithoutAbsent(rows[1..], id);
    }
  }

  /** Removing a row keeps the primary key and drops the removed key. */
  lemma RemoveKeepsKeys(rows: seq<Connection>, nextId: nat, k: nat)
    requires KeysValid(rows, nextId)
    requires k < |rows|
    ensures KeysValid(RemoveAt(rows, k), nextId)
    ensures !HasId(RemoveAt(rows, k), rows[k].connectionId)
  {
    var r := RemoveAt(rows, k);
    forall e | e in r ensures e.connectionId != rows[k].connectionId {
      var i :| 0 <= i < |r| && r[i] == e;
    }
    forall i, j | 0 <= i < j < |r| ensures r[i].connectionId != r[j].connectionId {
      assert r[i] == rows[if i < k then i else i + 1];
      assert r[j] == rows[if j < k then j else j + 1];
    }
  }

  /** Removing a row keeps the row of the reverse direction. */
  lemma RemoveKeepsReverse(rows: seq<Connection>, k: nat)
    requires k < |rows|
    requires rows[k].hospitalFrom != rows[k].hospitalTo
    requires HasPair(rows, rows[k].hospitalTo, rows[k].hospitalFrom)
    ensures HasPair(RemoveAt(rows, k), rows[k].hospitalTo, rows[k].hospitalFrom)
  {
    var c, r := rows[k], RemoveAt(rows, k);
    var rev :| rev in rows && rev.hospitalFrom == c.hospitalTo && rev.hospitalTo == c.hospitalFrom;
    var i :| 0 <= i < |rows| && rows[i] == rev;
    assert i != k;
    assert r[if i < k then i else i - 1] == rev;
  }

  /** Removing a row keeps the table consistent. */
  lemma RemoveKeepsConsistent(rows: seq<Connection>, k: nat)
    requires k < |rows|
    requires Consistent(rows)
    ensures Consistent(RemoveAt(rows, k))
  {
    var r := RemoveAt(rows, k);
    forall i, j | 0 <= i < j < |r|
      ensures !(r[i].hospitalFrom == r[j].hospitalFrom && r[i].hospitalTo == r[j].hospitalTo)
    {
      assert r[i] == rows[if i < k then i else i + 1];
      assert r[j] == rows[if j < k then j else j + 1];
    }
  }

  /** Deleting a row leaves its reverse edge, and every other row, in
      place, and keeps the table consistent. */
  lemma DeleteKeepsOthers(rows: seq<Connection>, nextId: nat, k: nat)
    requires KeysValid(rows, nextId)
    requires k < |rows|
    ensures var r := Without(rows, rows[k].connectionId);
      && |r| == |rows| - 1
      && KeysValid(r, nextId)
      && !HasId(r, rows[k].connectionId)
      && ((HasPair(rows, rows[k].hospitalTo, rows[k].hospitalFrom) && rows[k].hospitalFrom != rows[k].hospitalTo)
            ==> HasPair(r, rows[k].hospitalTo, rows[k].hospitalFrom))
      && (Consistent(rows) ==> Consistent(r))
  {
    WithoutRemovesOne(rows, nextId, k);
    RemoveKeepsKeys(rows, nextId, k);
    if HasPair(rows, rows[k].hospitalTo, rows[k].hospitalFrom) && rows[k].hospitalFrom != rows[k].hospitalTo {
      RemoveKeepsReverse(rows, k);
    }
    if Consistent(rows) {
      RemoveKeepsConsistent(rows, k);
    }
  }

  // ---------------------------------------------------------------------
  // The table
  // ---------------------------------------------------------------------

  /** The `hospital_connections` table: its rows in insertion order and the
      next key its auto-increment column will issue. */
  class ConnectionTable {
    var rows: seq<Connection>
    var nextId: nat

    ghost predicate Valid()
      reads this
    {
      KeysValid(rows, nextId)
    }

    constructor()
      ensures Valid() && rows == [] && nextId == 1
    {
      rows := [];
      nextId := 1;
    }

    /** `add_hospital_connection`, after the form fields are read. */
    method AddHospitalConnection(from: HospitalId, to: HospitalId,
                                 cost: real, latency: real, reliability: real)
      returns (outcome: AddOutcome)
      requires Valid()
      modifies this
      ensures Valid()
      ensures outcome == AddOutcomeOf(old(rows), from, to)
      ensures rows == AddRows(old(rows), old(nextId), from, to, cost, latency, reliability)
      ensures nextId == NextIdAfterAdd(old(rows), old(nextId), from, to)
      ensures Consistent(old(rows)) ==> Consistent(rows)
    {
      AddKeepsKeys(rows, nextId, from, to, cost, latency, reliability);
      if Consistent(rows) {
        AddKeepsConsistent(rows, nextId, from, to, cost, latency, reliability);
      }
      if from == to {
        return SelfConnection;
      }
      if HasPair(rows, from, to) {
        return AlreadyExists;
      }
      ghost var rows0, next0 := rows, nextId;
      var forward := Connection(nextId, from, to, cost, latency, reliability);
      var reverseExists := HasPair(rows, to, from);
      rows := rows + [forward];
      nextId := nextId + 1;
      if !reverseExists {
        var backward := Connection(nextId, to, from, cost, latency, reliability);
        rows := rows + [backward];
        nextId := nextId + 1;
      }
      outcome := Created(!reverseExists);
      assert outcome == AddOutcomeOf(rows0, from, to);
      assert rows == AddRows(rows0, next0, from, to, cost, latency, reliability);
    }

    /** `delete_hospital_connection(connection_id)`: removes the row with
        that key, or answers 404 (`found` false) and changes nothing. */
    method DeleteHospitalConnection(id: nat) returns (found: bool)
      requires Valid()
      modifies this
      ensures Valid()
      ensures found <==> HasId(old(rows), id)
      ensures rows == Without(old(rows), id) && nextId == old(nextId)
      ensures Consistent(old(rows)) ==> Consistent(rows)
    {
      found := HasId(rows, id);
      if !found {
        WithoutAbsent(rows, id);
        return;
      }
      var k :| 0 <= k < |rows| && rows[k].connectionId == id;
      DeleteKeepsOthers(rows, nextId, k);
      rows := Without(rows, id);
    }
  }
}
