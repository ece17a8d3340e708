/** The hospital connection graph and its scoring
    (app/services/transfer_service.py, `build_graph`, `score_hospital`,
    `get_candidate_hospitals`). */
module TransferGraph {
  import opened Wrappers
  import opened Models

  /** One adjacency entry: the dict `{"to", "cost", "latency", "reliability"}`
      built for a connection row. */
  datatype Edge = Edge(to: HospitalId, cost: real, latency: real, reliability: real)

  /** Adjacency lists keyed by the source hospital. */
  type Graph = map<HospitalId, seq<Edge>>

  function EdgeOf(c: Connection): (e: Edge)
    ensures e.to == c.hospitalTo
  {
    Edge(c.hospitalTo, c.transferCost, c.latencyMinutes, c.reliability)
  }

  // ---------------------------------------------------------------------
  // Building the graph
  // ---------------------------------------------------------------------

  /** The hospitals that have at least one outgoing row. */
  ghost function Sources(rows: seq<Connection>): set<HospitalId> {
    set c | c in rows :: c.hospitalFrom
  }

  /** `graph.setdefault(c.hospital_from, []).append(edge)`. */
  function AddEdge(graph: Graph, c: Connection): (g: Graph)
    ensures g.Keys == graph.Keys + {c.hospitalFrom}
    ensures forall h | h in graph && h != c.hospitalFrom :: g[h] == graph[h]
    ensures g[c.hospitalFrom] == (if c.hospitalFrom in graph then graph[c.hospitalFrom] else []) + [EdgeOf(c)]
  {
    var h := c.hospitalFrom;
    graph[h := (if h in graph then graph[h] else []) + [EdgeOf(c)]]
  }

  /** The graph `build_graph` returns: the rows added one after the other. */
  function GraphOf(rows: seq<Connection>): (g: Graph)
    ensures forall k | 0 <= k < |rows| :: rows[k].hospitalFrom in g
    ensures forall h | h in g :: exists k | 0 <= k < |rows| :: rows[k].hospitalFrom == h
    decreases |rows|
  {
    if rows == [] then map[]
    else
      var n := |rows| - 1;
      var g := GraphOf(rows[..n]);
      assert forall k | 0 <= k < n :: rows[..n][k] == rows[k];
      AddEdge(g, rows[n])
  }

  /** `build_graph()`: groups the rows of `hospital_connections` into
      adjacency lists keyed by `hospital_from`. */
  method BuildGraph(rows: seq<Connection>) returns (graph: Graph)
    ensures graph == GraphOf(rows)
  {
    graph := map[];
    var i := 0;
    while i < |rows|
      invariant 0 <= i <= |rows|
      invariant graph == GraphOf(rows[..i])
    {
      assert rows[..i + 1][..i] == rows[..i];
      graph := AddEdge(graph, rows[i]);
      i := i + 1;
    }
    assert rows[..i] == rows;
  }

  /** Indices, ascending, of the rows leaving `h`. */
  function Positions(rows: seq<Connection>, h: HospitalId): (p: seq<nat>)
    ensures forall j | 0 <= j < |p| :: p[j] < |rows| && rows[p[j]].hospitalFrom == h
    ensures forall i, j | 0 <= i < j < |p| :: p[i] < p[j]
    ensures forall k | 0 <= k < |rows| && rows[k].hospitalFrom == h :: k in p
    decreases |rows|
  {
    if rows == [] then []
    else
      var n := |rows| - 1;
      Positions(rows[..n], h) + (if rows[n].hospitalFrom == h then [n] else [])
  }

  /** The edges of the rows leaving `h`, in row order: what the list of `h`
      should hold, stated for one hospital at a time. */
  function AdjacencyOf(rows: seq<Connection>, h: HospitalId): seq<Edge>
    decreases |rows|
  {
    if rows == [] then []
    else
      var n := |rows| - 1;
      AdjacencyOf(rows[..n], h) + (if rows[n].hospitalFrom == h then [EdgeOf(rows[n])] else [])
  }

  /** Entry `j` of the adjacency list of `h` is the edge of the `j`-th row
      leaving `h`. */
  lemma {:induction false} AdjacencyAtPositions(rows: seq<Connection>, h: HospitalId)
    ensures |AdjacencyOf(rows, h)| == |Positions(rows, h)|
    ensures forall j | 0 <= j < |Positions(rows, h)| ::
      AdjacencyOf(rows, h)[j] == EdgeOf(rows[Positions(rows, h)[j]])
    decreases |rows|
  {
    if rows != [] {
      var n := |rows| - 1;
      var init := rows[..n];
      var p, a := Positions(init, h), AdjacencyOf(init, h);
      AdjacencyAtPositions(init, h);
      if rows[n].hospitalFrom == h {
        assert Positions(rows, h) == p + [n];
        assert AdjacencyOf(rows, h) == a + [EdgeOf(rows[n])];
      } else {
        assert Positions(rows, h) == p;
        assert AdjacencyOf(rows, h) == a;
      }
      forall j | 0 <= j < |p|
        ensures init[p[j]] == rows[p[j]]
      {
      }
    }
  }

  lemma {:induction false} AdjacencyOfAbsent(rows: seq<Connection>, h: HospitalId)
    requires h !in Sources(rows)
    ensures AdjacencyOf(rows, h) == []
    decreases |rows|
  {
    if rows != [] {
      var n := |rows| - 1;
      assert rows[n] in rows;
      assert Sources(rows[..n]) <= Sources(rows) by {
        forall c | c in rows[..n] ensures c in rows { }
      }
      AdjacencyOfAbsent(rows[..n], h);
    }
  }

  /** The graph has a list exactly for the hospitals with an outgoing row,
      and the list of `h` holds the edges of the rows leaving `h`, in row
      order. */
  lemma {:induction false} GraphOfLists(rows: seq<Connection>)
    ensures GraphOf(rows).Keys == Sources(rows)
    ensures forall h | h in GraphOf(rows) :: GraphOf(rows)[h] == AdjacencyOf(rows, h)
    decreases |rows|
  {
    if rows != [] {
      var n := |rows| - 1;
      var init, c := rows[..n], rows[n];
      assert rows == init + [c];
      assert Sources(rows) == Sources(init) + {c.hospitalFrom};
      GraphOfLists(init);
      if c.hospitalFrom !in Sources(init) {
        AdjacencyOfAbsent(init, c.hospitalFrom);
      }
    }
  }

  /** Every row is placed exactly once, in the list of its `hospital_from`
      and at the rank it has among the rows leaving that hospital. */
  lemma GraphPlacesEveryRow(rows: seq<Connection>, k: nat)
    requires k < |rows|
    ensures rows[k].hospitalFrom in GraphOf(rows)
    ensures |GraphOf(rows)[rows[k].hospitalFrom]| == |Positions(rows, rows[k].hospitalFrom)|
    ensures var h := rows[k].hospitalFrom;
      exists j :: 0 <= j < |Positions(rows, h)| && Positions(rows, h)[j] == k
        && GraphOf(rows)[h][j] == EdgeOf(rows[k])
  {
    var h := rows[k].hospitalFrom;
    assert rows[k] in rows;
    GraphOfLists(rows);
    AdjacencyAtPositions(rows, h);
    var p := Positions(rows, h);
    var j :| 0 <= j < |p| && p[j] == k;
    assert GraphOf(rows)[h][j] == EdgeOf(rows[k]);
  }

  // ---------------------------------------------------------------------
  // Scoring
  // ---------------------------------------------------------------------

  /** The exception the score division can raise. */
  datatype ScoreError = ZeroDivision

  /** `e["reliability"] / (1 + e["cost"] + e["latency"])`. */
  function EdgeScore(e: Edge): (r: Result<real, ScoreError>)
    ensures r.Err? <==> 1.0 + e.cost + e.latency == 0.0
    ensures r.Ok? ==> r.value * (1.0 + e.cost + e.latency) == e.reliability
  {
    var d := 1.0 + e.cost + e.latency;
    if d == 0.0 then Err(ZeroDivision) else Ok(e.reliability / d)
  }

  /** The loop of `score_hospital` over one adjacency list: the first edge
      to the target is scored; without one the score is 0. */
  function ScoreEdges(edges: seq<Edge>, target: HospitalId): (r: Result<real, ScoreError>)
    ensures (forall k | 0 <= k < |edges| :: edges[k].to != target) ==> r == Ok(0.0)
    ensures forall k | 0 <= k < |edges| && edges[k].to == target
        && (forall j | 0 <= j < k :: edges[j].to != target) :: r == EdgeScore(edges[k])
  {
    if edges == [] then Ok(0.0)
    else if edges[0].to == target then EdgeScore(edges[0])
    else
      var r := ScoreEdges(edges[1..], target);
      FirstMatchInTail(edges, target, r);
      r
  }

  /** When the head does not lead to `target`, the first edge to `target`
      is the first one in the tail. */
  lemma FirstMatchInTail(edges: seq<Edge>, target: HospitalId, r: Result<real, ScoreError>)
    requires edges != [] && edges[0].to != target
    requires var t := edges[1..];
      forall k | 0 <= k < |t| && t[k].to == target && (forall j | 0 <= j < k :: t[j].to != target) ::
        r == EdgeScore(t[k])
    ensures forall k | 0 <= k < |edges| && edges[k].to == target
        && (forall j | 0 <= j < k :: edges[j].to != target) :: r == EdgeScore(edges[k])
  {
    var t := edges[1..];
    forall k | 0 <= k < |edges| && edges[k].to == target && (forall j | 0 <= j < k :: edges[j].to != target)
      ensures r == EdgeScore(edges[k])
    {
      assert k >= 1 && t[k - 1] == edges[k];
      forall j | 0 <= j < k - 1
        ensures t[j].to != target
      {
        assert t[j] == edges[j + 1];
      }
    }
  }

  /** `score_hospital(graph, source, target)`. */
  function ScoreHospital(graph: Graph, source: HospitalId, target: HospitalId): (r: Result<real, ScoreError>)
    ensures var edges := if source in graph then graph[source] else [];
      && ((forall k | 0 <= k < |edges| :: edges[k].to != target) ==> r == Ok(0.0))
      && (forall k | 0 <= k < |edges| && edges[k].to == target
            && (forall j | 0 <= j < k :: edges[j].to != target) :: r == EdgeScore(edges[k]))
  {
    ScoreEdges(if source in graph then graph[source] else [], target)
  }

  /** The list `score_hospital` scans is the edges of the rows leaving
      `source`, in row order (empty when there are none). */
  lemma ScannedEdges(rows: seq<Connection>, source: HospitalId)
    ensures var g := GraphOf(rows);
      (if source in g then g[source] else []) == AdjacencyOf(rows, source)
  {
    GraphOfLists(rows);
    if source !in GraphOf(rows) {
      AdjacencyOfAbsent(rows, source);
    }
  }

  /** A row from `source` to `target` decides the score on the built
      graph when no earlier row goes from `source` to `target`. */
  lemma ScoreFromFirstRow(rows: seq<Connection>, source: HospitalId, target: HospitalId, k: nat)
    requires k < |rows| && rows[k].hospitalFrom == source && rows[k].hospitalTo == target
    requires forall i | 0 <= i < k :: !(rows[i].hospitalFrom == source && rows[i].hospitalTo == target)
    ensures ScoreHospital(GraphOf(rows), source, target) == EdgeScore(EdgeOf(rows[k]))
  {
    ScannedEdges(rows, source);
    AdjacencyAtPositions(rows, source);
    var edges := AdjacencyOf(rows, source);
    var p := Positions(rows, source);
    var j :| 0 <= j < |p| && p[j] == k;
    forall i | 0 <= i < j ensures edges[i].to != target {
      assert p[i] < p[j];
      assert edges[i] == EdgeOf(rows[p[i]]);
    }
    assert edges[j] == EdgeOf(rows[k]);
  }

  /** Without a row from `source` to `target` (in particular when `source`
      has no rows at all) the score on the built graph is 0. */
  lemma ScoreWithoutRow(rows: seq<Connection>, source: HospitalId, target: HospitalId)
    requires forall k | 0 <= k < |rows| :: !(rows[k].hospitalFrom == source && rows[k].hospitalTo == target)
    ensures ScoreHospital(GraphOf(rows), source, target) == Ok(0.0)
  {
    ScannedEdges(rows, source);
    AdjacencyAtPositions(rows, source);
  }

  // ---------------------------------------------------------------------
  // Candidates
  // ---------------------------------------------------------------------

  /** The hospital has a department with the requested id (the join of
      `hospitals` with `departments` filtered on `department_id`). */
  predicate HasDepartment(h: Hospital, departments: seq<Department>, departmentId: int) {
    exists d | d in departments :: d.departmentId == departmentId && d.hospitalId == h.hospitalId
  }

  predicate IsCandidate(h: Hospital, departments: seq<Department>, source: HospitalId, departmentId: int) {
    h.hospitalId != source && HasDepartment(h, departments, departmentId)
  }

  /** `get_candidate_hospitals(source, department_id)`: the hospitals, in
      table order, having that department, other than the patient's. */
  function CandidateHospitals(hospitals: seq<Hospital>, departments: seq<Department>,
                              source: HospitalId, departmentId: int): (r: seq<Hospital>)
    ensures forall h | h in r :: h in hospitals && IsCandidate(h, departments, source, departmentId)
    ensures forall h | h in hospitals && IsCandidate(h, departments, source, departmentId) :: h in r
    ensures |r| <= |hospitals|
  {
    if hospitals == [] then []
    else
      var rest := CandidateHospitals(hospitals[1..], departments, source, departmentId);
      if IsCandidate(hospitals[0], departments, source, departmentId) then [hospitals[0]] + rest else rest
  }

  predicate UniqueHospitalIds(hospitals: seq<Hospital>) {
    forall i, j | 0 <= i < j < |hospitals| :: hospitals[i].hospitalId != hospitals[j].hospitalId
  }

  predicate UniqueDepartmentIds(departments: seq<Department>) {
    forall i, j | 0 <= i < j < |departments| :: departments[i].departmentId != departments[j].departmentId
  }

  /** A department belongs to one hospital: two rows naming the same
      department name the same hospital. */
  lemma DepartmentOwner(departments: seq<Department>, departmentId: int, d1: Department, d2: Department)
    requires UniqueDepartmentIds(departments)
    requires d1 in departments && d1.departmentId == departmentId
    requires d2 in departments && d2.departmentId == departmentId
    ensures d1.hospitalId == d2.hospitalId
  {
    var i1 :| 0 <= i1 < |departments| && departments[i1] == d1;
    var i2 :| 0 <= i2 < |departments| && departments[i2] == d2;
    assert i1 == i2;
  }

  /** No hospital qualifies when the department belongs to a hospital that
      is not in the list. */
  lemma NoCandidateWithout(hospitals: seq<Hospital>, departments: seq<Department>,
                           source: HospitalId, departmentId: int, owner: Department)
    requires UniqueDepartmentIds(departments)
    requires owner in departments && owner.departmentId == departmentId
    requires forall h | h in hospitals :: h.hospitalId != owner.hospitalId
    ensures CandidateHospitals(hospitals, departments, source, departmentId) == []
  {
    var r := CandidateHospitals(hospitals, departments, source, departmentId);
    if r != [] {
      assert r[0] in r;
      var d :| d in departments && d.departmentId == departmentId && d.hospitalId == r[0].hospitalId;
      DepartmentOwner(departments, departmentId, d, owner);
    }
  }

  /** A department id is the key of one department of one hospital, so at
      most one hospital is ever a candidate. */
  lemma {:induction false} AtMostOneCandidate(hospitals: seq<Hospital>, departments: seq<Department>,
                                             source: HospitalId, departmentId: int)
    requires UniqueHospitalIds(hospitals)
    requires UniqueDepartmentIds(departments)
    ensures |CandidateHospitals(hospitals, departments, source, departmentId)| <= 1
  {
    if hospitals != [] {
      var h := hospitals[0];
      var tail := hospitals[1..];
      if IsCandidate(h, departments, source, departmentId) {
        var owner :| owner in departments && owner.departmentId == departmentId && owner.hospitalId == h.hospitalId;
        forall x | x in tail ensures x.hospitalId != owner.hospitalId {
          var k :| 0 <= k < |tail| && tail[k] == x;
          assert hospitals[k + 1] == x;
        }
        NoCandidateWithout(tail, departments, source, departmentId, owner);
      } else {
        AtMostOneCandidate(tail, departments, source, departmentId);
      }
    }
  }
}
