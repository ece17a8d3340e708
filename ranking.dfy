/** Ranking of the candidate hospitals for a transfer
    (app/services/transfer_service.py, `compute_hospital_scores`). */
module Ranking {
  import opened Wrappers
  import opened Models
  import opened TransferGraph

  /** One entry of the ranked list. The dict the service builds also carries
      `hospital_id` and `hospital_name`, which are the hospital's own fields. */
  datatype Scored = Scored(hospital: Hospital, score: real)

  predicate NonIncreasing(s: seq<Scored>) {
    forall i, j | 0 <= i < j < |s| :: s[i].score >= s[j].score
  }

  /** The entries with score `v`, in list order. */
  function WithScore(s: seq<Scored>, v: real): seq<Scored> {
    if s == [] then []
    else (if s[0].score == v then [s[0]] else []) + WithScore(s[1..], v)
  }

  // ---------------------------------------------------------------------
  // `scored.sort(key=lambda x: x["score"], reverse=True)`
  // ---------------------------------------------------------------------

  /** Puts `x` before the first entry whose score is not above its own. */
  function InsertDesc(x: Scored, s: seq<Scored>): (r: seq<Scored>)
    ensures multiset(r) == multiset(s) + multiset{x}
  {
    if s == [] || x.score >= s[0].score then [x] + s
    else
      assert s == [s[0]] + s[1..];
      [s[0]] + InsertDesc(x, s[1..])
  }

  /** Python's stable sort by descending score. */
  function SortByScoreDesc(s: seq<Scored>): (r: seq<Scored>)
    ensures multiset(r) == multiset(s)
  {
    if s == [] then []
    else
      assert s == [s[0]] + s[1..];
      InsertDesc(s[0], SortByScoreDesc(s[1..]))
  }

  lemma {:induction false} InsertNonIncreasing(x: Scored, s: seq<Scored>)
    requires NonIncreasing(s)
    ensures NonIncreasing(InsertDesc(x, s))
  {
    if s == [] || x.score >= s[0].score {
      HeadBounds(s, x.score);
      ConsNonIncreasing(x, s);
    } else {
      var r := InsertDesc(x, s[1..]);
      InsertNonIncreasing(x, s[1..]);
      HeadBounds(s[1..], s[0].score);
      InsertBelow(x, s[1..], s[0].score);
      assert InsertDesc(x, s) == [s[0]] + r;
      ConsNonIncreasing(s[0], r);
    }
  }

  /** A bound on the head of a non-increasing list bounds all of it. */
  lemma HeadBounds(s: seq<Scored>, b: real)
    requires NonIncreasing(s)
    requires s != [] ==> b >= s[0].score
    ensures forall e | e in s :: b >= e.score
  {
  }

  lemma InsertBelow(x: Scored, s: seq<Scored>, b: real)
    requires b >= x.score
    requires forall e | e in s :: b >= e.score
    ensures forall e | e in InsertDesc(x, s) :: b >= e.score
  {
    var r := InsertDesc(x, s);
    forall e | e in r ensures b >= e.score {
      assert e in multiset(s) + multiset{x};
      if e != x {
        assert e in s;
      }
    }
  }

  lemma ConsNonIncreasing(x: Scored, s: seq<Scored>)
    requires NonIncreasing(s)
    requires forall e | e in s :: x.score >= e.score
    ensures NonIncreasing([x] + s)
  {
    var r := [x] + s;
    forall i, j | 0 <= i < j < |r| ensures r[i].score >= r[j].score {
      assert r[j] == s[j - 1];
      if i > 0 {
        assert r[i] == s[i - 1];
      }
    }
  }

  /** The ranked list is ordered by non-increasing score. */
  lemma {:induction false} SortNonIncreasing(s: seq<Scored>)
    ensures NonIncreasing(SortByScoreDesc(s))
  {
    if s != [] {
      SortNonIncreasing(s[1..]);
      InsertNonIncreasing(s[0], SortByScoreDesc(s[1..]));
    }
  }

  lemma {:induction false} InsertWithScore(x: Scored, s: seq<Scored>, v: real)
    ensures WithScore(InsertDesc(x, s), v) == (if x.score == v then [x] else []) + WithScore(s, v)
  {
    if s == [] || x.score >= s[0].score {
      assert ([x] + s)[1..] == s;
    } else {
      InsertWithScore(x, s[1..], v);
      assert ([s[0]] + InsertDesc(x, s[1..]))[1..] == InsertDesc(x, s[1..]);
    }
  }

  /** The sort is stable: entries with equal scores keep their order. */
  lemma {:induction false} SortStable(s: seq<Scored>, v: real)
    ensures WithScore(SortByScoreDesc(s), v) == WithScore(s, v)
  {
    if s != [] {
      SortStable(s[1..], v);
      InsertWithScore(s[0], SortByScoreDesc(s[1..]), v);
    }
  }

  // ---------------------------------------------------------------------
  // `compute_hospital_scores`
  // ---------------------------------------------------------------------

  /** The score of each candidate against the patient's hospital. */
  function ScoreOf(graph: Graph, source: HospitalId): Hospital -> Result<real, ScoreError> {
    (h: Hospital) => ScoreHospital(graph, source, h.hospitalId)
  }

  /** The entries the loop appends, one per candidate in candidate order; a
      failing score ends the loop with its error. */
  function ScoreCandidates(score: Hospital -> Result<real, ScoreError>, candidates: seq<Hospital>)
    : (r: Result<seq<Scored>, ScoreError>)
    ensures r.Ok? <==> forall k | 0 <= k < |candidates| :: score(candidates[k]).Ok?
    ensures r.Ok? ==> |r.value| == |candidates|
    ensures r.Ok? ==> forall k | 0 <= k < |candidates| ::
      r.value[k] == Scored(candidates[k], score(candidates[k]).value)
    decreases |candidates|
  {
    if candidates == [] then Ok([])
    else
      var n := |candidates| - 1;
      match ScoreCandidates(score, candidates[..n])
      case Err(e) => Err(e)
      case Ok(s) =>
        match score(candidates[n])
        case Err(e) => Err(e)
        case Ok(v) => Ok(s + [Scored(candidates[n], v)])
  }

  /** What `compute_hospital_scores` returns: the scored candidates sorted
      by descending score. */
  function Ranked(score: Hospital -> Result<real, ScoreError>, candidates: seq<Hospital>)
    : (r: Result<seq<Scored>, ScoreError>)
    ensures r.Ok? <==> forall k | 0 <= k < |candidates| :: score(candidates[k]).Ok?
    ensures r.Ok? ==>
      && NonIncreasing(r.value)
      && multiset(r.value) == multiset(ScoreCandidates(score, candidates).value)
  {
    match ScoreCandidates(score, candidates)
    case Err(e) => Err(e)
    case Ok(s) =>
      SortNonIncreasing(s);
      Ok(SortByScoreDesc(s))
  }

  /** `compute_hospital_scores(source, department_id)` over the connection,
      hospital and department tables. */
  method ComputeHospitalScores(connections: seq<Connection>, hospitals: seq<Hospital>,
                               departments: seq<Department>, source: HospitalId, departmentId: int)
    returns (r: Result<seq<Scored>, ScoreError>)
    ensures r == Ranked(ScoreOf(GraphOf(connections), source),
                        CandidateHospitals(hospitals, departments, source, departmentId))
  {
    var graph := BuildGraph(connections);
    var candidates := CandidateHospitals(hospitals, departments, source, departmentId);
    r := ScoreAndSort(ScoreOf(graph, source), candidates);
  }

  /** The loop of `compute_hospital_scores` and the sort after it. */
  method ScoreAndSort(score: Hospital -> Result<real, ScoreError>, candidates: seq<Hospital>)
    returns (r: Result<seq<Scored>, ScoreError>)
    ensures r == Ranked(score, candidates)
  {
    var scored: seq<Scored> := [];
    var i := 0;
    while i < |candidates|
      invariant 0 <= i <= |candidates|
      invariant ScoreCandidates(score, candidates[..i]) == Ok(scored)
    {
      var s := score(candidates[i]);
      assert candidates[..i + 1][..i] == candidates[..i];
      if s.Err? {
        assert ScoreCandidates(score, candidates).Err? by {
          assert candidates[i] == candidates[..i + 1][i];
        }
        assert ScoreCandidates(score, candidates).error == ZeroDivision == s.error;
        return Err(s.error);
      }
      scored := scored + [Scored(candidates[i], s.value)];
      i := i + 1;
    }
    assert candidates[..i] == candidates;
    scored := SortByScoreDesc(scored);
    r := Ok(scored);
  }

  /** The ranked list has one entry per candidate carrying that candidate's
      score, in non-increasing score order, and candidates with equal scores
      keep their relative order; it is an error exactly when some
      candidate's score is. */
  lemma RankedProperties(score: Hospital -> Result<real, ScoreError>, candidates: seq<Hospital>)
    ensures Ranked(score, candidates).Ok? <==> forall k | 0 <= k < |candidates| :: score(candidates[k]).Ok?
    ensures Ranked(score, candidates).Ok? ==>
      var ranked := Ranked(score, candidates).value;
      var scored := ScoreCandidates(score, candidates).value;
      && |ranked| == |candidates|
      && multiset(ranked) == multiset(scored)
      && NonIncreasing(ranked)
      && (forall v :: WithScore(ranked, v) == WithScore(scored, v))
      && (forall e | e in ranked :: e.hospital in candidates && score(e.hospital) == Ok(e.score))
  {
    var sc := ScoreCandidates(score, candidates);
    if sc.Ok? {
      var scored := sc.value;
      var ranked := SortByScoreDesc(scored);
      SortNonIncreasing(scored);
      forall v ensures WithScore(ranked, v) == WithScore(scored, v) {
        SortStable(scored, v);
      }
      assert |ranked| == |multiset(ranked)| == |multiset(scored)| == |scored|;
      forall e | e in ranked
        ensures e.hospital in candidates && score(e.hospital) == Ok(e.score)
      {
        assert e in multiset(scored);
        var k :| 0 <= k < |scored| && scored[k] == e;
      }
    }
  }
}
