/**
 * `geo_lakes.py`: lakes. Pathological lines are removed; every lake ring (a closed LAKES line
 * filled with the lake colour) is checked against the two nearest contour rings around it and
 * marked `LAKE` when their heights differ by exactly 500, `BROKENLAKE` otherwise; then the
 * rings around each lake-free top ring are labelled, as in the contour script but with the
 * farthest fixed ring winning.
 */
module Lakes {
  import opened Common
  import opened Text
  import opened Geometry
  import opened Features
  import opened Rings

  /** Length below which a line is pathological. */
  const EPS: real := 0.01
  /** The style of a lake: `style LIKE '%fill: #d4effc%'`. */
  const LAKE_FILL: string := "fill: #d4effc"

  // ---------------------------------------------------------------- the lake check

  /** A ring the height queries may return: a height or sea level, closed, not a lake. */
  predicate Candidate(f: Feature)
  {
    (Fixed(f.kind) || f.kind == "0") && IsClosed(f.geom) && !Contains(f.kind, "LAKE")
  }

  function Candidates(rows: Rows): set<int>
  {
    set id | id in rows && Candidate(rows[id])
  }

  /**
   * `ORDER BY ST_Distance(wkb_geometry, lake) ASC LIMIT 1` over `ids` (in scan order): the
   * nearest row, the first of them on a tie; `None` when the query returns no row.
   */
  function Closest(e: Engine, rows: Rows, ids: seq<int>, g: Line): (r: Option<int>)
    requires forall x :: x in ids ==> x in rows
    decreases |ids|
    ensures r.Some? <==> ids != []
    ensures r.Some? ==> r.value in ids && r.value in rows
    ensures r.Some? ==> forall x :: x in ids ==> e.separation(rows[r.value].geom, g) <= e.separation(rows[x].geom, g)
  {
    if ids == [] then None
    else
      var prev := Closest(e, rows, ids[..|ids| - 1], g);
      var last := ids[|ids| - 1];
      assert forall x :: x in ids ==> x in ids[..|ids| - 1] || x == last;
      if prev.Some? && e.separation(rows[prev.value].geom, g) <= e.separation(rows[last].geom, g) then prev
      else Some(last)
  }

  /** The second query's extra condition: another height, outside the first ring. */
  predicate Beyond(e: Engine, first: Feature, f: Feature)
  {
    f.kind != first.kind && !e.coversLine(first.geom, f.geom)
  }

  /**
   * The verdict on a lake between rings labelled `k1` and `k2`: `LAKE` when the heights differ
   * by exactly 500, `BROKENLAKE` otherwise; a label that is not an integer aborts the run.
   */
  function Verdict(k1: string, k2: string): (r: Result<string>)
    ensures r.Fail? <==> ParseInt(k1).None? || ParseInt(k2).None?
    ensures r.Fail? ==> r.fault == BadInteger
    ensures r.Ok? ==> (r.value == "LAKE" <==> ParseInt(k1).value - ParseInt(k2).value in {500, -500})
    ensures r.Ok? ==> (r.value == "BROKENLAKE" <==> ParseInt(k1).value - ParseInt(k2).value !in {500, -500})
  {
    var a := ParseInt(k1);
    var b := ParseInt(k2);
    if a.None? || b.None? then Fail(BadInteger)
    else if Abs(a.value - b.value) != 500 then Ok("BROKENLAKE")
    else Ok("LAKE")
  }

  function Abs(x: int): int
  {
    if x < 0 then -x else x
  }

  /** `ORDER BY ST_Distance ... ASC LIMIT 1` over the selection `s`, scanned in id order. */
  method NearestIn(rows: Rows, e: Engine, s: set<int>, g: Line) returns (r: Option<int>)
    requires s <= rows.Keys
    ensures r.Some? <==> s != {}
    ensures r.Some? ==> r.value in s
    ensures r.Some? ==> forall x :: x in s ==> e.separation(rows[r.value].geom, g) <= e.separation(rows[x].geom, g)
  {
    var ids := SortIds(s);
    r := Closest(e, rows, ids, g);
    if s != {} {
      Inhabited(s);
      var x :| x in s;
      assert x in ids;
    }
  }

  /** The ids of the candidates the second query may return, given the first ring. */
  function BeyondOf(e: Engine, rows: Rows, first: int): set<int>
    requires first in rows
  {
    set x | x in Candidates(rows) && Beyond(e, rows[first], rows[x])
  }

  /** `x` is a row of `s` nearest to `g`: what `ORDER BY ST_Distance ... LIMIT 1` may return. */
  ghost predicate NearestOf(e: Engine, rows: Rows, s: set<int>, g: Line, x: int)
    requires s <= rows.Keys
  {
    x in s && forall y {:trigger e.separation(rows[y].geom, g)} :: y in s ==> e.separation(rows[x].geom, g) <= e.separation(rows[y].geom, g)
  }

  /** The query results name rows of the table. */
  predicate Known(rows: Rows, first: Option<int>, second: Option<int>)
  {
    (first.Some? ==> first.value in rows) && (second.Some? ==> second.value in rows)
  }

  /**
   * `first` and `second` are what the two height queries of a lake at `g` return: the
   * nearest candidate ring, then the nearest candidate with another type that the first
   * does not cover; `None` where the query returns no row (the second is not asked then).
   */
  ghost predicate Queried(e: Engine, rows: Rows, g: Line, first: Option<int>, second: Option<int>)
  {
    Known(rows, first, second) &&
    (first.Some? <==> Candidates(rows) != {}) &&
    (first.Some? ==> NearestOf(e, rows, Candidates(rows), g, first.value)) &&
    (first.None? ==> second.None?) &&
    (first.Some? ==> (second.Some? <==> BeyondOf(e, rows, first.value) != {})) &&
    (second.Some? ==> NearestOf(e, rows, BeyondOf(e, rows, first.value), g, second.value))
  }

  /**
   * The two height queries of one lake: the nearest candidate ring, then the nearest one with
   * another label that the first does not cover.
   */
  method Neighbours(rows: Rows, e: Engine, g: Line) returns (first: Option<int>, second: Option<int>)
    ensures Queried(e, rows, g, first, second)
  {
    first := NearestIn(rows, e, Candidates(rows), g);
    second := None;
    if first.Some? {
      second := NearestIn(rows, e, BeyondOf(e, rows, first.value), g);
    }
  }

  /**
   * What a lake's check comes to, given its query results: an empty query aborts (the
   * `fetchall()[0]` of no row), otherwise the verdict on the two rings' types.
   */
  function Judgement(rows: Rows, first: Option<int>, second: Option<int>): (r: Result<string>)
    requires Known(rows, first, second)
    ensures r.Fail? <==>
              first.None? || second.None? ||
              ParseInt(rows[first.value].kind).None? || ParseInt(rows[second.value].kind).None?
    ensures r.Ok? ==> r.value in {"LAKE", "BROKENLAKE"}
    ensures (first.None? || second.None?) ==> r == Fail(NoRow)
  {
    if first.None? || second.None? then Fail(NoRow)
    else Verdict(rows[first.value].kind, rows[second.value].kind)
  }

  /** Rows the lake marks do not touch: the candidate rings, which a `LAKE` type never is. */
  ghost predicate CandidatesKept(rows: Rows, before: Rows)
  {
    Candidates(rows) == Candidates(before) &&
    forall x :: x in Candidates(before) ==> x in rows && rows[x] == before[x]
  }

  /** Marking a lake keeps the candidate rings: a lake's type contains `LAKE` before and after. */
  lemma CandidatesStable(rows: Rows, id: int, k: string)
    requires id in rows && Contains(rows[id].kind, "LAKE") && Contains(k, "LAKE")
    ensures CandidatesKept(WithKind(rows, id, k), rows)
  {
    assert id !in Candidates(rows);
  }

  /** With the candidate rings kept, the queries and the judgement of a lake come out the same. */
  lemma QueriedStable(e: Engine, rows: Rows, before: Rows, g: Line, first: Option<int>, second: Option<int>)
    requires CandidatesKept(rows, before)
    ensures Queried(e, rows, g, first, second) <==> Queried(e, before, g, first, second)
    ensures Queried(e, rows, g, first, second) ==> Judgement(rows, first, second) == Judgement(before, first, second)
  {
    if first.Some? && first.value in Candidates(before) {
      forall x
        ensures x in BeyondOf(e, rows, first.value) <==> x in BeyondOf(e, before, first.value)
      {
        if x in Candidates(before) {
          assert rows[x] == before[x];
        }
      }
      assert BeyondOf(e, rows, first.value) == BeyondOf(e, before, first.value);
    }
  }

  /** Both marks contain `LAKE`, so a marked lake stays out of the candidate rings. */
  lemma MarksContainLake()
    ensures Contains("LAKE", "LAKE") && Contains("BROKENLAKE", "LAKE")
  {
    ContainsAt("LAKE", "LAKE", 0);
    assert "BROKENLAKE"[6..10] == "LAKE";
    ContainsAt("BROKENLAKE", "LAKE", 6);
  }

  /** A lake ring's type contains `LAKE` (it contains `LAKES`). */
  lemma LakeTyped(rows: Rows, id: int)
    requires id in LakeRings(rows)
    ensures Contains(rows[id].kind, "LAKE")
  {
    assert "LAKE" + "S" == "LAKES";
    ContainsPrefix(rows[id].kind, "LAKE", "S");
  }

  /** "Elevate all lakes" for one lake: query its two rings and mark it with the verdict. */
  method CheckLake(t: Table, e: Engine, id: int, g: Line) returns (r: Outcome, first: Option<int>, second: Option<int>)
    requires t.Valid()
    modifies t
    ensures t.Valid() && t.serial == old(t.serial)
    ensures Queried(e, old(t.rows), g, first, second)
    ensures r.Abort? <==> Judgement(old(t.rows), first, second).Fail?
    ensures r.Abort? ==> r.fault == Judgement(old(t.rows), first, second).fault && t.rows == old(t.rows)
    ensures r.Done? ==> t.rows == WithKind(old(t.rows), id, Judgement(old(t.rows), first, second).value)
  {
    first, second := Neighbours(t.rows, e, g);
    if first.None? || second.None? {
      r := Abort(NoRow);
      return;
    }
    assert second.value in Candidates(t.rows);
    var v := Verdict(t.rows[first.value].kind, t.rows[second.value].kind);
    if v.Fail? {
      r := Abort(v.fault);
      return;
    }
    t.SetKind(id, v.value);
    r := Done;
  }

  /** The rows the lake loop visits: closed LAKES lines with the lake fill. */
  function LakeRings(rows: Rows): set<int>
  {
    set id | id in rows && IsClosed(rows[id].geom) && Contains(rows[id].kind, "LAKES") && Contains(rows[id].style, LAKE_FILL)
  }

  /**
   * The lake loop after `i` lakes, on table `lines` as it was: `firsts`/`seconds` hold the
   * query results of the lakes checked so far; while `going`, every one of them was marked
   * with its verdict, and otherwise the last one (lake `i`) aborted. No row but the marked
   * lakes has changed.
   */
  ghost predicate LakeLoop(lines: Rows, rows: Rows, lakes: seq<int>, i: nat, going: bool,
    firsts: seq<Option<int>>, seconds: seq<Option<int>>)
  {
    i <= |lakes| && Increasing(lakes) &&
    (forall k :: 0 <= k < |lakes| ==> lakes[k] in LakeRings(lines)) &&
    rows.Keys == lines.Keys && CandidatesKept(rows, lines) &&
    |firsts| == |seconds| == (if going then i else i + 1) && (!going ==> i < |lakes|) &&
    (forall k :: 0 <= k < |firsts| ==> Known(lines, firsts[k], seconds[k])) &&
    (forall k :: 0 <= k < i ==> Judgement(lines, firsts[k], seconds[k]).Ok?) &&
    (forall k :: 0 <= k < i ==> rows[lakes[k]] == lines[lakes[k]].(kind := Judgement(lines, firsts[k], seconds[k]).value)) &&
    (!going ==> Judgement(lines, firsts[i], seconds[i]).Fail?) &&
    (forall id :: id in lines && id !in LakeRings(lines) ==> rows[id] == lines[id]) &&
    (forall k :: i <= k < |lakes| ==> rows[lakes[k]] == lines[lakes[k]])
  }

  /** The query results of the first lakes, each against the table as it was. */
  ghost predicate AllQueried(e: Engine, lines: Rows, lakes: seq<int>, firsts: seq<Option<int>>, seconds: seq<Option<int>>)
  {
    |firsts| == |seconds| <= |lakes| && (forall k :: 0 <= k < |lakes| ==> lakes[k] in lines) &&
    forall k :: 0 <= k < |firsts| ==> Queried(e, lines, lines[lakes[k]].geom, firsts[k], seconds[k])
  }

  lemma QueriedMore(e: Engine, lines: Rows, lakes: seq<int>, firsts: seq<Option<int>>, seconds: seq<Option<int>>,
    first: Option<int>, second: Option<int>)
    requires AllQueried(e, lines, lakes, firsts, seconds) && |firsts| < |lakes|
    requires Queried(e, lines, lines[lakes[|firsts|]].geom, first, second)
    ensures AllQueried(e, lines, lakes, firsts + [first], seconds + [second])
  {
    var f2, s2 := firsts + [first], seconds + [second];
    forall k | 0 <= k < |f2|
      ensures Queried(e, lines, lines[lakes[k]].geom, f2[k], s2[k])
    {
      if k < |firsts| {
        assert f2[k] == firsts[k] && s2[k] == seconds[k];
      }
    }
  }

  /** Checking lake `i` extends the loop state: marked with its verdict, or the loop aborts on it. */
  lemma LakeStep(lines: Rows, before: Rows, after: Rows, lakes: seq<int>, i: nat,
    firsts: seq<Option<int>>, seconds: seq<Option<int>>, first: Option<int>, second: Option<int>)
    requires LakeLoop(lines, before, lakes, i, true, firsts, seconds) && i < |lakes|
    requires Known(lines, first, second)
    requires Judgement(lines, first, second).Ok? ==>
      after == WithKind(before, lakes[i], Judgement(lines, first, second).value)
    requires Judgement(lines, first, second).Fail? ==> after == before
    ensures LakeLoop(lines, after, lakes, if Judgement(lines, first, second).Ok? then i + 1 else i,
      Judgement(lines, first, second).Ok?, firsts + [first], seconds + [second])
  {
    if Judgement(lines, first, second).Ok? {
      LakeMarked(lines, before, after, lakes, i, firsts, seconds, first, second);
    } else {
      LakeAborted(lines, before, lakes, i, firsts, seconds, first, second);
    }
  }

  /** A lake with a verdict: marked with it, and the loop goes on to lake `i + 1`. */
  lemma LakeMarked(lines: Rows, before: Rows, after: Rows, lakes: seq<int>, i: nat,
    firsts: seq<Option<int>>, seconds: seq<Option<int>>, first: Option<int>, second: Option<int>)
    requires LakeLoop(lines, before, lakes, i, true, firsts, seconds) && i < |lakes|
    requires Known(lines, first, second) && Judgement(lines, first, second).Ok?
    requires after == WithKind(before, lakes[i], Judgement(lines, first, second).value)
    ensures LakeLoop(lines, after, lakes, i + 1, true, firsts + [first], seconds + [second])
  {
    var id := lakes[i];
    var f2, s2 := firsts + [first], seconds + [second];
    var j := Judgement(lines, first, second);
    LakeTyped(lines, id);
    MarksContainLake();
    assert before[id] == lines[id];
    CandidatesStable(before, id, j.value);
    CandidatesTrans(after, before, lines);
    forall k | 0 <= k < |f2|
      ensures Known(lines, f2[k], s2[k])
    {
      if k < i { assert f2[k] == firsts[k] && s2[k] == seconds[k]; }
    }
    forall k | 0 <= k < i + 1
      ensures Judgement(lines, f2[k], s2[k]).Ok?
      ensures after[lakes[k]] == lines[lakes[k]].(kind := Judgement(lines, f2[k], s2[k]).value)
    {
      if k < i {
        assert f2[k] == firsts[k] && s2[k] == seconds[k];
        assert lakes[k] != id;
      }
    }
    forall k | i + 1 <= k < |lakes|
      ensures after[lakes[k]] == lines[lakes[k]]
    {
      assert lakes[k] != id;
    }
  }

  /** Keeping the candidate rings is transitive. */
  lemma CandidatesTrans(c: Rows, b: Rows, a: Rows)
    requires CandidatesKept(c, b) && CandidatesKept(b, a)
    ensures CandidatesKept(c, a)
  {
  }

  /** A lake whose check fails: nothing changes, and the loop stops at lake `i`. */
  lemma LakeAborted(lines: Rows, rows: Rows, lakes: seq<int>, i: nat,
    firsts: seq<Option<int>>, seconds: seq<Option<int>>, first: Option<int>, second: Option<int>)
    requires LakeLoop(lines, rows, lakes, i, true, firsts, seconds) && i < |lakes|
    requires Known(lines, first, second) && Judgement(lines, first, second).Fail?
    ensures LakeLoop(lines, rows, lakes, i, false, firsts + [first], seconds + [second])
  {
    var f2, s2 := firsts + [first], seconds + [second];
    assert f2[i] == first && s2[i] == second;
    assert forall k :: 0 <= k < i ==> f2[k] == firsts[k] && s2[k] == seconds[k];
  }

  /** What the loop state says once the loop has stopped: all lakes marked, or an abort at lake `i`. */
  lemma LakesDone(lines: Rows, rows: Rows, lakes: seq<int>, i: nat, going: bool,
    firsts: seq<Option<int>>, seconds: seq<Option<int>>)
    requires LakeLoop(lines, rows, lakes, i, going, firsts, seconds) && (going ==> i == |lakes|)
    ensures forall k :: 0 <= k < |lakes| ==> lakes[k] in lines
    ensures |firsts| == |seconds| <= |lakes| && (going ==> |firsts| == |lakes|)
    ensures forall k :: 0 <= k < |firsts| ==> Known(lines, firsts[k], seconds[k])
    ensures forall k :: 0 <= k < |firsts| && Judgement(lines, firsts[k], seconds[k]).Ok? ==>
      rows[lakes[k]] == lines[lakes[k]].(kind := Judgement(lines, firsts[k], seconds[k]).value)
    ensures going ==> forall k :: 0 <= k < |firsts| ==> Judgement(lines, firsts[k], seconds[k]).Ok?
    ensures !going ==> |firsts| > 0 && Judgement(lines, firsts[|firsts| - 1], seconds[|firsts| - 1]).Fail?
    ensures !going ==> forall k :: 0 <= k < |firsts| - 1 ==> Judgement(lines, firsts[k], seconds[k]).Ok?
    ensures !going ==> forall k :: |firsts| - 1 <= k < |lakes| ==> rows[lakes[k]] == lines[lakes[k]]
  {
  }

  /** One pass of the lake loop: check lake `i` against the candidate rings. */
  method CheckNext(t: Table, e: Engine, lines: Rows, lakes: seq<int>, i: nat,
    ghost firsts: seq<Option<int>>, ghost seconds: seq<Option<int>>)
    returns (r: Outcome, ghost first: Option<int>, ghost second: Option<int>)
    requires t.Valid() && i < |lakes|
    requires LakeLoop(lines, t.rows, lakes, i, true, firsts, seconds) && AllQueried(e, lines, lakes, firsts, seconds)
    modifies t
    ensures t.Valid() && t.serial == old(t.serial)
    ensures LakeLoop(lines, t.rows, lakes, if r.Done? then i + 1 else i, r.Done?, firsts + [first], seconds + [second])
    ensures AllQueried(e, lines, lakes, firsts + [first], seconds + [second])
  {
    var id := lakes[i];
    ghost var before := t.rows;
    r, first, second := CheckLake(t, e, id, lines[id].geom);
    QueriedStable(e, before, lines, lines[id].geom, first, second);
    QueriedMore(e, lines, lakes, firsts, seconds, first, second);
    LakeStep(lines, before, t.rows, lakes, i, firsts, seconds, first, second);
  }

  /**
   * The lake loop: the lake rings are checked in id order, each against the candidate rings
   * of the table as it was (the marks never touch them); `firsts[k]`/`seconds[k]` are the
   * query results of lake `k`. A lake that aborts ends the loop; every lake before it is
   * marked with its verdict, and no other row and no other column changes.
   */
  method CheckLakes(t: Table, e: Engine) returns (r: Outcome, lakes: seq<int>, ghost firsts: seq<Option<int>>, ghost seconds: seq<Option<int>>)
    requires t.Valid()
    modifies t
    ensures t.Valid() && t.serial == old(t.serial) && t.rows.Keys == old(t.rows).Keys
    ensures Increasing(lakes) && Elems(lakes) == LakeRings(old(t.rows))
    ensures forall k :: 0 <= k < |lakes| ==> lakes[k] in old(t.rows)
    ensures |firsts| == |seconds| <= |lakes| && (r.Done? ==> |firsts| == |lakes|)
    ensures forall k :: 0 <= k < |firsts| ==> Queried(e, old(t.rows), old(t.rows)[lakes[k]].geom, firsts[k], seconds[k])
    ensures forall k :: 0 <= k < |firsts| ==> Known(old(t.rows), firsts[k], seconds[k])
    ensures forall k :: 0 <= k < |firsts| && Judgement(old(t.rows), firsts[k], seconds[k]).Ok? ==>
      t.rows[lakes[k]] == old(t.rows)[lakes[k]].(kind := Judgement(old(t.rows), firsts[k], seconds[k]).value)
    ensures r.Done? ==> forall k :: 0 <= k < |firsts| ==> Judgement(old(t.rows), firsts[k], seconds[k]).Ok?
    ensures r.Abort? ==> |firsts| > 0 && Judgement(old(t.rows), firsts[|firsts| - 1], seconds[|firsts| - 1]).Fail?
    ensures r.Abort? ==> forall k :: 0 <= k < |firsts| - 1 ==> Judgement(old(t.rows), firsts[k], seconds[k]).Ok?
    ensures r.Abort? ==> forall k :: |firsts| - 1 <= k < |lakes| ==> t.rows[lakes[k]] == old(t.rows)[lakes[k]]
    ensures forall id :: id in old(t.rows) && id !in LakeRings(old(t.rows)) ==> t.rows[id] == old(t.rows)[id]
  {
    var lines := t.rows;
    lakes := SortIds(LakeRings(lines));
    ghost var i;
    r, i, firsts, seconds := CheckEach(t, e, lines, lakes);
    LakesDone(lines, t.rows, lakes, i, r.Done?, firsts, seconds);
  }

  /** The loop of `CheckLakes` over the sorted lake rings `lakes` of table `lines`. */
  method CheckEach(t: Table, e: Engine, lines: Rows, lakes: seq<int>)
    returns (r: Outcome, ghost i: nat, ghost firsts: seq<Option<int>>, ghost seconds: seq<Option<int>>)
    requires t.Valid() && t.rows == lines && Increasing(lakes) && Elems(lakes) == LakeRings(lines)
    modifies t
    ensures t.Valid() && t.serial == old(t.serial)
    ensures LakeLoop(lines, t.rows, lakes, i, r.Done?, firsts, seconds) && (r.Done? ==> i == |lakes|)
    ensures AllQueried(e, lines, lakes, firsts, seconds)
  {
    r := Done;
    firsts, seconds := [], [];
    i := 0;
    assert forall k :: 0 <= k < |lakes| ==> lakes[k] in Elems(lakes);
    var j := 0;
    while j < |lakes| && r.Done?
      invariant t.Valid() && t.serial == old(t.serial) && i == j
      invariant LakeLoop(lines, t.rows, lakes, i, r.Done?, firsts, seconds)
      invariant AllQueried(e, lines, lakes, firsts, seconds)
      decreases |lakes| - j, if r.Done? then 1 else 0
    {
      ghost var first, second;
      r, first, second := CheckNext(t, e, lines, lakes, j, firsts, seconds);
      firsts, seconds := firsts + [first], seconds + [second];
      if r.Done? {
        i, j := i + 1, j + 1;
      }
    }
  }

  // ---------------------------------------------------------------- label_rings

  /** The inner loop for the fixed ring at rank `r` with height `v`: an unconditional UPDATE by id. */
  function LakeFixPass(rows: Rows, chain: seq<int>, kinds: seq<string>, v: int, r: int, n: nat): Rows
    requires n <= |chain| == |kinds|
  {
    if n == 0 then rows
    else
      var prev := LakeFixPass(rows, chain, kinds, v, r, n - 1);
      var h := IntToString(Height(v, r, n - 1));
      if h != kinds[n - 1] && Contains(kinds[n - 1], "CONTOURS") then WithKind(prev, chain[n - 1], h) else prev
  }

  /** The outer loop over the first `n` ranks, given the height each rank's type carries (see `Labels`). */
  function LakeLabelPass(rows: Rows, chain: seq<int>, kinds: seq<string>, labels: seq<Option<int>>, n: nat): Rows
    requires n <= |chain| == |kinds| == |labels|
  {
    if n == 0 then rows
    else
      var prev := LakeLabelPass(rows, chain, kinds, labels, n - 1);
      if labels[n - 1].Some? then LakeFixPass(prev, chain, kinds, labels[n - 1].value, n - 1, |chain|) else prev
  }

  /** The rank of the farthest fixed ring among the first `n`. */
  function LastFixed(labels: seq<Option<int>>, n: nat): (f: Option<nat>)
    requires n <= |labels|
    ensures f.Some? ==> f.value < n && labels[f.value].Some? && forall j :: f.value < j < n ==> labels[j].None?
    ensures f.None? ==> forall j :: 0 <= j < n ==> labels[j].None?
  {
    if n == 0 then None
    else if labels[n - 1].Some? then Some(n - 1)
    else LastFixed(labels, n - 1)
  }

  /** One pass keeps every key and every row off its first `n` ranks. */
  lemma {:induction false} LakeFixPassKeeps(rows: Rows, chain: seq<int>, kinds: seq<string>, v: int, r: int, n: nat)
    requires Distinct(chain) && n <= |chain| == |kinds|
    ensures LakeFixPass(rows, chain, kinds, v, r, n).Keys == rows.Keys
    ensures forall id :: id in rows && (forall c :: 0 <= c < n ==> chain[c] != id) ==>
      LakeFixPass(rows, chain, kinds, v, r, n)[id] == rows[id]
  {
    if n > 0 {
      LakeFixPassKeeps(rows, chain, kinds, v, r, n - 1);
      var prev := LakeFixPass(rows, chain, kinds, v, r, n - 1);
      var h := IntToString(Height(v, r, n - 1));
      assert LakeFixPass(rows, chain, kinds, v, r, n) ==
        if h != kinds[n - 1] && Contains(kinds[n - 1], "CONTOURS") then WithKind(prev, chain[n - 1], h) else prev;
      forall id | id in rows && (forall c :: 0 <= c < n ==> chain[c] != id)
        ensures LakeFixPass(rows, chain, kinds, v, r, n)[id] == rows[id]
      {
        assert chain[n - 1] != id;
        assert forall c :: 0 <= c < n - 1 ==> chain[c] != id;
        assert prev[id] == rows[id];
      }
    }
  }

  /** One pass gives every rank whose queried type was CONTOURS its own height. */
  lemma {:induction false} LakeFixPassValues(rows: Rows, chain: seq<int>, kinds: seq<string>, v: int, r: int, n: nat)
    requires Distinct(chain) && n <= |chain| == |kinds|
    ensures LakeFixPass(rows, chain, kinds, v, r, n).Keys == rows.Keys
    ensures forall c :: 0 <= c < n && chain[c] in rows ==>
      LakeFixPass(rows, chain, kinds, v, r, n)[chain[c]] ==
        (if Contains(kinds[c], "CONTOURS") then rows[chain[c]].(kind := IntToString(Height(v, r, c))) else rows[chain[c]])
  {
    if n > 0 {
      LakeFixPassValues(rows, chain, kinds, v, r, n - 1);
      var prev := LakeFixPass(rows, chain, kinds, v, r, n - 1);
      var cur := LakeFixPass(rows, chain, kinds, v, r, n);
      var id := chain[n - 1];
      var h := IntToString(Height(v, r, n - 1));
      NumberHasNoTag(Height(v, r, n - 1), "CONTOURS");
      assert Contains(kinds[n - 1], "CONTOURS") ==> h != kinds[n - 1];
      assert cur == if Contains(kinds[n - 1], "CONTOURS") then WithKind(prev, id, h) else prev;
      forall c | 0 <= c < n && chain[c] in rows
        ensures cur[chain[c]] ==
          (if Contains(kinds[c], "CONTOURS") then rows[chain[c]].(kind := IntToString(Height(v, r, c))) else rows[chain[c]])
      {
        if c < n - 1 {
          assert chain[c] != id;
          assert cur[chain[c]] == prev[chain[c]];
        } else {
          LakeFixPassUntouched(rows, chain, kinds, v, r, n - 1);
        }
      }
    }
  }

  /** The next rank of the chain is untouched by the passes over the ranks before it. */
  lemma LakeFixPassUntouched(rows: Rows, chain: seq<int>, kinds: seq<string>, v: int, r: int, n: nat)
    requires Distinct(chain) && n < |chain| == |kinds| && chain[n] in rows
    ensures chain[n] in LakeFixPass(rows, chain, kinds, v, r, n)
    ensures LakeFixPass(rows, chain, kinds, v, r, n)[chain[n]] == rows[chain[n]]
  {
    LakeFixPassKeeps(rows, chain, kinds, v, r, n);
    assert forall k :: 0 <= k < n ==> chain[k] != chain[n];
  }

  /**
   * One pass overwrites the type of every rank whose queried type was CONTOURS (a printed
   * height never equals such a type) and leaves every other row.
   */
  lemma LakeFixPassShape(rows: Rows, chain: seq<int>, kinds: seq<string>, v: int, r: int, n: nat)
    requires Distinct(chain) && n <= |chain| == |kinds|
    ensures LakeFixPass(rows, chain, kinds, v, r, n).Keys == rows.Keys
    ensures forall id :: id in rows && (forall c :: 0 <= c < n ==> chain[c] != id) ==>
      LakeFixPass(rows, chain, kinds, v, r, n)[id] == rows[id]
    ensures forall c :: 0 <= c < n && chain[c] in rows ==>
      LakeFixPass(rows, chain, kinds, v, r, n)[chain[c]] ==
        (if Contains(kinds[c], "CONTOURS") then rows[chain[c]].(kind := IntToString(Height(v, r, c))) else rows[chain[c]])
  {
    LakeFixPassKeeps(rows, chain, kinds, v, r, n);
    LakeFixPassValues(rows, chain, kinds, v, r, n);
  }

  /** What a whole pass leaves at rank `c`. */
  lemma FixPassAt(rows: Rows, chain: seq<int>, kinds: seq<string>, v: int, r: int, c: nat)
    requires Distinct(chain) && |chain| == |kinds| && c < |chain| && chain[c] in rows
    ensures chain[c] in LakeFixPass(rows, chain, kinds, v, r, |chain|)
    ensures LakeFixPass(rows, chain, kinds, v, r, |chain|)[chain[c]] ==
      (if Contains(kinds[c], "CONTOURS") then rows[chain[c]].(kind := IntToString(Height(v, r, c))) else rows[chain[c]])
  {
    LakeFixPassShape(rows, chain, kinds, v, r, |chain|);
  }

  /** A whole pass keeps every row and touches only the chain. */
  lemma FixPassFrame(rows: Rows, chain: seq<int>, kinds: seq<string>, v: int, r: int)
    requires Distinct(chain) && |chain| == |kinds|
    ensures LakeFixPass(rows, chain, kinds, v, r, |chain|).Keys == rows.Keys
    ensures forall id :: id in rows && id !in chain ==> LakeFixPass(rows, chain, kinds, v, r, |chain|)[id] == rows[id]
  {
    LakeFixPassShape(rows, chain, kinds, v, r, |chain|);
    forall id | id in rows && id !in chain
      ensures forall c :: 0 <= c < |chain| ==> chain[c] != id
    {
    }
  }

  /** The passes keep every row and touch only the chain. */
  lemma {:induction false} LakeLabelPassFrame(rows: Rows, chain: seq<int>, kinds: seq<string>, labels: seq<Option<int>>, n: nat)
    requires Distinct(chain) && n <= |chain| == |kinds| == |labels|
    ensures LakeLabelPass(rows, chain, kinds, labels, n).Keys == rows.Keys
    ensures forall id :: id in rows && id !in chain ==> LakeLabelPass(rows, chain, kinds, labels, n)[id] == rows[id]
  {
    if n > 0 {
      LakeLabelPassFrame(rows, chain, kinds, labels, n - 1);
      var prev := LakeLabelPass(rows, chain, kinds, labels, n - 1);
      var cur := LakeLabelPass(rows, chain, kinds, labels, n);
      if labels[n - 1].Some? {
        FixPassFrame(prev, chain, kinds, labels[n - 1].value, n - 1);
        assert cur == LakeFixPass(prev, chain, kinds, labels[n - 1].value, n - 1, |chain|);
      } else {
        assert cur == prev;
      }
      assert cur.Keys == prev.Keys;
      assert forall id :: id in prev && id !in chain ==> cur[id] == prev[id];
    }
  }

  /** The closed form of rank `c`'s row after the first `n` ranks: the height from the farthest fixed ring so far, if it was unlabelled. */
  function LakeRow(rows: Rows, chain: seq<int>, kinds: seq<string>, labels: seq<Option<int>>, n: nat, c: nat): Feature
    requires ChainOf(rows, chain) && n <= |chain| == |kinds| == |labels| && c < |chain|
  {
    var f := LastFixed(labels, n);
    if f.Some? && Contains(kinds[c], "CONTOURS") then rows[chain[c]].(kind := IntToString(Height(labels[f.value].value, f.value, c)))
    else rows[chain[c]]
  }

  /** A fixed rank rewrites every CONTOURS rank with its own heights, whatever nearer ranks wrote. */
  lemma StepFixedRank(rows: Rows, chain: seq<int>, kinds: seq<string>, labels: seq<Option<int>>, n: nat, c: nat)
    requires ChainOf(rows, chain) && 0 < n <= |chain| == |kinds| == |labels| && c < |chain|
    requires labels[n - 1].Some?
    requires LakeLabelPass(rows, chain, kinds, labels, n - 1).Keys == rows.Keys
    requires LakeLabelPass(rows, chain, kinds, labels, n - 1)[chain[c]] == LakeRow(rows, chain, kinds, labels, n - 1, c)
    ensures chain[c] in LakeLabelPass(rows, chain, kinds, labels, n)
    ensures LakeLabelPass(rows, chain, kinds, labels, n)[chain[c]] == LakeRow(rows, chain, kinds, labels, n, c)
  {
    var v := labels[n - 1].value;
    var prev := LakeLabelPass(rows, chain, kinds, labels, n - 1);
    assert LakeLabelPass(rows, chain, kinds, labels, n) == LakeFixPass(prev, chain, kinds, v, n - 1, |chain|);
    FixPassAt(prev, chain, kinds, v, n - 1, c);
    assert LastFixed(labels, n) == Some(n - 1);
  }

  /** A rank that is not fixed changes nothing. */
  lemma StepPlainRank(rows: Rows, chain: seq<int>, kinds: seq<string>, labels: seq<Option<int>>, n: nat, c: nat)
    requires ChainOf(rows, chain) && 0 < n <= |chain| == |kinds| == |labels| && c < |chain|
    requires labels[n - 1].None?
    requires LakeLabelPass(rows, chain, kinds, labels, n - 1).Keys == rows.Keys
    requires LakeLabelPass(rows, chain, kinds, labels, n - 1)[chain[c]] == LakeRow(rows, chain, kinds, labels, n - 1, c)
    ensures chain[c] in LakeLabelPass(rows, chain, kinds, labels, n)
    ensures LakeLabelPass(rows, chain, kinds, labels, n)[chain[c]] == LakeRow(rows, chain, kinds, labels, n, c)
  {
    assert LakeLabelPass(rows, chain, kinds, labels, n) == LakeLabelPass(rows, chain, kinds, labels, n - 1);
    assert LastFixed(labels, n) == LastFixed(labels, n - 1);
  }

  /** Rank `c` after the first `n` ranks: the height from the farthest fixed ring so far, if it was unlabelled. */
  lemma {:induction false} LastFixedRow(rows: Rows, chain: seq<int>, kinds: seq<string>, labels: seq<Option<int>>, n: nat, c: nat)
    requires ChainOf(rows, chain) && n <= |chain| == |kinds| == |labels| && c < |chain|
    ensures chain[c] in LakeLabelPass(rows, chain, kinds, labels, n)
    ensures LakeLabelPass(rows, chain, kinds, labels, n)[chain[c]] == LakeRow(rows, chain, kinds, labels, n, c)
  {
    if n > 0 {
      LastFixedRow(rows, chain, kinds, labels, n - 1, c);
      LakeLabelPassFrame(rows, chain, kinds, labels, n - 1);
      if labels[n - 1].Some? {
        StepFixedRank(rows, chain, kinds, labels, n, c);
      } else {
        StepPlainRank(rows, chain, kinds, labels, n, c);
      }
    }
  }

  /**
   * The farthest fixed ring wins: every later fixed ring overwrites the types the nearer ones
   * wrote, because the test reads the types as the query returned them. Every row outside
   * the chain, and every ring that was labelled, is left as it was.
   */
  lemma LastFixedWins(rows: Rows, chain: seq<int>, kinds: seq<string>)
    requires ChainOf(rows, chain) && |chain| == |kinds|
    requires AllParse(kinds)
    ensures var f := LastFixed(Labels(kinds), |chain|);
      f.Some? ==> Fixed(kinds[f.value]) && forall j :: f.value < j < |chain| ==> !Fixed(kinds[j])
    ensures LastFixed(Labels(kinds), |chain|).None? ==> forall j :: 0 <= j < |chain| ==> !Fixed(kinds[j])
    ensures LakeLabelPass(rows, chain, kinds, Labels(kinds), |chain|).Keys == rows.Keys
    ensures forall id :: id in rows && id !in chain ==> LakeLabelPass(rows, chain, kinds, Labels(kinds), |chain|)[id] == rows[id]
    ensures forall c :: 0 <= c < |chain| ==>
      LakeLabelPass(rows, chain, kinds, Labels(kinds), |chain|)[chain[c]] == (var f := LastFixed(Labels(kinds), |chain|);
       if f.Some? && Contains(kinds[c], "CONTOURS")
       then rows[chain[c]].(kind := IntToString(Height(ParseInt(kinds[f.value]).value, f.value, c)))
       else rows[chain[c]])
  {
    var labels := Labels(kinds);
    LabelsRead(kinds);
    LakeLabelPassFrame(rows, chain, kinds, labels, |chain|);
    forall c | 0 <= c < |chain|
      ensures LakeLabelPass(rows, chain, kinds, labels, |chain|)[chain[c]] == LakeRow(rows, chain, kinds, labels, |chain|, c)
    {
      LastFixedRow(rows, chain, kinds, labels, |chain|, c);
    }
  }

  /** The inner loop of this `label_rings`. */
  method LakeFixRing(t: Table, chain: seq<int>, kinds: seq<string>, v: int, r: int)
    requires t.Valid() && |chain| == |kinds|
    modifies t
    ensures t.Valid() && t.serial == old(t.serial) && t.rows.Keys == old(t.rows).Keys
    ensures t.rows == LakeFixPass(old(t.rows), chain, kinds, v, r, |chain|)
  {
    for c := 0 to |chain|
      invariant t.Valid() && t.serial == old(t.serial) && t.rows.Keys == old(t.rows).Keys
      invariant t.rows == LakeFixPass(old(t.rows), chain, kinds, v, r, c)
    {
      ghost var prev := t.rows;
      var h := IntToString(Height(v, r, c));
      if h != kinds[c] && Contains(kinds[c], "CONTOURS") {
        t.SetKind(chain[c], h);
      }
      assert t.rows == (if h != kinds[c] && Contains(kinds[c], "CONTOURS") then WithKind(prev, chain[c], h) else prev);
    }
  }

  /**
   * The loop of this `label_rings` over the ranks of a chain: each fixed type is read with
   * `int()` and its ring's pass made; a type that does not read aborts with what was done before it.
   */
  method LakeLabelChain(t: Table, chain: seq<int>, kinds: seq<string>) returns (r: Outcome)
    requires t.Valid() && |chain| == |kinds|
    modifies t
    ensures t.Valid() && t.serial == old(t.serial) && t.rows.Keys == old(t.rows).Keys
    ensures r.Done? <==> AllParse(kinds)
    ensures r.Abort? ==> r.fault == BadInteger
    ensures r.Done? ==> t.rows == LakeLabelPass(old(t.rows), chain, kinds, Labels(kinds), |chain|)
  {
    ghost var rows0 := t.rows;
    r := Done;
    var i := 0;
    while i < |chain| && r.Done?
      invariant 0 <= i <= |chain|
      invariant t.Valid() && t.serial == old(t.serial) && t.rows.Keys == rows0.Keys
      invariant r.Done? ==> t.rows == LakeLabelPass(rows0, chain, kinds, Labels(kinds), i)
      invariant r.Done? ==> forall k :: 0 <= k < i ==> Readable(kinds[k])
      invariant r.Abort? ==> r.fault == BadInteger && !AllParse(kinds)
      decreases |chain| - i, if r.Done? then 1 else 0
    {
      r := LakeLabelStep(t, chain, kinds, i, rows0);
      if r.Done? {
        i := i + 1;
      }
    }
  }

  /** One rank of the loop: a fixed type that reads runs its ring's pass, one that does not aborts. */
  method LakeLabelStep(t: Table, chain: seq<int>, kinds: seq<string>, i: nat, ghost rows0: Rows) returns (r: Outcome)
    requires t.Valid() && i < |chain| == |kinds|
    requires t.rows == LakeLabelPass(rows0, chain, kinds, Labels(kinds), i)
    modifies t
    ensures t.Valid() && t.serial == old(t.serial) && t.rows.Keys == old(t.rows).Keys
    ensures r.Done? <==> Readable(kinds[i])
    ensures r.Abort? ==> r.fault == BadInteger
    ensures r.Done? ==> t.rows == LakeLabelPass(rows0, chain, kinds, Labels(kinds), i + 1)
  {
    ghost var labels := Labels(kinds);
    r := Done;
    if Fixed(kinds[i]) {
      var v := ParseInt(kinds[i]);
      if v.None? {
        r := Abort(BadInteger);
      } else {
        assert labels[i] == v;
        ghost var prev := t.rows;
        LakeFixRing(t, chain, kinds, v.value, i);
        assert LakeLabelPass(rows0, chain, kinds, labels, i + 1) == LakeFixPass(prev, chain, kinds, v.value, i, |chain|);
      }
    } else {
      assert labels[i].None?;
      assert LakeLabelPass(rows0, chain, kinds, labels, i + 1) == LakeLabelPass(rows0, chain, kinds, labels, i);
    }
  }

  /**
   * `label_rings` of the lake script for the top ring `top`; as in the contour script except
   * that the UPDATE tests the type the query returned, not the current one.
   */
  method LabelRings(t: Table, e: Engine, top: Line) returns (r: Outcome, chain: seq<int>)
    requires t.Valid()
    modifies t
    ensures t.Valid() && t.serial == old(t.serial) && t.rows.Keys == old(t.rows).Keys
    ensures ChainOf(old(t.rows), chain) && Elems(chain) == Enclosing(e, old(t.rows), top)
    ensures r.Done? <==> AllParse(Kinds(old(t.rows), chain))
    ensures r.Abort? ==> r.fault == BadInteger
    ensures r.Done? ==> t.rows == LakeLabelPass(old(t.rows), chain, Kinds(old(t.rows), chain), Labels(Kinds(old(t.rows), chain)), |chain|)
  {
    chain := RingChain(t.rows, e, top);
    r := LakeLabelChain(t, chain, Kinds(t.rows, chain));
  }

  // ---------------------------------------------------------------- main

  /** "Revisit unlabeled rings": closed contour rings that enclose no lake and no other contour. */
  predicate TopRing(e: Engine, rows: Rows, id: int)
    requires id in rows
  {
    IsClosed(rows[id].geom) && ContourLike(rows[id].kind) &&
    !(exists o :: o in rows && Contains(rows[o].kind, "LAKE") && e.coversLine(rows[id].geom, rows[o].geom)) &&
    !(exists o :: o in rows && o != id && ContourLike(rows[o].kind) && e.coversLine(rows[id].geom, rows[o].geom))
  }

  function TopRings(e: Engine, rows: Rows): set<int>
  {
    set id | id in rows && TopRing(e, rows, id)
  }

  /** `label_rings` for each top ring, in id order. */
  method LabelTops(t: Table, e: Engine) returns (r: Outcome, tops: seq<int>)
    requires t.Valid()
    modifies t
    ensures t.Valid() && t.rows.Keys == old(t.rows).Keys
    ensures Increasing(tops) && Elems(tops) == TopRings(e, old(t.rows))
  {
    var lines := t.rows;
    tops := SortIds(TopRings(e, lines));
    r := Done;
    for i := 0 to |tops|
      invariant t.Valid() && t.rows.Keys == lines.Keys
    {
      assert tops[i] in Elems(tops);
      var res, _ := LabelRings(t, e, lines[tops[i]].geom);
      if res.Abort? {
        return res, tops;
      }
    }
  }

  /**
   * The lake pass in order: a table without LAKES lines aborts at once (the first row of an
   * empty selection), then prune, check every lake, label the rings around each top ring.
   */
  method Run(t: Table, e: Engine) returns (r: Outcome)
    requires t.Valid()
    modifies t
    ensures t.Valid() && t.rows.Keys <= old(t.rows).Keys
    ensures old(LakeLines(t.rows)) == {} ==> r == Abort(NoRow)
  {
    if LakeLines(t.rows) == {} {
      return Abort(NoRow);
    }
    t.RemovePathological(e, "LAKES", EPS);
    var lakes;
    ghost var firsts, seconds;
    r, lakes, firsts, seconds := CheckLakes(t, e);
    if r.Abort? {
      return r;
    }
    var tops;
    r, tops := LabelTops(t, e);
  }

  /** The rows of the "Identifying lines" query. */
  function LakeLines(rows: Rows): set<int>
  {
    set id | id in rows && Contains(rows[id].kind, "LAKES")
  }
}
