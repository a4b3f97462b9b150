/**
 * `geo_rivers.py`: river tracing. Area rivers are thinned to axis lines, every open STREAMS
 * line becomes a `candidate`, and candidates are resolved level by level: a candidate whose
 * start or end lies near the terminal of the level is retracted vertex by vertex out of the
 * terminal and replaced by a `River/{level}/Mouth:{side}` row; lakes reached by a Mouth
 * become terminals of the next level. Level 0's terminal is the coast (`type '0'`), level
 * l's the union of the Mouths of level l - 1.
 */
module Rivers {
  import opened Common
  import opened Text
  import opened Geometry
  import opened Features

  /** Distance considered connected; a bit bigger than the coast buffer. */
  const EPS: real := 0.0045
  /** The style of an area river (a closed STREAMS polygon). */
  const AREA_FILL: string := "fill: #36868d"

  /** A terminal boundary: the union of its lines. */
  type Terminal = set<Line>

  // ---------------------------------------------------------------- rows of the tracer

  /** A row still waiting for its river: named `candidate` and not yet tagged `River/`. */
  predicate Unresolved(f: Feature)
  {
    f.name == "candidate" && !StartsWith(f.kind, "River/")
  }

  /** The unresolved candidates of a table. */
  function Pool(rows: Rows): set<int>
  {
    set id | id in rows && Unresolved(rows[id])
  }

  /** A row the tracer inserts: an axis candidate of an area river, or a river Mouth. */
  predicate Produced(f: Feature)
  {
    (f.name == "candidate" && f.kind == "STREAMS") || (f.name == "-" && StartsWith(f.kind, "River/"))
  }

  /**
   * What a tracer step may do to a table: the sequence only grows, a row that survives keeps
   * its name and type, and every new row is one the tracer produces, under a fresh id.
   */
  ghost predicate Evolves(a: Rows, sa: int, b: Rows, sb: int)
  {
    sa <= sb
    && (forall id :: id in b && id in a ==> b[id].name == a[id].name && b[id].kind == a[id].kind)
    && (forall id :: id in b && id !in a ==> sa <= id && Produced(b[id]))
  }

  /** Steps compose, because ids drawn from the sequence are never reused. */
  lemma EvolvesTrans(a: Rows, sa: int, b: Rows, sb: int, c: Rows, sc: int)
    requires forall id :: id in a ==> id < sa
    requires Evolves(a, sa, b, sb) && Evolves(b, sb, c, sc)
    ensures Evolves(a, sa, c, sc)
  {
  }

  // ---------------------------------------------------------------- retraction

  /** `g` with `k` vertices removed at the chosen end. */
  function Cut(g: Line, side: Side, k: nat): (r: Line)
    requires k <= |g|
    ensures |r| == |g| - k
  {
    if side == Start then g[k..] else g[..|g| - k]
  }

  /** Removing one end vertex and then `j - 1` more is removing `j`. */
  lemma CutNext(g: Line, side: Side)
    requires |g| > 0
    ensures Cut(g, side, 0) == g
    ensures forall j :: 1 <= j <= |g| ==> Cut(g, side, j) == Cut(RemoveEndVertex(g, side), side, j - 1)
  {
    forall j | 1 <= j <= |g|
      ensures Cut(g, side, j) == Cut(RemoveEndVertex(g, side), side, j - 1)
    {
      if side == Start {
        assert g[1..][j - 1..] == g[j..];
      } else {
        assert g[..|g| - 1][..|g| - 1 - (j - 1)] == g[..|g| - j];
      }
    }
  }

  /** How the vertex-removal loop ends: the line is clear of the terminal, or it is dropped. */
  datatype Retraction = Clear(g: Line, steps: nat) | Dropped(steps: nat)

  /**
   * What the vertex-removal loop of `handle_river` ends with, for a line `g`: every cut
   * before the exit still intersects the terminal and has 3 or more vertices, and the exit
   * cut is clear of it, or intersecting with fewer than 3 vertices ("duplicate").
   */
  predicate FirstExit(e: Engine, term: Terminal, g: Line, side: Side, r: Retraction)
  {
    r.steps <= |g|
    && (forall j :: 0 <= j < r.steps ==> e.intersects(term, Cut(g, side, j)) && |Cut(g, side, j)| >= 3)
    && (r.Clear? ==> r.g == Cut(g, side, r.steps) && !e.intersects(term, r.g))
    && (r.Dropped? ==> e.intersects(term, Cut(g, side, r.steps)) && |Cut(g, side, r.steps)| < 3)
  }

  /**
   * The vertex-removal loop of `handle_river`: while the line still intersects the terminal,
   * a line of fewer than 3 vertices is dropped and a longer one loses its end vertex.
   */
  function Retracted(e: Engine, term: Terminal, g: Line, side: Side): (r: Retraction)
    decreases |g|
    ensures r.steps <= |g|
    ensures r.Clear? && |g| > 0 ==> |r.g| > 0
  {
    if !e.intersects(term, g) then Clear(g, 0)
    else if |g| < 3 then Dropped(0)
    else
      var r := Retracted(e, term, RemoveEndVertex(g, side), side);
      r.(steps := r.steps + 1)
  }

  /** The loop stops at the first exit. */
  lemma {:induction false} RetractedExit(e: Engine, term: Terminal, g: Line, side: Side)
    decreases |g|
    ensures FirstExit(e, term, g, side, Retracted(e, term, g, side))
  {
    var r := Retracted(e, term, g, side);
    if |g| > 0 {
      CutNext(g, side);
    } else {
      assert Cut(g, side, 0) == g;
    }
    if e.intersects(term, g) && |g| >= 3 {
      var g1 := RemoveEndVertex(g, side);
      RetractedExit(e, term, g1, side);
      var r1 := Retracted(e, term, g1, side);
      assert r == r1.(steps := r1.steps + 1);
      forall j | 0 <= j < r.steps
        ensures e.intersects(term, Cut(g, side, j)) && |Cut(g, side, j)| >= 3
      {
        if j > 0 {
          assert Cut(g, side, j) == Cut(g1, side, j - 1);
        }
      }
      assert Cut(g, side, r.steps) == Cut(g1, side, r1.steps);
    }
  }

  /** The first exit is unique: no other way for the loop to end fits the same line. */
  lemma FirstExitUnique(e: Engine, term: Terminal, g: Line, side: Side, r1: Retraction, r2: Retraction)
    requires FirstExit(e, term, g, side, r1) && FirstExit(e, term, g, side, r2)
    ensures r1 == r2
  {
  }

  /** `handle_river`'s query: an unresolved row whose chosen endpoint lies within EPS of the terminal. */
  function Selected(e: Engine, rows: Rows, side: Side, term: Terminal): (s: set<int>)
    ensures s <= Pool(rows)
    ensures forall id :: id in s ==> |rows[id].geom| > 0 && e.termDist(term, EndpointOf(rows[id].geom, side)) < EPS
  {
    set id | id in rows && Unresolved(rows[id]) && |rows[id].geom| > 0
      && e.termDist(term, EndpointOf(rows[id].geom, side)) < EPS
  }

  /** The type of a Mouth of `level` at `side`. */
  function MouthKind(level: int, side: Side): string
  {
    "River/" + IntToString(level) + "/Mouth:" + SideName(side)
  }

  /** The prefix `River/{level}/` that the next level's terminal query matches. */
  function LevelTag(level: int): string
  {
    "River/" + IntToString(level) + "/"
  }

  /**
   * The row inserted for a cleared line `g`: repeated points removed, the chosen endpoint
   * moved onto the closest point of the terminal, named `-` and tagged with level and side.
   */
  function Mouth(e: Engine, term: Terminal, g: Line, side: Side, level: int): Feature
    requires RemoveRepeatedKeepsPoints(e) && |g| > 0
  {
    Feature("-", MouthKind(level, side),
      SetEndVertex(e.removeRepeated(g), side, e.closest(term, EndpointOf(g, side))), "")
  }

  /**
   * A Mouth ends on the terminal, is never selected again (it is named `-` and tagged
   * `River/`), and belongs to the terminal of the next level.
   */
  lemma MouthShape(e: Engine, term: Terminal, g: Line, side: Side, level: int)
    requires RemoveRepeatedKeepsPoints(e) && |g| > 0
    ensures |Mouth(e, term, g, side, level).geom| > 0
    ensures EndpointOf(Mouth(e, term, g, side, level).geom, side) == e.closest(term, EndpointOf(g, side))
    ensures !Unresolved(Mouth(e, term, g, side, level)) && Produced(Mouth(e, term, g, side, level))
    ensures StartsWith(Mouth(e, term, g, side, level).kind, LevelTag(level))
  {
    var k := MouthKind(level, side);
    var tag := LevelTag(level);
    assert k == tag + ("Mouth:" + SideName(side));
    assert k[..|tag|] == tag;
    assert k[..6] == "River/";
  }

  /** One candidate: retract it; a cleared line becomes a Mouth under the next id, and the candidate row is deleted. */
  function RiverStep(e: Engine, term: Terminal, side: Side, level: int, db: (Rows, int), id: int): (Rows, int)
    requires RemoveRepeatedKeepsPoints(e)
  {
    var (rows, serial) := db;
    if id !in rows || |rows[id].geom| == 0 then db
    else
      match Retracted(e, term, rows[id].geom, side)
      case Dropped(_) => (rows - {id}, serial)
      case Clear(g, _) => ((rows - {id})[serial := Mouth(e, term, g, side, level)], serial + 1)
  }

  /** The candidates `ids` resolved in turn. */
  function RiverPass(e: Engine, term: Terminal, side: Side, level: int, db: (Rows, int), ids: seq<int>): (Rows, int)
    requires RemoveRepeatedKeepsPoints(e)
    decreases |ids|
  {
    if ids == [] then db
    else RiverStep(e, term, side, level, RiverPass(e, term, side, level, db, ids[..|ids| - 1]), ids[|ids| - 1])
  }

  /** One candidate's step deletes it, keeps every other row and adds at most its Mouth, under the next id. */
  lemma RiverStepShape(e: Engine, term: Terminal, side: Side, level: int, rows: Rows, serial: int, id: int)
    requires RemoveRepeatedKeepsPoints(e)
    requires forall x :: x in rows ==> x < serial
    requires id in rows && |rows[id].geom| > 0
    ensures serial <= RiverStep(e, term, side, level, (rows, serial), id).1
    ensures forall x :: x in RiverStep(e, term, side, level, (rows, serial), id).0 ==>
      x < RiverStep(e, term, side, level, (rows, serial), id).1
    ensures id !in RiverStep(e, term, side, level, (rows, serial), id).0
    ensures forall x :: x in rows && x != id ==>
      x in RiverStep(e, term, side, level, (rows, serial), id).0 &&
      RiverStep(e, term, side, level, (rows, serial), id).0[x] == rows[x]
    ensures forall x :: x in RiverStep(e, term, side, level, (rows, serial), id).0 && x !in rows ==>
      serial <= x && RiverStep(e, term, side, level, (rows, serial), id).0[x].name == "-" &&
      RiverStep(e, term, side, level, (rows, serial), id).0[x].kind == MouthKind(level, side)
  {
  }

  /**
   * Resolving distinct candidates deletes each of them, leaves every other row as it was and
   * adds only Mouths of this level, under fresh ids.
   */
  lemma {:induction false} RiverPassShape(e: Engine, term: Terminal, side: Side, level: int, rows: Rows, serial: int, ids: seq<int>)
    requires RemoveRepeatedKeepsPoints(e)
    requires forall id :: id in rows ==> id < serial
    requires Distinct(ids) && forall k :: 0 <= k < |ids| ==> ids[k] in rows && |rows[ids[k]].geom| > 0
    ensures serial <= RiverPass(e, term, side, level, (rows, serial), ids).1
    ensures forall id :: id in RiverPass(e, term, side, level, (rows, serial), ids).0 ==>
      id < RiverPass(e, term, side, level, (rows, serial), ids).1
    ensures forall id :: id in rows && id !in ids ==>
      id in RiverPass(e, term, side, level, (rows, serial), ids).0 &&
      RiverPass(e, term, side, level, (rows, serial), ids).0[id] == rows[id]
    ensures forall id :: id in ids ==> id !in RiverPass(e, term, side, level, (rows, serial), ids).0
    ensures forall id :: id in RiverPass(e, term, side, level, (rows, serial), ids).0 && id !in rows ==>
      serial <= id && RiverPass(e, term, side, level, (rows, serial), ids).0[id].name == "-" &&
      RiverPass(e, term, side, level, (rows, serial), ids).0[id].kind == MouthKind(level, side)
  {
    if ids != [] {
      var init := ids[..|ids| - 1];
      var id := ids[|ids| - 1];
      RiverPassShape(e, term, side, level, rows, serial, init);
      var (prev, s) := RiverPass(e, term, side, level, (rows, serial), init);
      assert id !in init by {
        forall k | 0 <= k < |init|
          ensures init[k] != id
        {
          assert init[k] == ids[k];
        }
      }
      assert id in prev && prev[id] == rows[id];
      RiverStepShape(e, term, side, level, prev, s, id);
      assert RiverPass(e, term, side, level, (rows, serial), ids) == RiverStep(e, term, side, level, (prev, s), id);
      forall x | x in ids
        ensures x in init || x == id
      {
        var k :| 0 <= k < |ids| && ids[k] == x;
        if k < |ids| - 1 {
          assert init[k] == x;
        }
      }
      forall x | x in init
        ensures x in ids
      {
        var k :| 0 <= k < |init| && init[k] == x;
        assert ids[k] == x;
      }
    }
  }

  /** The pool loses exactly the resolved candidates: a Mouth never joins it. */
  lemma RiverPassPool(e: Engine, term: Terminal, side: Side, level: int, rows: Rows, serial: int, ids: seq<int>)
    requires RemoveRepeatedKeepsPoints(e)
    requires forall id :: id in rows ==> id < serial
    requires Distinct(ids) && forall k :: 0 <= k < |ids| ==> ids[k] in rows && |rows[ids[k]].geom| > 0
    ensures Pool(RiverPass(e, term, side, level, (rows, serial), ids).0) == Pool(rows) - Elems(ids)
  {
    RiverPassShape(e, term, side, level, rows, serial, ids);
    var res := RiverPass(e, term, side, level, (rows, serial), ids).0;
    forall id
      ensures id in Pool(res) <==> id in Pool(rows) - Elems(ids)
    {
      if id in res && id !in rows {
        assert res[id].name == "-";
      }
    }
  }

  /** Resolving distinct candidates is a step of the tracer. */
  lemma RiverPassEvolves(e: Engine, term: Terminal, side: Side, level: int, rows: Rows, serial: int, ids: seq<int>)
    requires RemoveRepeatedKeepsPoints(e)
    requires forall id :: id in rows ==> id < serial
    requires Distinct(ids) && forall k :: 0 <= k < |ids| ==> ids[k] in rows && |rows[ids[k]].geom| > 0
    ensures Evolves(rows, serial, RiverPass(e, term, side, level, (rows, serial), ids).0,
      RiverPass(e, term, side, level, (rows, serial), ids).1)
  {
    RiverPassShape(e, term, side, level, rows, serial, ids);
    var res := RiverPass(e, term, side, level, (rows, serial), ids).0;
    forall id | id in res && id !in rows
      ensures Produced(res[id])
    {
      assert res[id].kind == MouthKind(level, side);
      MouthShape(e, term, [Point(0.0, 0.0)], side, level);
    }
  }

  // ---------------------------------------------------------------- handle_river

  /** The `while True` loop for one candidate: UPDATE by UPDATE until it is clear or dropped. */
  method Retract(t: Table, e: Engine, term: Terminal, id: int, side: Side) returns (r: Retraction)
    requires t.Valid() && id in t.rows
    modifies t
    ensures t.Valid() && t.serial == old(t.serial)
    ensures r == Retracted(e, term, old(t.rows)[id].geom, side)
    ensures t.rows == if r.Clear? then WithGeom(old(t.rows), id, r.g) else old(t.rows) - {id}
  {
    var rows0 := t.rows;
    var g := rows0[id].geom;
    var k := 0;
    assert rows0 == WithGeom(rows0, id, g);
    while true
      invariant t.Valid() && t.serial == old(t.serial)
      invariant t.rows == WithGeom(rows0, id, g)
      invariant Retracted(e, term, rows0[id].geom, side) == Retracted(e, term, g, side).(steps := Retracted(e, term, g, side).steps + k)
      decreases |g|
    {
      if !e.intersects(term, g) {
        return Clear(g, k);
      }
      if |g| < 3 {
        t.Delete(id);
        assert WithGeom(rows0, id, g) - {id} == rows0 - {id};
        return Dropped(k);
      }
      var g0 := g;
      g := RemoveEndVertex(g, side);
      k := k + 1;
      t.SetGeom(id, g);
      assert WithGeom(WithGeom(rows0, id, g0), id, g) == WithGeom(rows0, id, g);
    }
  }

  /** One candidate of `handle_river`: retract it, then insert its Mouth and delete it. */
  method RiverLine(t: Table, e: Engine, term: Terminal, side: Side, level: int, id: int)
    requires t.Valid() && RemoveRepeatedKeepsPoints(e)
    requires id in t.rows && |t.rows[id].geom| > 0
    modifies t
    ensures t.Valid()
    ensures (t.rows, t.serial) == RiverStep(e, term, side, level, (old(t.rows), old(t.serial)), id)
  {
    var rows0 := t.rows;
    var r := Retract(t, e, term, id, side);
    if r.Clear? {
      var m := Mouth(e, term, t.rows[id].geom, side, level);
      var nid := t.Insert(m);
      t.Delete(id);
      assert WithGeom(rows0, id, r.g)[nid := m] - {id} == (rows0 - {id})[nid := m];
    }
  }

  /** The loop of `handle_river` over the selected ids, in order. */
  method RiverLines(t: Table, e: Engine, term: Terminal, side: Side, level: int, ids: seq<int>)
    requires t.Valid() && RemoveRepeatedKeepsPoints(e) && Distinct(ids)
    requires forall k :: 0 <= k < |ids| ==> ids[k] in t.rows && |t.rows[ids[k]].geom| > 0
    modifies t
    ensures t.Valid()
    ensures (t.rows, t.serial) == RiverPass(e, term, side, level, (old(t.rows), old(t.serial)), ids)
  {
    ghost var rows0, serial0 := t.rows, t.serial;
    for i := 0 to |ids|
      invariant t.Valid()
      invariant (t.rows, t.serial) == RiverPass(e, term, side, level, (rows0, serial0), ids[..i])
    {
      ghost var init := ids[..i];
      assert Distinct(init);
      RiverPassShape(e, term, side, level, rows0, serial0, init);
      assert ids[i] !in init by {
        forall k | 0 <= k < i
          ensures init[k] != ids[i]
        {
        }
      }
      RiverLine(t, e, term, side, level, ids[i]);
      assert ids[..i + 1][..i] == init;
    }
    assert ids[..|ids|] == ids;
  }

  /**
   * `handle_river(vertex, level, old)`: resolve every selected candidate in id order; the
   * result is their number, which the level loop adds up.
   */
  method HandleRiver(t: Table, e: Engine, side: Side, level: int, term: Terminal) returns (n: nat, ids: seq<int>)
    requires t.Valid() && RemoveRepeatedKeepsPoints(e)
    modifies t
    ensures t.Valid()
    ensures Increasing(ids) && Elems(ids) == Selected(e, old(t.rows), side, term)
    ensures n == |ids| == |Selected(e, old(t.rows), side, term)|
    ensures (t.rows, t.serial) == RiverPass(e, term, side, level, (old(t.rows), old(t.serial)), ids)
    ensures Pool(t.rows) == Pool(old(t.rows)) - Selected(e, old(t.rows), side, term)
    ensures |Pool(t.rows)| == |Pool(old(t.rows))| - n
    ensures Evolves(old(t.rows), old(t.serial), t.rows, t.serial)
  {
    var rows0, serial0 := t.rows, t.serial;
    var s := Selected(e, rows0, side, term);
    ids := SortIds(s);
    assert Distinct(ids);
    DistinctCard(ids);
    n := |ids|;
    RiverLines(t, e, term, side, level, ids);
    RiverPassPool(e, term, side, level, rows0, serial0, ids);
    RiverPassEvolves(e, term, side, level, rows0, serial0, ids);
    assert Selected(e, rows0, side, term) <= Pool(rows0);
    assert |Pool(rows0) - s| == |Pool(rows0)| - |s|;
  }

  // ---------------------------------------------------------------- handle_lakes

  /**
   * The Mouths `handle_lakes` clips for a lake: tagged with the other side at this level,
   * their `side` endpoint at a distance strictly between 0 and EPS of the lake's polygon.
   */
  function Inflows(e: Engine, rows: Rows, lake: Line, side: Side, level: int): set<int>
  {
    set id | id in rows && rows[id].kind == MouthKind(level, Opposite(side)) && |rows[id].geom| > 0
      && 0.0 < e.lakeDist(lake, EndpointOf(rows[id].geom, side)) < EPS
  }

  /** `ORDER BY ST_Length DESC LIMIT 1`: a longest piece, the first on a tie. */
  function Longest(e: Engine, ps: seq<Line>): (r: Line)
    requires |ps| > 0
    ensures r in ps
    ensures forall k :: 0 <= k < |ps| ==> e.length(ps[k]) <= e.length(r)
  {
    if |ps| == 1 then ps[0]
    else
      var l := Longest(e, ps[..|ps| - 1]);
      if e.length(ps[|ps| - 1]) > e.length(l) then ps[|ps| - 1] else l
  }

  /** The rows after clipping the lines `s` to the longest piece of their difference with the lake. */
  function Clipped(e: Engine, lake: Line, rows: Rows, s: set<int>): Rows
  {
    map id | id in rows ::
      if id in s && e.clip(rows[id].geom, lake) != [] then rows[id].(geom := Longest(e, e.clip(rows[id].geom, lake)))
      else rows[id]
  }

  /** Clipping keeps every row, its name and type, and so the pool. */
  lemma ClippedShape(e: Engine, lake: Line, rows: Rows, s: set<int>, serial: int)
    ensures Clipped(e, lake, rows, s).Keys == rows.Keys
    ensures Evolves(rows, serial, Clipped(e, lake, rows, s), serial)
    ensures Pool(Clipped(e, lake, rows, s)) == Pool(rows)
  {
    var c := Clipped(e, lake, rows, s);
    forall id | id in rows
      ensures c[id].name == rows[id].name && c[id].kind == rows[id].kind
    {
    }
    forall id
      ensures id in Pool(c) <==> id in Pool(rows)
    {
      if id in rows {
        assert Unresolved(c[id]) == Unresolved(rows[id]);
      }
    }
  }

  /** Clipping one more line is one more UPDATE of its geometry. */
  lemma ClippedStep(e: Engine, lake: Line, rows: Rows, s: set<int>, id: int)
    requires id in rows && id !in s && e.clip(rows[id].geom, lake) != []
    ensures Clipped(e, lake, rows, s + {id}) ==
      WithGeom(Clipped(e, lake, rows, s), id, Longest(e, e.clip(rows[id].geom, lake)))
  {
    var a := Clipped(e, lake, rows, s + {id});
    var b := WithGeom(Clipped(e, lake, rows, s), id, Longest(e, e.clip(rows[id].geom, lake)));
    assert a.Keys == b.Keys;
    forall x | x in a
      ensures a[x] == b[x]
    {
    }
  }

  /** The ids of a prefix one longer: one more id. */
  lemma ElemsStep(ids: seq<int>, i: nat)
    requires Distinct(ids) && i < |ids|
    ensures ids[i] !in Elems(ids[..i])
    ensures Elems(ids[..i + 1]) == Elems(ids[..i]) + {ids[i]}
  {
    assert ids[..i + 1] == ids[..i] + [ids[i]];
  }

  /** Clipping no line leaves the rows. */
  lemma ClippedNone(e: Engine, lake: Line, rows: Rows)
    ensures Clipped(e, lake, rows, {}) == rows
  {
  }

  /**
   * The clipping loop of one lake. The `fetchall()[0]` of an empty difference aborts the
   * run; otherwise each line gets the longest piece of its difference and nothing else changes.
   */
  method ClipInflows(t: Table, e: Engine, lake: Line, ids: seq<int>) returns (r: Outcome)
    requires t.Valid() && Distinct(ids) && forall k :: 0 <= k < |ids| ==> ids[k] in t.rows
    modifies t
    ensures t.Valid() && t.serial == old(t.serial) && t.rows.Keys == old(t.rows).Keys
    ensures r.Done? <==> forall k :: 0 <= k < |ids| ==> e.clip(old(t.rows)[ids[k]].geom, lake) != []
    ensures r.Abort? ==> r.fault == NoRow
    ensures r.Done? ==> t.rows == Clipped(e, lake, old(t.rows), Elems(ids))
    ensures Evolves(old(t.rows), old(t.serial), t.rows, t.serial) && Pool(t.rows) == Pool(old(t.rows))
  {
    ghost var rows0 := t.rows;
    ghost var done: set<int> := {};
    ClippedNone(e, lake, rows0);
    r := Done;
    var i := 0;
    while i < |ids|
      invariant 0 <= i <= |ids|
      invariant t.Valid() && t.serial == old(t.serial)
      invariant done == Elems(ids[..i])
      invariant forall k :: 0 <= k < i ==> e.clip(rows0[ids[k]].geom, lake) != []
      invariant t.rows == Clipped(e, lake, rows0, done)
    {
      ElemsStep(ids, i);
      var ok := ClipOne(t, e, lake, rows0, done, ids[i]);
      if !ok {
        ClippedShape(e, lake, rows0, done, t.serial);
        assert e.clip(rows0[ids[i]].geom, lake) == [];
        return Abort(NoRow);
      }
      done := done + {ids[i]};
      i := i + 1;
    }
    assert ids[..|ids|] == ids;
    ClippedShape(e, lake, rows0, done, t.serial);
  }

  /** One line of the clipping loop: its longest piece, or `false` when the difference is empty. */
  method ClipOne(t: Table, e: Engine, lake: Line, ghost rows0: Rows, ghost s: set<int>, id: int) returns (ok: bool)
    requires t.Valid() && id in rows0 && id !in s && t.rows == Clipped(e, lake, rows0, s)
    modifies t
    ensures t.Valid() && t.serial == old(t.serial)
    ensures ok <==> e.clip(rows0[id].geom, lake) != []
    ensures ok ==> t.rows == Clipped(e, lake, rows0, s + {id})
    ensures !ok ==> t.rows == old(t.rows)
  {
    var pieces := e.clip(t.rows[id].geom, lake);
    if pieces == [] {
      return false;
    }
    ClippedStep(e, lake, rows0, s, id);
    t.SetGeom(id, Longest(e, pieces));
    return true;
  }

  /** The table after a lake's clipping and its first `handle_river` (the lake's own side). */
  function NearPass(e: Engine, side: Side, level: int, lake: Line, rows: Rows, serial: int, inflows: seq<int>, near: seq<int>): (Rows, int)
    requires RemoveRepeatedKeepsPoints(e)
  {
    RiverPass(e, {lake}, side, level + 1, (Clipped(e, lake, rows, Elems(inflows)), serial), near)
  }

  /**
   * `handle_lakes` for one lake: clip the Mouths that reach into it; if there was any, trace
   * both sides of the next level with the lake as terminal (the counts are discarded).
   */
  method HandleLake(t: Table, e: Engine, side: Side, level: int, lake: Line)
    returns (r: Outcome, inflows: seq<int>, near: seq<int>, far: seq<int>)
    requires t.Valid() && RemoveRepeatedKeepsPoints(e)
    modifies t
    ensures t.Valid()
    ensures Increasing(inflows) && Elems(inflows) == Inflows(e, old(t.rows), lake, side, level)
    ensures forall k :: 0 <= k < |inflows| ==> inflows[k] in old(t.rows)
    ensures r.Abort? <==> exists k :: 0 <= k < |inflows| && e.clip(old(t.rows)[inflows[k]].geom, lake) == []
    ensures r.Abort? ==> r.fault == NoRow && near == [] && far == []
    ensures inflows == [] ==> r.Done? && near == [] && far == [] && t.rows == old(t.rows)
    ensures r.Done? && inflows != [] ==>
      Increasing(near) && Elems(near) == Selected(e, Clipped(e, lake, old(t.rows), Elems(inflows)), side, {lake})
    ensures r.Done? && inflows != [] ==>
      Increasing(far) &&
      Elems(far) == Selected(e, NearPass(e, side, level, lake, old(t.rows), old(t.serial), inflows, near).0, Opposite(side), {lake})
    ensures r.Done? && inflows != [] ==>
      (t.rows, t.serial) ==
      RiverPass(e, {lake}, Opposite(side), level + 1, NearPass(e, side, level, lake, old(t.rows), old(t.serial), inflows, near), far)
    ensures Pool(t.rows) == Pool(old(t.rows)) - Elems(near) - Elems(far)
    ensures Evolves(old(t.rows), old(t.serial), t.rows, t.serial)
  {
    var rows0, serial0 := t.rows, t.serial;
    inflows := SortIds(Inflows(e, t.rows, lake, side, level));
    near, far := [], [];
    r := ClipInflows(t, e, lake, inflows);
    if r.Abort? || inflows == [] {
      return;
    }
    var rows1, serial1 := t.rows, t.serial;
    var n1, n2;
    n1, near := HandleRiver(t, e, side, level + 1, {lake});
    var rows2, serial2 := t.rows, t.serial;
    n2, far := HandleRiver(t, e, Opposite(side), level + 1, {lake});
    EvolvesTrans(rows0, serial0, rows1, serial1, rows2, serial2);
    EvolvesTrans(rows0, serial0, rows2, serial2, t.rows, t.serial);
    ClippedShape(e, lake, rows0, Elems(inflows), serial0);
  }

  /** `handle_lakes(vertex, level, lakes)`: every lake in turn. */
  method HandleLakes(t: Table, e: Engine, side: Side, level: int, lakes: seq<Line>) returns (r: Outcome)
    requires t.Valid() && RemoveRepeatedKeepsPoints(e)
    modifies t
    ensures t.Valid()
    ensures Pool(t.rows) <= Pool(old(t.rows))
    ensures Evolves(old(t.rows), old(t.serial), t.rows, t.serial)
  {
    r := Done;
    for i := 0 to |lakes|
      invariant t.Valid()
      invariant Pool(t.rows) <= Pool(old(t.rows))
      invariant Evolves(old(t.rows), old(t.serial), t.rows, t.serial)
    {
      var rows1, serial1 := t.rows, t.serial;
      var a, _, _, _ := HandleLake(t, e, side, level, lakes[i]);
      EvolvesTrans(old(t.rows), old(t.serial), rows1, serial1, t.rows, t.serial);
      if a.Abort? {
        return a;
      }
    }
  }

  // ---------------------------------------------------------------- main

  /** Area rivers: closed STREAMS lines with the area-river fill. */
  function AreaRivers(rows: Rows): set<int>
  {
    set id | id in rows && Contains(rows[id].kind, "STREAMS") && IsClosed(rows[id].geom) && Contains(rows[id].style, AREA_FILL)
  }

  /** The rows `make_axis` inserts for the axis pieces `ps`. */
  function AxisFeatures(ps: seq<Line>): (fs: seq<Feature>)
    ensures |fs| == |ps|
  {
    seq(|ps|, k requires 0 <= k < |ps| => Feature("candidate", "STREAMS", ps[k], ""))
  }

  /**
   * Every axis line is inserted as an unresolved STREAMS candidate under a fresh id; the
   * old rows, and with them the coast, stay as they were.
   */
  lemma AxisCandidates(rows: Rows, serial: int, ps: seq<Line>)
    requires forall id :: id in rows ==> id < serial
    ensures forall id :: id in rows ==>
      id in Appended(rows, serial, AxisFeatures(ps)) && Appended(rows, serial, AxisFeatures(ps))[id] == rows[id]
    ensures forall id :: id in Appended(rows, serial, AxisFeatures(ps)) && id !in rows ==>
      serial <= id < serial + |ps| &&
      Appended(rows, serial, AxisFeatures(ps))[id].name == "candidate" &&
      Appended(rows, serial, AxisFeatures(ps))[id].kind == "STREAMS"
    ensures forall id :: id in Pool(Appended(rows, serial, AxisFeatures(ps))) <==> id in Pool(rows) || serial <= id < serial + |ps|
    ensures Shore(Appended(rows, serial, AxisFeatures(ps))) == Shore(rows)
  {
    var fs := AxisFeatures(ps);
    AppendedRows(rows, serial, fs);
    var res := Appended(rows, serial, fs);
    forall id | id in res && id !in rows
      ensures res[id] == fs[id - serial]
    {
      assert res[serial + (id - serial)] == fs[id - serial];
    }
    forall id
      ensures id in Pool(res) <==> id in Pool(rows) || serial <= id < serial + |ps|
    {
      if id !in rows && serial <= id < serial + |ps| {
        assert res[serial + (id - serial)] == fs[id - serial];
        assert "STREAMS"[..6][0] == 'S';
      }
      if id in rows {
        assert res[id] == rows[id];
      }
    }
    forall g | g in Shore(res)
      ensures g in Shore(rows)
    {
      var id :| id in res && res[id].kind == "0" && res[id].geom == g;
      if id !in rows {
        assert false;
      }
    }
  }

  /** `make_axis`: insert the merged medial-axis pieces inside the bound as candidates. */
  method MakeAxis(t: Table, e: Engine, bound: Line)
    requires t.Valid()
    modifies t
    ensures t.Valid()
    ensures t.rows == Appended(old(t.rows), old(t.serial), AxisFeatures(e.axis(e.medial(bound), bound)))
    ensures t.serial == old(t.serial) + |e.axis(e.medial(bound), bound)|
  {
    t.InsertAll(AxisFeatures(e.axis(e.medial(bound), bound)));
  }

  /** Open STREAMS lines. */
  predicate OpenStream(f: Feature)
  {
    Contains(f.kind, "STREAMS") && !IsClosed(f.geom)
  }

  /** `UPDATE SET name = 'candidate' WHERE type LIKE '%STREAMS%' AND NOT ST_IsClosed`. */
  function Marked(rows: Rows): Rows
  {
    map id | id in rows :: if OpenStream(rows[id]) then rows[id].(name := "candidate") else rows[id]
  }

  /** Level 0's terminal: the union of the coast rows (`type = '0'`). */
  function Shore(rows: Rows): Terminal
  {
    set id | id in rows && rows[id].kind == "0" :: rows[id].geom
  }

  /**
   * After the marking the pool holds exactly the earlier candidates and the open STREAMS
   * lines not yet tagged `River/`; types and geometries, and so the coast, are unchanged.
   */
  lemma MarkedPool(rows: Rows)
    ensures Marked(rows).Keys == rows.Keys
    ensures forall id :: id in rows ==> Marked(rows)[id].kind == rows[id].kind && Marked(rows)[id].geom == rows[id].geom
    ensures Pool(Marked(rows)) == Pool(rows) +
      (set id | id in rows && OpenStream(rows[id]) && !StartsWith(rows[id].kind, "River/"))
    ensures Shore(Marked(rows)) == Shore(rows)
  {
    var m := Marked(rows);
    forall id
      ensures id in Pool(m) <==> id in Pool(rows) || (id in rows && OpenStream(rows[id]) && !StartsWith(rows[id].kind, "River/"))
    {
    }
    forall g | g in Shore(rows)
      ensures g in Shore(m)
    {
      var id :| id in rows && rows[id].kind == "0" && rows[id].geom == g;
      assert m[id].kind == "0" && m[id].geom == g;
    }
  }

  /** Level l's terminal: the union of the rows tagged `River/{l-1}/`. */
  function LevelTerminal(rows: Rows, level: int): Terminal
  {
    set id | id in rows && StartsWith(rows[id].kind, LevelTag(level)) :: rows[id].geom
  }

  /** The lakes: `type = 'COASTLINE/tmp-lake' OR type LIKE 'Lake/%'`. */
  function LakeIds(rows: Rows): set<int>
  {
    set id | id in rows && (rows[id].kind == "COASTLINE/tmp-lake" || StartsWith(rows[id].kind, "Lake/"))
  }

  /** The thinning loop: one `make_axis` per area river, over the geometries read before it. */
  method ThinAreas(t: Table, e: Engine)
    requires t.Valid()
    modifies t
    ensures t.Valid() && old(t.serial) <= t.serial
    ensures forall id :: id in old(t.rows) ==> id in t.rows && t.rows[id] == old(t.rows)[id]
    ensures forall id :: id in t.rows && id !in old(t.rows) ==>
      old(t.serial) <= id && t.rows[id].name == "candidate" && t.rows[id].kind == "STREAMS"
    ensures Pool(old(t.rows)) <= Pool(t.rows)
    ensures Shore(t.rows) == Shore(old(t.rows))
  {
    var rows0 := t.rows;
    var areas := SortIds(AreaRivers(rows0));
    for i := 0 to |areas|
      invariant t.Valid() && old(t.serial) <= t.serial
      invariant forall id :: id in rows0 ==> id in t.rows && t.rows[id] == rows0[id]
      invariant forall id :: id in t.rows && id !in rows0 ==>
        old(t.serial) <= id && t.rows[id].name == "candidate" && t.rows[id].kind == "STREAMS"
      invariant Pool(rows0) <= Pool(t.rows)
      invariant Shore(t.rows) == Shore(rows0)
    {
      var rows1, serial1 := t.rows, t.serial;
      var bound := rows0[areas[i]].geom;
      MakeAxis(t, e, bound);
      AxisCandidates(rows1, serial1, e.axis(e.medial(bound), bound));
    }
  }

  /** A subset has no more members than its superset. */
  lemma SubsetCard(a: set<int>, b: set<int>)
    requires a <= b
    ensures |a| <= |b|
  {
    assert b == a + (b - a);
  }

  /** The table after a level's two `handle_river` calls, `starts` then `ends`. */
  function BothSides(e: Engine, term: Terminal, level: int, rows: Rows, serial: int, starts: seq<int>, ends: seq<int>): (Rows, int)
    requires RemoveRepeatedKeepsPoints(e)
  {
    RiverPass(e, term, End, level, RiverPass(e, term, Start, level, (rows, serial), starts), ends)
  }

  /**
   * One level: `handle_river` for both sides, then `handle_lakes` for both sides. The count
   * is that of the two `handle_river` calls (`starts` and `ends` are the ids they resolved),
   * and the pool loses at least that many rows.
   */
  method Round(t: Table, e: Engine, level: int, term: Terminal, lakes: seq<Line>)
    returns (r: Outcome, length: nat, starts: seq<int>, ends: seq<int>)
    requires t.Valid() && RemoveRepeatedKeepsPoints(e)
    modifies t
    ensures t.Valid()
    ensures length == |starts| + |ends|
    ensures Increasing(starts) && Elems(starts) == Selected(e, old(t.rows), Start, term)
    ensures Increasing(ends) &&
      Elems(ends) == Selected(e, RiverPass(e, term, Start, level, (old(t.rows), old(t.serial)), starts).0, End, term)
    ensures Evolves(BothSides(e, term, level, old(t.rows), old(t.serial), starts, ends).0,
      BothSides(e, term, level, old(t.rows), old(t.serial), starts, ends).1, t.rows, t.serial)
    ensures Pool(t.rows) <= Pool(BothSides(e, term, level, old(t.rows), old(t.serial), starts, ends).0)
    ensures Evolves(old(t.rows), old(t.serial), t.rows, t.serial)
    ensures |Selected(e, old(t.rows), Start, term)| <= length
    ensures |Pool(t.rows)| + length <= |Pool(old(t.rows))|
  {
    var rows0, serial0 := t.rows, t.serial;
    var n1, n2;
    n1, starts := HandleRiver(t, e, Start, level, term);
    var rows1, serial1 := t.rows, t.serial;
    n2, ends := HandleRiver(t, e, End, level, term);
    var rows2, serial2 := t.rows, t.serial;
    length := n1 + n2;
    EvolvesTrans(rows0, serial0, rows1, serial1, rows2, serial2);
    r := HandleLakes(t, e, Start, level, lakes);
    var rows3, serial3 := t.rows, t.serial;
    EvolvesTrans(rows0, serial0, rows2, serial2, rows3, serial3);
    SubsetCard(Pool(rows3), Pool(rows2));
    if r.Abort? {
      return;
    }
    r := HandleLakes(t, e, End, level, lakes);
    EvolvesTrans(rows0, serial0, rows3, serial3, t.rows, t.serial);
    EvolvesTrans(rows2, serial2, rows3, serial3, t.rows, t.serial);
    SubsetCard(Pool(t.rows), Pool(rows3));
  }

  /**
   * `main` after the test priming: thin the area rivers, mark the open STREAMS lines, then
   * trace level 0 from the coast and every further level from the Mouths of the one before,
   * while the last level selected any candidate. A missing terminal is a NULL spliced into
   * the next query. The loop ends because each level removes its selections from the pool
   * and no Mouth ever joins it.
   */
  method Run(t: Table, e: Engine) returns (r: Outcome, levels: nat)
    requires t.Valid() && RemoveRepeatedKeepsPoints(e)
    modifies t
    ensures t.Valid()
    ensures Shore(old(t.rows)) == {} ==> r == Abort(NullValue)
    ensures forall id :: id in t.rows && id !in old(t.rows) ==> Produced(t.rows[id])
  {
    ThinAreas(t, e);
    var rows1 := t.rows;
    MarkedPool(rows1);
    t.Assign(Marked(rows1));
    var m, sm := t.rows, t.serial;
    assert forall id :: id in m && id !in old(t.rows) ==> Produced(m[id]);
    levels := 0;
    var term := Shore(m);
    if term == {} {
      return Abort(NullValue), levels;
    }
    var lakeIds := SortIds(LakeIds(m));
    var lakes := seq(|lakeIds|, k requires 0 <= k < |lakeIds| => m[lakeIds[k]].geom);
    var length;
    var starts, ends;
    r, length, starts, ends := Round(t, e, 0, term, lakes);
    if r.Abort? {
      return;
    }
    r, levels := Levels(t, e, lakes, length, m, sm);
  }

  /**
   * The level loop of `main` after level 0 (`length` is its count): trace level `l` from the
   * Mouths of level `l - 1` while the level before selected any candidate; `levels` is the
   * last level begun.
   */
  method Levels(t: Table, e: Engine, lakes: seq<Line>, length: nat, ghost m: Rows, ghost sm: int)
    returns (r: Outcome, levels: nat)
    requires t.Valid() && RemoveRepeatedKeepsPoints(e)
    requires (forall id :: id in m ==> id < sm) && Evolves(m, sm, t.rows, t.serial)
    modifies t
    ensures t.Valid() && Evolves(m, sm, t.rows, t.serial)
  {
    levels := 0;
    var n := length;
    while n > 0
      invariant t.Valid()
      invariant Evolves(m, sm, t.rows, t.serial)
      decreases |Pool(t.rows)| + (if n > 0 then 1 else 0)
    {
      levels := levels + 1;
      var term := LevelTerminal(t.rows, levels - 1);
      if term == {} {
        return Abort(NullValue), levels;
      }
      var rows2, serial2 := t.rows, t.serial;
      var starts, ends;
      r, n, starts, ends := Round(t, e, levels, term, lakes);
      EvolvesTrans(m, sm, rows2, serial2, t.rows, t.serial);
      if r.Abort? {
        return;
      }
    }
    r := Done;
  }
}
