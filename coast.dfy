/**
 * `geo_coast.py`: coast lines. Pathological lines are removed, every COASTLINE line is
 * healed, open lines are connected into rings, the lake boundaries are split into polygons
 * by the polygon healer, named lakes are extracted, and every closed COASTLINE ring that is
 * left becomes coast (`type '0'`).
 */
module Coast {
  import opened Common
  import opened Text
  import opened Geometry
  import opened Features
  import opened Healer
  import opened Connector

  /** Distance considered connected. */
  const EPSL: real := 0.007
  /** Buffer radius; also the length a lake boundary piece must exceed. */
  const EPSB: real := 0.015

  const TMP_LAKE: string := "/COASTLINE/tmp-lake"

  // ---------------------------------------------------------------- polygon healer

  /**
   * What the polygon healer keeps of a bag: merge; while the last (shortest) piece is no
   * longer than EPSB, drop it and merge the rest again (`PolysFrom`). An empty merge ends
   * in `NoRow` (the `merge[-1]` of an empty result), an emptied bag in `EmptyList`.
   */
  function PolysHealed(e: Engine, bag: seq<Line>): (r: Result<seq<Line>>)
    requires MergeSettles(e)
    ensures r.Ok? ==> |r.value| > 0 && e.length(r.value[|r.value| - 1]) > EPSB
    ensures r.Ok? ==> exists b {:trigger e.merge(b)} ::
      0 < |b| && (b == bag || |b| < |e.merge(bag)|) && e.merge(b) == r.value
  {
    if bag == [] then Fail(EmptyList)
    else
      var m := e.merge(bag);
      if m == [] then Fail(NoRow)
      else if e.length(m[|m| - 1]) > EPSB then Ok(m)
      else PolysFrom(e, bag, |m| - 1)
  }

  /**
   * The polygon healer's later rounds, on the bag of the first `k` pieces of the merge of
   * `c`: each such merge has at most `k` pieces (`MergeSettles`), so every round drops one.
   */
  function PolysFrom(e: Engine, c: seq<Line>, k: nat): (r: Result<seq<Line>>)
    requires MergeSettles(e) && k < |e.merge(c)|
    decreases k
    ensures r.Ok? ==> |r.value| > 0 && e.length(r.value[|r.value| - 1]) > EPSB
    ensures r.Ok? ==> exists b {:trigger e.merge(b)} :: 0 < |b| <= k && e.merge(b) == r.value
  {
    if k == 0 then Fail(EmptyList)
    else
      var b := e.merge(c)[..k];
      var m := e.merge(b);
      if m == [] then Fail(NoRow)
      else if e.length(m[|m| - 1]) > EPSB then Ok(m)
      else PolysFrom(e, b, |m| - 1)
  }

  /** The polygon healer drops the last piece while it is no longer than EPSB. */
  ghost predicate ShortBefore(e: Engine, bag: seq<Line>, n: nat)
  {
    forall k :: 0 <= k < n ==>
      Rounds(e, bag, k) != [] && e.merge(Rounds(e, bag, k)) != [] &&
      e.length(e.merge(Rounds(e, bag, k))[|e.merge(Rounds(e, bag, k))| - 1]) <= EPSB
  }

  /**
   * The polygon healer round by round: the pieces kept are the merge of the first round
   * whose last piece is longer than EPSB; it fails exactly when some round's bag (EmptyList)
   * or its merge (NoRow) is empty before that. There are no more rounds than pieces in the
   * first merge.
   */
  lemma PolysRounds(e: Engine, bag: seq<Line>)
    requires MergeSettles(e)
    ensures PolysHealed(e, bag).Ok? ==>
      exists n: nat :: n < |e.merge(bag)| && ShortBefore(e, bag, n) &&
        Rounds(e, bag, n) != [] && e.merge(Rounds(e, bag, n)) == PolysHealed(e, bag).value
    ensures PolysHealed(e, bag).Fail? ==>
      exists n: nat :: n <= |e.merge(bag)| && ShortBefore(e, bag, n) &&
        ((Rounds(e, bag, n) == [] && PolysHealed(e, bag).fault == EmptyList) ||
         (Rounds(e, bag, n) != [] && e.merge(Rounds(e, bag, n)) == [] && PolysHealed(e, bag).fault == NoRow))
  {
    var m := e.merge(bag);
    if bag == [] || m == [] || e.length(m[|m| - 1]) > EPSB {
      assert Rounds(e, bag, 0) == bag;
      assert ShortBefore(e, bag, 0);
    } else {
      PolysFromRounds(e, bag, |m| - 1);
      assert PolysHealed(e, bag) == PolysFrom(e, bag, |m| - 1);
      var d := m[..|m| - 1];
      assert Drop(e, bag) == d;
      var n: nat :| PolysRoundsAt(e, d, n, |m| - 1, PolysFrom(e, bag, |m| - 1));
      ShortBeforeShift(e, bag, n);
    }
  }

  /** Round `n` of bag `d` ends the polygon healer with `r`, after `n` short rounds, and `n <= k`, below `k` when `r` is a success. */
  ghost predicate PolysRoundsAt(e: Engine, d: seq<Line>, n: nat, k: nat, r: Result<seq<Line>>)
  {
    n <= k && ShortBefore(e, d, n) &&
    (r.Ok? ==> n < k && Rounds(e, d, n) != [] && e.merge(Rounds(e, d, n)) == r.value) &&
    (r.Fail? ==>
      (Rounds(e, d, n) == [] && r.fault == EmptyList) ||
      (Rounds(e, d, n) != [] && e.merge(Rounds(e, d, n)) == [] && r.fault == NoRow))
  }

  /** The later rounds, on the first `k` pieces of the merge of `c`: the same account, in at most `k` rounds. */
  lemma {:induction false} PolysFromRounds(e: Engine, c: seq<Line>, k: nat)
    requires MergeSettles(e) && k < |e.merge(c)|
    decreases k
    ensures exists n: nat :: PolysRoundsAt(e, e.merge(c)[..k], n, k, PolysFrom(e, c, k))
  {
    var b := e.merge(c)[..k];
    var m := e.merge(b);
    if k == 0 || m == [] || e.length(m[|m| - 1]) > EPSB {
      assert Rounds(e, b, 0) == b;
      assert ShortBefore(e, b, 0);
      assert PolysRoundsAt(e, b, 0, k, PolysFrom(e, c, k));
    } else {
      PolysFromRounds(e, b, |m| - 1);
      assert PolysFrom(e, c, k) == PolysFrom(e, b, |m| - 1);
      var d := m[..|m| - 1];
      assert Drop(e, b) == d;
      var n: nat :| PolysRoundsAt(e, d, n, |m| - 1, PolysFrom(e, b, |m| - 1));
      ShortBeforeShift(e, b, n);
      assert PolysRoundsAt(e, b, n + 1, k, PolysFrom(e, c, k));
    }
  }

  /** A short first round followed by `n` short rounds of the dropped bag is `n + 1` short rounds. */
  lemma ShortBeforeShift(e: Engine, bag: seq<Line>, n: nat)
    requires bag != [] && e.merge(bag) != [] && e.length(e.merge(bag)[|e.merge(bag)| - 1]) <= EPSB
    requires ShortBefore(e, Drop(e, bag), n)
    ensures ShortBefore(e, bag, n + 1)
    ensures Rounds(e, bag, n + 1) == Rounds(e, Drop(e, bag), n)
  {
    RoundsShift(e, bag);
  }

  /** With the merge sorted by descending length, every surviving piece is longer than EPSB. */
  lemma SurvivorsLong(e: Engine, bag: seq<Line>)
    requires MergeSettles(e) && MergeSorted(e)
    requires PolysHealed(e, bag).Ok?
    ensures forall k :: 0 <= k < |PolysHealed(e, bag).value| ==> e.length(PolysHealed(e, bag).value[k]) > EPSB
  {
    var m := PolysHealed(e, bag).value;
    var b :| 0 < |b| && (b == bag || |b| < |e.merge(bag)|) && e.merge(b) == m;
    forall k | 0 <= k < |m|
      ensures e.length(m[k]) > EPSB
    {
      LastShortest(e, b, k);
    }
  }

  /** The last piece of a sorted merge is the shortest. */
  lemma LastShortest(e: Engine, b: seq<Line>, k: int)
    requires MergeSorted(e) && 0 <= k < |e.merge(b)|
    ensures e.length(e.merge(b)[|e.merge(b)| - 1]) <= e.length(e.merge(b)[k])
  {
  }

  /**
   * The loop of `make_valid_polys`. After the first round, `b` is the first pieces of the
   * merge of the previous bag `c`.
   */
  method PolyShrink(e: Engine, bag: seq<Line>) returns (r: Result<seq<Line>>)
    requires MergeSettles(e)
    ensures r == PolysHealed(e, bag)
  {
    var b := bag;
    ghost var c: seq<Line> := [];
    ghost var first := true;
    while true
      invariant first ==> b == bag
      invariant !first ==> |b| < |e.merge(c)| && b == e.merge(c)[..|b|] && PolysFrom(e, c, |b|) == PolysHealed(e, bag)
      decreases if first then 1 else 0, |b|
    {
      if b == [] {
        return Fail(EmptyList);
      }
      var m := e.merge(b);
      if m == [] {
        return Fail(NoRow);
      }
      if e.length(m[|m| - 1]) > EPSB {
        return Ok(m);
      }
      c, first := b, false;
      b := m[..|m| - 1];
    }
  }

  function LakeFeature(g: Line): Feature
  {
    Feature("nameless", TMP_LAKE, g, "")
  }

  function LakeFeatures(ps: seq<Line>): (fs: seq<Feature>)
    ensures |fs| == |ps| && forall k :: 0 <= k < |ps| ==> fs[k] == LakeFeature(ps[k])
  {
    seq(|ps|, k requires 0 <= k < |ps| => LakeFeature(ps[k]))
  }

  /** The single-piece UPDATE: name, type and geometry change, the style stays. */
  function Nameless(f: Feature, g: Line): Feature
  {
    f.(name := "nameless", kind := TMP_LAKE, geom := g)
  }

  /** The table after the polygon healer wrote its pieces for row `id`. */
  function PolysRows(rows: Rows, serial: int, id: int, ps: seq<Line>): Rows
    requires |ps| > 0
  {
    if |ps| == 1 then (if id in rows then rows[id := Nameless(rows[id], ps[0])] else rows)
    else Appended(rows, serial, LakeFeatures(ps)) - {id}
  }

  /**
   * One piece rewrites row `id` in place; several pieces become as many new rows, all named
   * `nameless` with type `/COASTLINE/tmp-lake`, and row `id` goes away. No other row changes.
   */
  lemma {:induction false} PolysRowsShape(rows: Rows, serial: int, id: int, ps: seq<Line>)
    requires forall x :: x in rows ==> x < serial
    requires |ps| > 0 && id in rows
    ensures forall x :: x in rows && x != id ==> x in PolysRows(rows, serial, id, ps) && PolysRows(rows, serial, id, ps)[x] == rows[x]
    ensures |ps| == 1 ==> PolysRows(rows, serial, id, ps).Keys == rows.Keys && PolysRows(rows, serial, id, ps)[id] == Nameless(rows[id], ps[0])
    ensures |ps| > 1 ==> id !in PolysRows(rows, serial, id, ps)
    ensures |ps| > 1 ==> forall x :: x in PolysRows(rows, serial, id, ps) <==> (x in rows && x != id) || serial <= x < serial + |ps|
    ensures |ps| > 1 ==> forall k :: 0 <= k < |ps| ==> PolysRows(rows, serial, id, ps)[serial + k] == LakeFeature(ps[k])
  {
    if |ps| > 1 {
      AppendedRows(rows, serial, LakeFeatures(ps));
    }
  }

  /** `make_valid_polys`: heal a lake boundary bag and write the pieces for row `id`. */
  method MakeValidPolys(t: Table, e: Engine, bag: seq<Line>, id: int) returns (r: Result<seq<Line>>)
    requires t.Valid() && MergeSettles(e)
    modifies t
    ensures t.Valid()
    ensures r == PolysHealed(e, bag)
    ensures r.Fail? ==> t.rows == old(t.rows) && t.serial == old(t.serial)
    ensures r.Ok? ==> t.rows == PolysRows(old(t.rows), old(t.serial), id, r.value)
    ensures r.Ok? ==> t.serial == old(t.serial) + (if |r.value| == 1 then 0 else |r.value|)
  {
    r := PolyShrink(e, bag);
    if r.Ok? {
      var ps := r.value;
      if |ps| == 1 {
        if id in t.rows {
          t.SetRow(id, Nameless(t.rows[id], ps[0]));
        }
      } else {
        t.InsertAll(LakeFeatures(ps));
        t.Delete(id);
      }
    }
  }

  // ---------------------------------------------------------------- labels

  /** A closed ring still typed COASTLINE. */
  predicate ClosedCoastline(f: Feature)
  {
    IsClosed(f.geom) && Contains(f.kind, "COASTLINE")
  }

  /** `extract_lake`: every closed COASTLINE ring covering the inner point becomes lake `name` at `height`. */
  function Extracted(e: Engine, rows: Rows, name: string, height: int, inner: Point): (r: Rows)
    ensures r.Keys == rows.Keys
    ensures forall id :: id in rows && ClosedCoastline(rows[id]) && e.covers(rows[id].geom, inner) ==>
      r[id] == rows[id].(name := "LAKE/" + name, kind := IntToString(height))
    ensures forall id :: id in rows && !(ClosedCoastline(rows[id]) && e.covers(rows[id].geom, inner)) ==> r[id] == rows[id]
  {
    map id | id in rows :: if ClosedCoastline(rows[id]) && e.covers(rows[id].geom, inner)
      then rows[id].(name := "LAKE/" + name, kind := IntToString(height)) else rows[id]
  }

  /** The final relabel: every closed COASTLINE ring becomes coast, type `'0'`. */
  function Relabelled(rows: Rows): (r: Rows)
    ensures r.Keys == rows.Keys
    ensures forall id :: id in r ==> !ClosedCoastline(r[id])
    ensures forall id :: id in rows && ClosedCoastline(rows[id]) ==> r[id] == rows[id].(kind := "0")
    ensures forall id :: id in rows && !ClosedCoastline(rows[id]) ==> r[id] == rows[id]
  {
    map id | id in rows :: if ClosedCoastline(rows[id]) then rows[id].(kind := "0") else rows[id]
  }

  /**
   * Extracting a lake before the final relabel is what saves it: its type is the printed
   * height, which contains no `COASTLINE`, so the relabel leaves it and its height reads back.
   */
  lemma ExtractedLakeSurvives(e: Engine, rows: Rows, name: string, height: int, inner: Point, id: int)
    requires id in rows && ClosedCoastline(rows[id]) && e.covers(rows[id].geom, inner)
    ensures Relabelled(Extracted(e, rows, name, height, inner))[id].kind == IntToString(height)
    ensures ParseInt(Relabelled(Extracted(e, rows, name, height, inner))[id].kind) == Some(height)
  {
    NumberHasNoTag(height, "COASTLINE");
    IntRoundTrip(height);
  }

  // ---------------------------------------------------------------- main

  /** The lines the coast connector works on: open COASTLINE lines. */
  function OpenCoastlines(rows: Rows): set<int>
  {
    set id | id in rows && Contains(rows[id].kind, "COASTLINE") && !IsClosed(rows[id].geom)
  }

  /** The rows named `main`, the rings that the final clean-up measures coverage against. */
  function MainRings(rows: Rows): set<int>
  {
    set id | id in rows && rows[id].name == "main"
  }

  /** Coast (`type '0'`) that lies inside a `main` ring and is not itself named `main`. */
  predicate Covered(e: Engine, rows: Rows, id: int)
    requires id in rows
  {
    rows[id].kind == "0" && rows[id].name != "main" &&
    exists m :: m in MainRings(rows) && e.coversLine(rows[m].geom, rows[id].geom)
  }

  /** The `DELETE ... USING` of covered coast. */
  function MainTrimmed(e: Engine, rows: Rows): (r: Rows)
    ensures forall id :: id in r ==> id in rows && r[id] == rows[id]
  {
    map id | id in rows && !Covered(e, rows, id) :: rows[id]
  }

  /**
   * The clean-up keeps every `main` ring and leaves no coast inside one: after it, no row of
   * type `'0'` other than a `main` ring is covered by a `main` ring, and only covered rows go.
   */
  lemma MainTrimmedClean(e: Engine, rows: Rows)
    ensures MainRings(MainTrimmed(e, rows)) == MainRings(rows)
    ensures forall id :: id in MainTrimmed(e, rows) ==> !Covered(e, MainTrimmed(e, rows), id)
    ensures forall id :: id in rows && id !in MainTrimmed(e, rows) ==> Covered(e, rows, id)
  {
    var r := MainTrimmed(e, rows);
    assert MainRings(r) == MainRings(rows) by {
      forall m
        ensures m in MainRings(r) <==> m in MainRings(rows)
      {
        if m in MainRings(rows) {
          assert !Covered(e, rows, m);
        }
      }
    }
  }

  /**
   * The coast pass in order: prune, heal, connect, heal the Melderyn ring and the lake
   * boundaries, extract the named lakes, relabel, add the main ring and drop the coast inside it.
   * The spatial queries are inputs: `isle` and `lakeBag` are the `(id, geometry)` rows of the
   * buffer queries, `lakes` the `(name, height, inner point)` of each lake to extract, and
   * `mainRing` the ring the main-Harn INSERT ... SELECT computes (none when it selects no row).
   */
  method Run(t: Table, e: Engine, isle: seq<(int, Line)>, lakeBag: seq<(int, Line)>,
             lakes: seq<(string, int, Point)>, mainRing: Option<Line>) returns (r: Outcome)
    requires t.Valid() && MergeSettles(e)
    modifies t
    ensures t.Valid()
    ensures r.Done? ==> forall id :: id in t.rows ==> !ClosedCoastline(t.rows[id])
    ensures r.Done? ==> forall id :: id in t.rows ==> !Covered(e, t.rows, id)
    ensures old(OfCategory(t.rows, "COASTLINE")) == {} ==> r == Abort(NoRow)
    ensures old(OfCategory(t.rows, "COASTLINE")) != {} && HealFails(e, Pruned(e, old(t.rows), "COASTLINE", EPSL), "COASTLINE") ==>
      r == Abort(EmptyList)
  {
    if OfCategory(t.rows, "COASTLINE") == {} {
      return Abort(NoRow);
    }
    t.RemovePathological(e, "COASTLINE", EPSL);
    var v, _ := ValidateAll(t, e, "COASTLINE");
    if v.Abort? {
      return v;
    }
    var jobs := JobsFor(t.rows, OpenCoastlines(t.rows), false);
    var c, _, _, _, _, _, _ := ConnectAll(t, e, EPSL, jobs);
    if c.Abort? {
      return c;
    }
    r := Finish(t, e, isle, lakeBag, lakes, mainRing);
  }

  /**
   * The steps after the connector: heal the isle, split the lake boundaries into polygons,
   * extract the named lakes, relabel the closed COASTLINE rings, add the main ring and trim.
   */
  method Finish(t: Table, e: Engine, isle: seq<(int, Line)>, lakeBag: seq<(int, Line)>,
                lakes: seq<(string, int, Point)>, mainRing: Option<Line>) returns (r: Outcome)
    requires t.Valid() && MergeSettles(e)
    modifies t
    ensures t.Valid()
    ensures r.Done? ==> forall id :: id in t.rows ==> !ClosedCoastline(t.rows[id])
    ensures r.Done? ==> forall id :: id in t.rows ==> !Covered(e, t.rows, id)
  {
    if isle == [] {
      return Abort(NoRow);
    }
    var h := MakeValidLine(t, e, seq(|isle|, k requires 0 <= k < |isle| => isle[k].1), isle[0].0);
    if h.Fail? {
      return Abort(h.fault);
    }
    if lakeBag == [] {
      return Abort(NoRow);
    }
    var p := MakeValidPolys(t, e, seq(|lakeBag|, k requires 0 <= k < |lakeBag| => lakeBag[k].1), lakeBag[0].0);
    if p.Fail? {
      return Abort(p.fault);
    }
    for i := 0 to |lakes|
      invariant t.Valid()
    {
      var (name, height, inner) := lakes[i];
      t.Assign(Extracted(e, t.rows, name, height, inner));
    }
    t.Assign(Relabelled(t.rows));
    if mainRing.Some? {
      var _ := t.Insert(Feature("main", "0", mainRing.value, ""));
      NumberHasNoTag(0, "COASTLINE");
    }
    var before := t.rows;
    t.Assign(MainTrimmed(e, t.rows));
    MainTrimmedClean(e, before);
    return Done;
  }
}
