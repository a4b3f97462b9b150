/**
 * The line healer shared by the coast, contour and road scripts (`make_valid_line` /
 * `make_valid`): merge a bag of fragments; while the merge yields several pieces, drop the
 * last one (the shortest, by the `ORDER BY ST_Length DESC`) and merge the rest again; then
 * write the single survivor into the feature's geometry.
 */
module Healer {
  import opened Common
  import opened Text
  import opened Geometry
  import opened Features

  /**
   * What a bag heals to: the first round merges the bag itself, the later ones the pieces
   * the previous round kept (`HealedFrom`). An empty merge leaves an empty bag for the next
   * round, whose SQL array literal is invalid, so both end in `EmptyList`.
   */
  function Healed(e: Engine, bag: seq<Line>): (r: Result<Line>)
    requires MergeSettles(e)
    ensures r.Ok? ==> exists b {:trigger e.merge(b)} ::
      0 < |b| && (b == bag || |b| < |e.merge(bag)|) && e.merge(b) == [r.value]
    ensures r.Fail? ==> r.fault == EmptyList
  {
    if bag == [] then Fail(EmptyList)
    else
      var m := e.merge(bag);
      if |m| == 1 then Ok(m[0])
      else if |m| == 0 then Fail(EmptyList)
      else HealedFrom(e, bag, |m| - 1)
  }

  /**
   * The healer's later rounds, on the bag of the first `k` pieces of the merge of `c`: each
   * such merge has at most `k` pieces (`MergeSettles`), so every round drops one.
   */
  function HealedFrom(e: Engine, c: seq<Line>, k: nat): (r: Result<Line>)
    requires MergeSettles(e) && 0 < k < |e.merge(c)|
    decreases k
    ensures r.Ok? ==> exists b {:trigger e.merge(b)} :: 0 < |b| <= k && e.merge(b) == [r.value]
    ensures r.Fail? ==> r.fault == EmptyList
  {
    var b := e.merge(c)[..k];
    var m := e.merge(b);
    if |m| == 1 then Ok(m[0])
    else if |m| == 0 then Fail(EmptyList)
    else HealedFrom(e, b, |m| - 1)
  }

  /** One round of the healers: merge the bag and drop the last piece of the merge. */
  function Drop(e: Engine, bag: seq<Line>): seq<Line>
  {
    var m := e.merge(bag);
    if |m| == 0 then [] else m[..|m| - 1]
  }

  /** The bag after `n` rounds. */
  function Rounds(e: Engine, bag: seq<Line>, n: nat): seq<Line>
    decreases n
  {
    if n == 0 then bag else Rounds(e, Drop(e, bag), n - 1)
  }

  /** Every round before the n-th had a non-empty bag that merged to several pieces. */
  ghost predicate SeveralBefore(e: Engine, bag: seq<Line>, n: nat)
  {
    forall k :: 0 <= k < n ==> Rounds(e, bag, k) != [] && |e.merge(Rounds(e, bag, k))| > 1
  }

  /**
   * The healer round by round: the survivor is the single piece that the first round whose
   * merge is not several pieces merges to; healing fails exactly when that round's bag, or
   * its merge, is empty. There are fewer such rounds than pieces in the first merge.
   */
  lemma HealedRounds(e: Engine, bag: seq<Line>)
    requires MergeSettles(e)
    ensures Healed(e, bag).Ok? ==>
      exists n: nat :: n < |e.merge(bag)| && SeveralBefore(e, bag, n) &&
        Rounds(e, bag, n) != [] && e.merge(Rounds(e, bag, n)) == [Healed(e, bag).value]
    ensures Healed(e, bag).Fail? ==>
      exists n: nat :: n <= |e.merge(bag)| && SeveralBefore(e, bag, n) &&
        (Rounds(e, bag, n) == [] || e.merge(Rounds(e, bag, n)) == [])
  {
    var m := e.merge(bag);
    if bag == [] || |m| <= 1 {
      assert Rounds(e, bag, 0) == bag;
      assert SeveralBefore(e, bag, 0);
      if bag != [] && |m| == 1 {
        assert m == [m[0]];
      }
    } else {
      HealedLaterRounds(e, bag);
      var n: nat :| HealRoundsAt(e, bag, n, |m|, Healed(e, bag));
    }
  }

  /** A bag whose first merge has several pieces: its account, from the later rounds' one. */
  lemma HealedLaterRounds(e: Engine, bag: seq<Line>)
    requires MergeSettles(e) && bag != [] && |e.merge(bag)| > 1
    ensures exists n: nat :: HealRoundsAt(e, bag, n, |e.merge(bag)|, Healed(e, bag))
  {
    var m := e.merge(bag);
    HealedFromRounds(e, bag, |m| - 1);
    assert Healed(e, bag) == HealedFrom(e, bag, |m| - 1);
    var d := m[..|m| - 1];
    assert Drop(e, bag) == d;
    var n: nat :| HealRoundsAt(e, d, n, |m| - 1, HealedFrom(e, bag, |m| - 1));
    SeveralShift(e, bag, n);
    assert HealRoundsAt(e, bag, n + 1, |m|, Healed(e, bag));
  }

  /** Round `n < k` of bag `d` ends the healer with `r`, after `n` rounds that merged to several pieces. */
  ghost predicate HealRoundsAt(e: Engine, d: seq<Line>, n: nat, k: nat, r: Result<Line>)
  {
    n < k && SeveralBefore(e, d, n) &&
    (r.Ok? ==> Rounds(e, d, n) != [] && e.merge(Rounds(e, d, n)) == [r.value]) &&
    (r.Fail? ==> Rounds(e, d, n) == [] || e.merge(Rounds(e, d, n)) == [])
  }

  /**
   * The later rounds, on the first `k` pieces of the merge of `c`: the same account, in
   * fewer than `k` rounds.
   */
  lemma {:induction false} HealedFromRounds(e: Engine, c: seq<Line>, k: nat)
    requires MergeSettles(e) && 0 < k < |e.merge(c)|
    decreases k
    ensures exists n: nat :: HealRoundsAt(e, e.merge(c)[..k], n, k, HealedFrom(e, c, k))
  {
    var b := e.merge(c)[..k];
    var m := e.merge(b);
    if |m| <= 1 {
      assert Rounds(e, b, 0) == b;
      assert SeveralBefore(e, b, 0);
      if |m| == 1 {
        assert m == [m[0]];
      }
      assert HealRoundsAt(e, b, 0, k, HealedFrom(e, c, k));
    } else {
      HealedFromRounds(e, b, |m| - 1);
      assert HealedFrom(e, c, k) == HealedFrom(e, b, |m| - 1);
      var d := m[..|m| - 1];
      assert Drop(e, b) == d;
      var n: nat :| HealRoundsAt(e, d, n, |m| - 1, HealedFrom(e, b, |m| - 1));
      SeveralShift(e, b, n);
      assert HealRoundsAt(e, b, n + 1, k, HealedFrom(e, c, k));
    }
  }

  /** A first round that merged to several pieces followed by `n` such rounds of the dropped bag is `n + 1` of them. */
  lemma SeveralShift(e: Engine, bag: seq<Line>, n: nat)
    requires bag != [] && |e.merge(bag)| > 1
    requires SeveralBefore(e, Drop(e, bag), n)
    ensures SeveralBefore(e, bag, n + 1)
    ensures Rounds(e, bag, n + 1) == Rounds(e, Drop(e, bag), n)
  {
    RoundsShift(e, bag);
  }

  /** A round past the first is a round of the dropped bag; the first is the bag itself. */
  lemma RoundsShift(e: Engine, bag: seq<Line>)
    ensures Rounds(e, bag, 0) == bag
    ensures forall k: nat :: k > 0 ==> Rounds(e, bag, k) == Rounds(e, Drop(e, bag), k - 1)
  {
  }

  /** `LINESTRING(0 0, 2 2, 2 0, 0 2)`, which crosses itself at `(1, 1)`. */
  const Crossing: Line := [Point(0.0, 0.0), Point(2.0, 2.0), Point(2.0, 0.0), Point(0.0, 2.0)]

  /** The three pieces `ST_Union` cuts `Crossing` into, longest first. */
  const CrossingPieces: seq<Line> :=
    [[Point(1.0, 1.0), Point(2.0, 2.0), Point(2.0, 0.0), Point(1.0, 1.0)],
     [Point(0.0, 0.0), Point(1.0, 1.0)],
     [Point(1.0, 1.0), Point(0.0, 2.0)]]

  /**
   * A merge that splits `Crossing` into its three pieces and otherwise keeps the first line
   * of a bag (with `Crossing` itself replaced by the loop): its pieces never split again.
   */
  function CrossingMerge(bag: seq<Line>): seq<Line>
  {
    if bag == [Crossing] then CrossingPieces
    else if bag != [] && bag[0] != Crossing then [bag[0]]
    else if bag != [] then [CrossingPieces[0]]
    else []
  }

  /** An engine whose merge is `CrossingMerge`; its other calls play no part here. */
  function CrossingEngine(): Engine
  {
    Engine(
      CrossingMerge, (g: Line) => 0.0, (p: Point, q: Point) => 0.0, (p: Point, g: Line) => 0.0,
      (ps: set<Point>, g: Line) => 0.0, (g: Line, h: Line) => 0.0, (g: Line, p: Point) => false,
      (g: Line, h: Line) => false, (ls: set<Line>, p: Point) => 0.0, (ls: set<Line>, g: Line) => false,
      (ls: set<Line>, p: Point) => p, (g: Line) => g, (g: Line, p: Point) => 0.0,
      (g: Line, h: Line) => [g], (g: Line) => [g], (ls: seq<Line>, g: Line) => ls,
      (g: Line) => {}, (ps: set<Point>) => [])
  }

  /**
   * The case the one-line heal of "validate lines" exists for: a single self-crossing line
   * merges into three pieces, and the healer trims it, round by round, to the longest one.
   */
  lemma CrossingTrimmed()
    ensures MergeSettles(CrossingEngine())
    ensures |CrossingEngine().merge([Crossing])| == 3
    ensures Healed(CrossingEngine(), [Crossing]) == Ok(CrossingPieces[0])
  {
    var e := CrossingEngine();
    assert Crossing !in CrossingPieces;
    forall bag, k | 0 <= k <= |e.merge(bag)|
      ensures |e.merge(e.merge(bag)[..k])| <= k
    {
      var b := e.merge(bag)[..k];
      assert Crossing !in e.merge(bag);
      if k > 0 {
        assert b[0] in e.merge(bag);
      }
    }
    assert e.merge([Crossing]) == CrossingPieces;
    assert CrossingPieces[..2] != [Crossing] && CrossingPieces[..2][0] != Crossing;
    assert e.merge(CrossingPieces[..2]) == [CrossingPieces[0]];
  }

  /** A bag that merges to one piece heals to that piece at once. */
  lemma HealedSingle(e: Engine, bag: seq<Line>)
    requires MergeSettles(e)
    requires |bag| > 0 && |e.merge(bag)| == 1
    ensures Healed(e, bag) == Ok(e.merge(bag)[0])
  {
  }

  /**
   * Healing is idempotent: a healed line, healed again on its own, stays as it is. This is
   * the `MergeIdempotent` assumption carried through the first round of `Healed`.
   */
  lemma HealedStable(e: Engine, bag: seq<Line>)
    requires MergeSettles(e) && MergeIdempotent(e)
    requires Healed(e, bag).Ok?
    ensures Healed(e, [Healed(e, bag).value]) == Healed(e, bag)
  {
    var g := Healed(e, bag).value;
    var b :| 0 < |b| && (b == bag || |b| < |e.merge(bag)|) && e.merge(b) == [g];
    assert e.merge(b)[0] == g;
    assert e.merge([g]) == [g];
  }

  /**
   * The merge loop of the healer: it runs until one piece is left. After the first round,
   * `b` is the first pieces of the merge of the previous bag `c`.
   */
  method Shrink(e: Engine, bag: seq<Line>) returns (r: Result<Line>)
    requires MergeSettles(e)
    ensures r == Healed(e, bag)
  {
    var b := bag;
    ghost var c: seq<Line> := [];
    ghost var first := true;
    while true
      invariant first ==> b == bag
      invariant !first ==> 0 < |b| < |e.merge(c)| && b == e.merge(c)[..|b|] && HealedFrom(e, c, |b|) == Healed(e, bag)
      decreases if first then 1 else 0, |b|
    {
      if b == [] {
        return Fail(EmptyList);
      }
      var m := e.merge(b);
      if |m| == 1 {
        return Ok(m[0]);
      }
      if |m| == 0 {
        return Fail(EmptyList);
      }
      c, first := b, false;
      b := m[..|m| - 1];
    }
  }

  /** `make_valid_line`: heal the bag and write the survivor as the geometry of row `id`. */
  method MakeValidLine(t: Table, e: Engine, bag: seq<Line>, id: int) returns (r: Result<Line>)
    requires t.Valid() && MergeSettles(e)
    modifies t
    ensures t.Valid() && t.serial == old(t.serial)
    ensures r == Healed(e, bag)
    ensures t.rows == if r.Ok? then WithGeom(old(t.rows), id, r.value) else old(t.rows)
  {
    r := Shrink(e, bag);
    if r.Ok? {
      t.SetGeom(id, r.value);
    }
  }

  /** Ids of the rows whose type contains `cat` (`WHERE type LIKE '%cat%'`). */
  function OfCategory(rows: Rows, cat: string): set<int>
  {
    set id | id in rows && Contains(rows[id].kind, cat)
  }

  /**
   * The rows after healing each of `ids` in turn from its geometry in `rows` (the pass reads
   * the geometries once, before the first update). A bag that fails to heal aborts the run,
   * so its row is left as it was here.
   */
  function HealPass(e: Engine, rows: Rows, ids: seq<int>): Rows
    requires MergeSettles(e)
    decreases |ids|
  {
    if ids == [] then rows
    else
      var prev := HealPass(e, rows, ids[..|ids| - 1]);
      var id := ids[|ids| - 1];
      if id in rows && Healed(e, [rows[id].geom]).Ok? then WithGeom(prev, id, Healed(e, [rows[id].geom]).value)
      else prev
  }

  /**
   * The pass keeps every row and every name and type; a visited row ends with the healed
   * form of its own geometry, and an unvisited row is unchanged.
   */
  lemma {:induction false} HealPassRows(e: Engine, rows: Rows, ids: seq<int>)
    requires MergeSettles(e)
    requires forall i, j :: 0 <= i < j < |ids| ==> ids[i] != ids[j]
    ensures HealPass(e, rows, ids).Keys == rows.Keys
    ensures forall id :: id in rows ==>
      HealPass(e, rows, ids)[id].name == rows[id].name && HealPass(e, rows, ids)[id].kind == rows[id].kind
    ensures forall id :: id in rows && id !in ids ==> HealPass(e, rows, ids)[id] == rows[id]
    ensures forall id :: id in rows && id in ids && Healed(e, [rows[id].geom]).Ok? ==>
      HealPass(e, rows, ids)[id].geom == Healed(e, [rows[id].geom]).value
  {
    if ids != [] {
      var init := ids[..|ids| - 1];
      HealPassRows(e, rows, init);
      forall id | id in ids
        ensures id in init || id == ids[|ids| - 1]
      {
        var k :| 0 <= k < |ids| && ids[k] == id;
        if k < |ids| - 1 {
          assert init[k] == id;
        }
      }
      assert ids[|ids| - 1] !in init by {
        forall k | 0 <= k < |init|
          ensures init[k] != ids[|ids| - 1]
        {
        }
      }
    }
  }

  /** Some row of the category has a geometry that does not heal. */
  ghost predicate HealFails(e: Engine, rows: Rows, cat: string)
    requires MergeSettles(e)
  {
    exists id :: id in OfCategory(rows, cat) && Healed(e, [rows[id].geom]).Fail?
  }

  /**
   * The "Validate lines" pass: every row of the category is healed on its own, in ascending
   * id order, and returns the ids it visited.
   */
  method ValidateAll(t: Table, e: Engine, cat: string) returns (r: Outcome, ids: seq<int>)
    requires t.Valid() && MergeSettles(e)
    modifies t
    ensures t.Valid() && t.serial == old(t.serial) && t.rows.Keys == old(t.rows).Keys
    ensures Increasing(ids) && Elems(ids) == OfCategory(old(t.rows), cat)
    ensures r.Done? ==> t.rows == HealPass(e, old(t.rows), ids)
    ensures r.Abort? <==> HealFails(e, old(t.rows), cat)
    ensures r.Abort? ==> r.fault == EmptyList
  {
    var lines := t.rows;
    ids := SortIds(OfCategory(lines, cat));
    var i := 0;
    while i < |ids|
      invariant 0 <= i <= |ids|
      invariant t.Valid() && t.serial == old(t.serial) && t.rows.Keys == lines.Keys
      invariant t.rows == HealPass(e, lines, ids[..i])
      invariant forall k :: 0 <= k < i ==> Healed(e, [lines[ids[k]].geom]).Ok?
    {
      assert ids[i] in Elems(ids);
      var h := HealNext(t, e, lines, ids, i);
      if h.Fail? {
        return Abort(h.fault), ids;
      }
      i := i + 1;
    }
    assert ids[..|ids|] == ids;
    assert !HealFails(e, lines, cat) by {
      forall id | id in OfCategory(lines, cat)
        ensures Healed(e, [lines[id].geom]).Ok?
      {
        var k :| 0 <= k < |ids| && ids[k] == id;
      }
    }
    return Done, ids;
  }

  /** One turn of the "Validate lines" loop: heal row `ids[i]` from its geometry in `lines`. */
  method HealNext(t: Table, e: Engine, lines: Rows, ids: seq<int>, i: nat) returns (h: Result<Line>)
    requires t.Valid() && MergeSettles(e) && i < |ids| && ids[i] in lines
    requires t.rows.Keys == lines.Keys && t.rows == HealPass(e, lines, ids[..i])
    modifies t
    ensures t.Valid() && t.serial == old(t.serial) && t.rows.Keys == lines.Keys
    ensures h == Healed(e, [lines[ids[i]].geom])
    ensures h.Ok? ==> t.rows == HealPass(e, lines, ids[..i + 1])
    ensures h.Fail? ==> h.fault == EmptyList
  {
    var id := ids[i];
    assert ids[..i + 1][..i] == ids[..i];
    h := Shrink(e, [lines[id].geom]);
    if h.Ok? {
      t.SetGeom(id, h.value);
    }
  }
}
