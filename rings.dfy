/**
 * What the contour and lake scripts share in `label_rings`: the query for the rings around a
 * top ring, nearest first, and the height arithmetic that counts 500 per ring from a ring
 * that already carries a height.
 */
module Rings {
  import opened Common
  import opened Text
  import opened Geometry
  import opened Features

  /** A contour row: unlabelled (`CONTOURS`) or labelled with a height (`00`). */
  predicate ContourLike(kind: string)
  {
    Contains(kind, "CONTOURS") || Contains(kind, "00")
  }

  /** A type that carries a height: `"00" in type`. */
  predicate Fixed(kind: string)
  {
    Contains(kind, "00")
  }

  /** The ring query's WHERE: a closed contour whose polygon covers the top ring. */
  predicate Encloses(e: Engine, f: Feature, top: Line)
  {
    ContourLike(f.kind) && IsClosed(f.geom) && e.coversLine(f.geom, top)
  }

  function Enclosing(e: Engine, rows: Rows, top: Line): set<int>
  {
    set id | id in rows && Encloses(e, rows[id], top)
  }

  /** The ring query: every ring that encloses `top`, ordered by distance from it. */
  method RingChain(rows: Rows, e: Engine, top: Line) returns (chain: seq<int>)
    ensures Distinct(chain) && Elems(chain) == Enclosing(e, rows, top)
    ensures forall i :: 0 <= i < |chain| ==> chain[i] in rows && Encloses(e, rows[chain[i]], top)
    ensures forall i, j :: 0 <= i < j < |chain| ==>
      e.separation(rows[chain[i]].geom, top) <= e.separation(rows[chain[j]].geom, top)
  {
    var s := Enclosing(e, rows, top);
    chain := SortBy(s, map id | id in s :: e.separation(rows[id].geom, top));
  }

  /** The types of the chain's rows as the ring query returned them. */
  function Kinds(rows: Rows, chain: seq<int>): (k: seq<string>)
    requires forall i :: 0 <= i < |chain| ==> chain[i] in rows
    ensures |k| == |chain| && forall i :: 0 <= i < |chain| ==> k[i] == rows[chain[i]].kind
  {
    seq(|chain|, i requires 0 <= i < |chain| => rows[chain[i]].kind)
  }

  /** A type `label_rings` can use: not a height, or a height that `int()` reads. */
  predicate Readable(kind: string)
  {
    Fixed(kind) ==> ParseInt(kind).Some?
  }

  /** Every height label of the chain reads as an integer (otherwise `int()` raises). */
  predicate AllParse(kinds: seq<string>)
  {
    forall k :: 0 <= k < |kinds| ==> Readable(kinds[k])
  }

  /** The height each type of the chain carries: `int(type)` for a type with `00`, none for any other. */
  function Labels(kinds: seq<string>): (ls: seq<Option<int>>)
    ensures |ls| == |kinds|
  {
    seq(|kinds|, k requires 0 <= k < |kinds| => if Fixed(kinds[k]) then ParseInt(kinds[k]) else None)
  }

  /** When every label reads, the ranks with a height are exactly the fixed types, and the height is the one `int()` reads. */
  lemma LabelsRead(kinds: seq<string>)
    requires AllParse(kinds)
    ensures forall k :: 0 <= k < |kinds| ==> (Labels(kinds)[k].Some? <==> Fixed(kinds[k]))
    ensures forall k :: 0 <= k < |kinds| && Fixed(kinds[k]) ==> Labels(kinds)[k] == ParseInt(kinds[k])
  {
    forall k | 0 <= k < |kinds|
      ensures Labels(kinds)[k].Some? <==> Fixed(kinds[k])
    {
      assert Readable(kinds[k]);
    }
  }

  /**
   * The height for rank `c` counted from the fixed ring at rank `r` with height `v`: rings
   * nearer the top (smaller rank) are higher, 500 per step.
   */
  function Height(v: int, r: int, c: int): int
  {
    v + 500 * (r - c)
  }

  /** The rows that `label_rings` may read for one top ring. */
  predicate ChainOf(rows: Rows, chain: seq<int>)
  {
    Distinct(chain) && forall i :: 0 <= i < |chain| ==> chain[i] in rows
  }
}
