/**
 * `geo_vegetation.py`: vegetation areas. Every vegetation class gets a raw region, the union
 * of the closed rings of its lines; each class is then reduced by all later classes, so a
 * later class takes priority where two overlap, and the polygon pieces of the reduced
 * regions are inserted into the `_polys` table.
 */
module Vegetation {
  import opened Common
  import opened Text
  import opened Geometry
  import opened Features

  /** The classes in priority order: a class loses every point that a later class covers. */
  const TYPES: seq<string> := ["CROPLAND", "WOODLAND", "HEATH", "FOREST", "NEEDLELEAF", "ALPINE", "SNOW_x2F_ICE"]
  /** `CREATE TEMP SEQUENCE serial START 100000`: a new session's sequence. */
  const SERIAL_START: int := 100000

  // ---------------------------------------------------------------- LIKE with `_`

  /** `pat` matches the start of `s`, where `_` in the pattern stands for any one character. */
  predicate FitsAt(s: string, pat: string)
  {
    |pat| <= |s| && forall k :: 0 <= k < |pat| ==> pat[k] == '_' || s[k] == pat[k]
  }

  /** SQL `s LIKE '%pat%'`, with `_` a single-character wildcard (`SNOW_x2F_ICE` has two). */
  predicate Like(s: string, pat: string)
    decreases |s|
  {
    FitsAt(s, pat) || (|s| > 0 && Like(s[1..], pat))
  }

  /** A type that contains the class name literally matches its pattern. */
  lemma {:induction false} ContainsLike(s: string, pat: string)
    requires Contains(s, pat)
    ensures Like(s, pat)
    decreases |s|
  {
    if StartsWith(s, pat) {
      assert FitsAt(s, pat) by {
        forall k | 0 <= k < |pat|
          ensures s[k] == pat[k]
        {
          assert s[..|pat|][k] == pat[k];
        }
      }
    } else {
      ContainsLike(s[1..], pat);
    }
  }

  // ---------------------------------------------------------------- raw regions

  /** The raw-region query's WHERE: a line of the class with more than 3 points. */
  predicate Contributes(f: Feature, typ: string)
  {
    Like(f.kind, typ) && |f.geom| > 3
  }

  function Contributors(lines: Rows, typ: string): set<int>
  {
    set id | id in lines && Contributes(lines[id], typ)
  }

  /** The union of the valid polygons made from the contributing lines, each closed by its start point. */
  function RawRegion(e: Engine, lines: Rows, typ: string): (r: set<Point>)
    ensures forall id, p :: id in Contributors(lines, typ) && p in e.region(CloseRing(lines[id].geom)) ==> p in r
    ensures forall p :: p in r ==> exists id :: id in Contributors(lines, typ) && p in e.region(CloseRing(lines[id].geom))
  {
    set id, p | id in lines && Contributes(lines[id], typ) && p in e.region(CloseRing(lines[id].geom)) :: p
  }

  /** The raw regions of all classes, in priority order. */
  function Raws(e: Engine, lines: Rows): (raw: seq<set<Point>>)
    ensures |raw| == |TYPES|
    ensures forall i :: 0 <= i < |TYPES| ==> raw[i] == RawRegion(e, lines, TYPES[i])
  {
    seq(|TYPES|, i requires 0 <= i < |TYPES| => RawRegion(e, lines, TYPES[i]))
  }

  // ---------------------------------------------------------------- reduction

  /** `ST_Union` of a list of regions. */
  function UnionOf(rs: seq<set<Point>>): set<Point>
  {
    if rs == [] then {} else UnionOf(rs[..|rs| - 1]) + rs[|rs| - 1]
  }

  /** A point is in the union exactly when it is in one of the regions. */
  lemma {:induction false} UnionOfMembers(rs: seq<set<Point>>)
    ensures forall p :: p in UnionOf(rs) <==> exists k :: 0 <= k < |rs| && p in rs[k]
  {
    if rs != [] {
      var init := rs[..|rs| - 1];
      UnionOfMembers(init);
      assert UnionOf(rs) == UnionOf(init) + rs[|rs| - 1];
      forall p | p in UnionOf(rs)
        ensures exists k :: 0 <= k < |rs| && p in rs[k]
      {
        if p !in rs[|rs| - 1] {
          var k :| 0 <= k < |init| && p in init[k];
          assert rs[k] == init[k];
        }
      }
      forall p, k | 0 <= k < |rs| && p in rs[k]
        ensures p in UnionOf(rs)
      {
        if k < |rs| - 1 {
          assert init[k] == rs[k];
        }
      }
    }
  }

  /** What class `i` keeps: its raw region minus the raw regions of all later classes. */
  function Reduced(raw: seq<set<Point>>, i: nat): set<Point>
    requires i < |raw|
  {
    raw[i] - UnionOf(raw[i + 1..])
  }

  /**
   * A reduced region lies inside its raw region and shares no point with the raw region of
   * any later class.
   */
  lemma ReducedBounds(raw: seq<set<Point>>, i: nat)
    requires i < |raw|
    ensures Reduced(raw, i) <= raw[i]
    ensures forall j :: i < j < |raw| ==> Reduced(raw, i) !! raw[j]
  {
    UnionOfMembers(raw[i + 1..]);
    forall j, p | i < j < |raw| && p in raw[j]
      ensures p !in Reduced(raw, i)
    {
      assert raw[i + 1..][j - i - 1] == raw[j];
    }
  }

  /** The reduced regions of two different classes never overlap. */
  lemma ReducedDisjoint(raw: seq<set<Point>>, i: nat, j: nat)
    requires i < |raw| && j < |raw| && i != j
    ensures Reduced(raw, i) !! Reduced(raw, j)
  {
    if i < j {
      ReducedBounds(raw, i);
      ReducedBounds(raw, j);
    } else {
      ReducedBounds(raw, j);
      ReducedBounds(raw, i);
    }
  }

  /** The last class has no later class and keeps its raw region. */
  lemma ReducedLast(raw: seq<set<Point>>)
    requires |raw| > 0
    ensures Reduced(raw, |raw| - 1) == raw[|raw| - 1]
  {
    assert raw[|raw|..] == [];
  }

  /** A point of some raw region ends in the reduced region of the last class that covers it. */
  lemma ReducedCovers(raw: seq<set<Point>>, i: nat, p: Point)
    requires i < |raw| && p in raw[i]
    requires forall j :: i < j < |raw| ==> p !in raw[j]
    ensures p in Reduced(raw, i)
  {
    var later := raw[i + 1..];
    UnionOfMembers(later);
    forall k | 0 <= k < |later|
      ensures p !in later[k]
    {
      assert later[k] == raw[i + 1 + k];
    }
  }

  /** The inner loop for class `i`: subtract each later raw region in turn. */
  method Reduce(raw: seq<set<Point>>, i: nat) returns (redux: set<Point>)
    requires i < |raw|
    ensures redux == Reduced(raw, i)
  {
    redux := raw[i];
    for j := i + 1 to |raw|
      invariant redux == raw[i] - UnionOf(raw[i + 1..j])
    {
      assert raw[i + 1..j + 1][..j - i - 1] == raw[i + 1..j];
      redux := redux - raw[j];
    }
    assert raw[i + 1..|raw|] == raw[i + 1..];
  }

  // ---------------------------------------------------------------- output

  /** A row of the `_polys` table. */
  datatype PolyRow = PolyRow(id: int, name: string, kind: string, region: set<Point>)

  /** A vegetation area before it receives an id: its type and its polygon. */
  datatype Area = Area(kind: string, region: set<Point>)

  /** The insert's WHERE: the polygon pieces of a dump, each typed `kind`, in dump order. */
  function PolygonAreas(ps: seq<Piece>, kind: string): (r: seq<Area>)
    ensures |r| <= |ps|
  {
    if ps == [] then []
    else
      var init := PolygonAreas(ps[..|ps| - 1], kind);
      if ps[|ps| - 1].isPolygon then init + [Area(kind, ps[|ps| - 1].region)] else init
  }

  /** The areas are exactly the polygon pieces of the dump, each typed `kind`. */
  lemma {:induction false} PolygonAreasMembers(ps: seq<Piece>, kind: string, a: Area)
    ensures a in PolygonAreas(ps, kind) <==> a.kind == kind && Piece(true, a.region) in ps
  {
    if ps != [] {
      var init := ps[..|ps| - 1];
      PolygonAreasMembers(init, kind, a);
      assert ps == init + [ps[|ps| - 1]];
    }
  }

  /** The areas the run inserts, class after class. */
  function Output(e: Engine, regions: seq<set<Point>>, types: seq<string>): seq<Area>
    requires |regions| == |types|
  {
    if regions == [] then []
    else
      var n := |regions| - 1;
      Output(e, regions[..n], types[..n]) + PolygonAreas(e.pieces(regions[n]), "VEG/" + types[n])
  }

  /** One more class appends its polygon pieces to the output. */
  lemma OutputStep(e: Engine, regions: seq<set<Point>>, x: set<Point>, types: seq<string>, i: nat)
    requires |regions| == i < |types|
    ensures Output(e, regions + [x], types[..i + 1]) ==
      Output(e, regions, types[..i]) + PolygonAreas(e.pieces(x), "VEG/" + types[i])
  {
    assert (regions + [x])[..i] == regions;
    assert types[..i + 1][..i] == types[..i];
  }

  /** Every area inserted is a polygon piece of some class's region, typed with that class. */
  lemma {:induction false} OutputAreas(e: Engine, regions: seq<set<Point>>, types: seq<string>)
    requires |regions| == |types|
    ensures forall a :: a in Output(e, regions, types) ==>
      exists i :: 0 <= i < |types| && a.kind == "VEG/" + types[i] && Piece(true, a.region) in e.pieces(regions[i])
  {
    if regions != [] {
      var n := |regions| - 1;
      OutputAreas(e, regions[..n], types[..n]);
      forall a | a in Output(e, regions, types)
        ensures exists i :: 0 <= i < |types| && a.kind == "VEG/" + types[i] && Piece(true, a.region) in e.pieces(regions[i])
      {
        PolygonAreasMembers(e.pieces(regions[n]), "VEG/" + types[n], a);
        if a !in PolygonAreas(e.pieces(regions[n]), "VEG/" + types[n]) {
          var i :| 0 <= i < n && a.kind == "VEG/" + types[..n][i] && Piece(true, a.region) in e.pieces(regions[..n][i]);
          assert types[..n][i] == types[i] && regions[..n][i] == regions[i];
        }
      }
    }
  }

  /** `nextval('serial')` per inserted row, from `serial` on; every row is named `-`. */
  function Numbered(areas: seq<Area>, serial: int): (r: seq<PolyRow>)
    ensures |r| == |areas|
  {
    seq(|areas|, k requires 0 <= k < |areas| => PolyRow(serial + k, "-", areas[k].kind, areas[k].region))
  }

  /** Row `k` carries id `serial + k`, the name `-`, and the type and polygon of area `k`. */
  lemma NumberedAt(areas: seq<Area>, serial: int)
    ensures forall k :: 0 <= k < |areas| ==>
      Numbered(areas, serial)[k].id == serial + k && Numbered(areas, serial)[k].name == "-" &&
      Numbered(areas, serial)[k].kind == areas[k].kind && Numbered(areas, serial)[k].region == areas[k].region
  {
  }

  /** Numbering two batches one after the other numbers their concatenation. */
  lemma NumberedAppend(a: seq<Area>, b: seq<Area>, serial: int)
    ensures Numbered(a + b, serial) == Numbered(a, serial) + Numbered(b, serial + |a|)
  {
    var x := Numbered(a + b, serial);
    var y := Numbered(a, serial) + Numbered(b, serial + |a|);
    assert |x| == |y|;
    forall k | 0 <= k < |a + b|
      ensures x[k] == y[k]
    {
      if k < |a| {
        assert (a + b)[k] == a[k];
      } else {
        assert (a + b)[k] == b[k - |a|];
      }
    }
  }

  /** The `_polys` table; the script only appends to it. */
  class Polys {
    var rows: seq<PolyRow>

    /** One `INSERT ... SELECT`: its rows follow the existing ones. */
    method Append(batch: seq<PolyRow>)
      modifies this
      ensures rows == old(rows) + batch
    {
      rows := rows + batch;
    }
  }

  /** The set-up loop: one raw region per class, and whether a class has no contributing line. */
  method CollectRaw(e: Engine, lines: Rows, types: seq<string>) returns (raw: seq<set<Point>>, missing: bool)
    ensures |raw| == |types|
    ensures forall i :: 0 <= i < |types| ==> raw[i] == RawRegion(e, lines, types[i])
    ensures missing <==> exists i :: 0 <= i < |types| && Contributors(lines, types[i]) == {}
  {
    raw := [];
    missing := false;
    for i := 0 to |types|
      invariant |raw| == i
      invariant forall k :: 0 <= k < i ==> raw[k] == RawRegion(e, lines, types[k])
      invariant missing <==> exists k :: 0 <= k < i && Contributors(lines, types[k]) == {}
    {
      raw := raw + [RawRegion(e, lines, types[i])];
      missing := missing || Contributors(lines, types[i]) == {};
    }
  }

  /**
   * The normalize loop: class `i` is reduced by all later classes and its polygon pieces are
   * inserted with ids that continue from `serial`.
   */
  method Normalize(e: Engine, raw: seq<set<Point>>, types: seq<string>, t: Polys, serial: int) returns (regions: seq<set<Point>>)
    requires |raw| == |types|
    modifies t
    ensures |regions| == |types|
    ensures forall i :: 0 <= i < |types| ==> regions[i] == Reduced(raw, i)
    ensures t.rows == old(t.rows) + Numbered(Output(e, regions, types), serial)
  {
    var next := serial;
    regions := [];
    for i := 0 to |types|
      invariant |regions| == i
      invariant forall k :: 0 <= k < i ==> regions[k] == Reduced(raw, k)
      invariant next == serial + |Output(e, regions, types[..i])|
      invariant t.rows == old(t.rows) + Numbered(Output(e, regions, types[..i]), serial)
    {
      var redux := Reduce(raw, i);
      var areas := PolygonAreas(e.pieces(redux), "VEG/" + types[i]);
      t.Append(Numbered(areas, next));
      NumberedAppend(Output(e, regions, types[..i]), areas, serial);
      OutputStep(e, regions, redux, types, i);
      next := next + |areas|;
      regions := regions + [redux];
    }
    assert types[..|types|] == types;
  }

  /**
   * `main`: a class without contributing lines leaves an empty SQL array, which aborts the
   * first reduction query before anything is inserted. Otherwise the classes are normalized
   * in order, with ids from the new sequence.
   */
  method Run(e: Engine, lines: Rows, t: Polys) returns (r: Outcome, regions: seq<set<Point>>)
    modifies t
    ensures r.Abort? <==> exists i :: 0 <= i < |TYPES| && Contributors(lines, TYPES[i]) == {}
    ensures r.Abort? ==> r.fault == EmptyList && t.rows == old(t.rows)
    ensures r.Done? ==> |regions| == |TYPES|
    ensures r.Done? ==> forall i :: 0 <= i < |TYPES| ==> regions[i] == Reduced(Raws(e, lines), i)
    ensures r.Done? ==> t.rows == old(t.rows) + Numbered(Output(e, regions, TYPES), SERIAL_START)
  {
    var raw, missing := CollectRaw(e, lines, TYPES);
    if missing {
      return Abort(EmptyList), [];
    }
    assert raw == Raws(e, lines);
    regions := Normalize(e, raw, TYPES, t, SERIAL_START);
    r := Done;
  }
}
