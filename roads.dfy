/**
 * `geo_roads.py`: roads. Pathological lines are removed and every ROADS line is healed; then
 * each town, mine or city pulls the nearest vertex of the nearest road onto itself, and each
 * road's endpoints are snapped, in id order, onto the nearest vertex of the nearest other road.
 */
module Roads {
  import opened Common
  import opened Text
  import opened Geometry
  import opened Features
  import opened Healer

  /** Distance considered connected; also the length below which a line is pathological. */
  const EPS: real := 0.005

  predicate IsRoad(f: Feature)
  {
    Contains(f.kind, "ROADS")
  }

  function RoadIds(rows: Rows): set<int>
  {
    set id | id in rows && IsRoad(rows[id])
  }

  /**
   * The roads the distance queries return for the point `p`: ROADS rows, other than the ids
   * in `own`, closer to `p` than EPS (an empty geometry has no distance and is never returned).
   */
  function Near(e: Engine, rows: Rows, p: Point, own: set<int>): set<int>
  {
    set id | id in rows && id !in own && IsRoad(rows[id]) && |rows[id].geom| > 0 && e.lineDist(p, rows[id].geom) < EPS
  }

  /** No road of `Near` touches `p`: the nearest one is at a positive distance. */
  predicate Apart(e: Engine, rows: Rows, p: Point, own: set<int>)
  {
    forall x :: x in Near(e, rows, p, own) ==> e.lineDist(p, rows[x].geom) > 0.0
  }

  lemma NotApart(e: Engine, rows: Rows, p: Point, own: set<int>, w: int)
    requires w in Near(e, rows, p, own) && e.lineDist(p, rows[w].geom) <= 0.0
    ensures !Apart(e, rows, p, own)
  {
  }

  /** `ORDER BY ST_Distance ASC` and its first row: a road of `Near` at the least distance. */
  method NearestRoad(e: Engine, rows: Rows, p: Point, own: set<int>) returns (r: Option<int>)
    ensures r.Some? <==> Near(e, rows, p, own) != {}
    ensures r.Some? ==> r.value in Near(e, rows, p, own)
    ensures r.Some? ==> forall x :: x in Near(e, rows, p, own) ==> e.lineDist(p, rows[r.value].geom) <= e.lineDist(p, rows[x].geom)
  {
    var s := Near(e, rows, p, own);
    if s == {} {
      return None;
    }
    var key := map x | x in s :: e.lineDist(p, rows[x].geom);
    var m := MinBy(s, key);
    return Some(m);
  }

  /** The `ST_DumpPoints ... ORDER BY ST_Distance ASC LIMIT 1` subquery: a vertex nearest `p`, the first on a tie. */
  function NearestVertex(e: Engine, g: Line, p: Point): (i: nat)
    requires |g| > 0
    decreases |g|
    ensures i < |g|
    ensures forall k :: 0 <= k < |g| ==> e.dist(g[i], p) <= e.dist(g[k], p)
    ensures forall k :: 0 <= k < i ==> e.dist(g[i], p) < e.dist(g[k], p)
  {
    if |g| == 1 then 0
    else
      var j := NearestVertex(e, g[..|g| - 1], p);
      if e.dist(g[|g| - 1], p) < e.dist(g[j], p) then |g| - 1 else j
  }

  // ---------------------------------------------------------------- towns

  /** A town's snap: the road's vertex nearest the town moved onto it. */
  function Snap(e: Engine, g: Line, p: Point): Line
    requires |g| > 0
  {
    g[NearestVertex(e, g, p) := p]
  }

  /**
   * A snapped road passes through the town, so its distance to it is 0; one vertex moved,
   * the others and the vertex count stay.
   */
  lemma SnapTouches(e: Engine, g: Line, p: Point)
    requires VertexOnLine(e) && |g| > 0
    ensures |Snap(e, g, p)| == |g| && e.lineDist(p, Snap(e, g, p)) == 0.0
    ensures forall k :: 0 <= k < |g| && k != NearestVertex(e, g, p) ==> Snap(e, g, p)[k] == g[k]
  {
    var i := NearestVertex(e, g, p);
    assert Snap(e, g, p)[i] == p;
  }

  /**
   * One town `p` taken from the table `a` to `b`: `moved` is the road snapped, present exactly
   * when a road is within EPS of the town and none touches it; that road is a nearest one,
   * and it alone changes, its vertex nearest the town moved onto the town.
   */
  ghost predicate TownSnapped(e: Engine, a: Rows, p: Point, moved: Option<int>, b: Rows)
  {
    (moved.Some? <==> Near(e, a, p, {}) != {} && Apart(e, a, p, {})) &&
    (moved.None? ==> b == a) &&
    (moved.Some? ==>
      moved.value in Near(e, a, p, {}) &&
      (forall x :: x in Near(e, a, p, {}) ==> e.lineDist(p, a[moved.value].geom) <= e.lineDist(p, a[x].geom)) &&
      b == WithGeom(a, moved.value, Snap(e, a[moved.value].geom, p)))
  }

  /**
   * The town loop for one town: while the nearest road within EPS is at a positive distance,
   * snap it and query again. A snapped road touches the town, so the loop snaps at most one
   * road, and none when a road already touches the town.
   */
  method SnapTown(t: Table, e: Engine, p: Point) returns (moved: Option<int>)
    requires t.Valid() && LineDistNonNegative(e) && VertexOnLine(e)
    modifies t
    ensures t.Valid() && t.serial == old(t.serial)
    ensures TownSnapped(e, old(t.rows), p, moved, t.rows)
  {
    var rows0 := t.rows;
    moved := None;
    var r := NearestRoad(e, t.rows, p, {});
    while r.Some? && e.lineDist(p, t.rows[r.value].geom) > 0.0
      invariant t.Valid() && t.serial == old(t.serial)
      invariant r.Some? <==> Near(e, t.rows, p, {}) != {}
      invariant r.Some? ==> r.value in Near(e, t.rows, p, {})
      invariant r.Some? ==> forall x :: x in Near(e, t.rows, p, {}) ==>
        e.lineDist(p, t.rows[r.value].geom) <= e.lineDist(p, t.rows[x].geom)
      invariant moved.None? ==> t.rows == rows0
      invariant moved.Some? ==> r.Some? && e.lineDist(p, t.rows[r.value].geom) == 0.0
      invariant moved.Some? ==> moved.value in Near(e, rows0, p, {}) && e.lineDist(p, rows0[moved.value].geom) > 0.0
      invariant moved.Some? ==> forall x :: x in Near(e, rows0, p, {}) ==>
        e.lineDist(p, rows0[moved.value].geom) <= e.lineDist(p, rows0[x].geom)
      invariant moved.Some? ==> t.rows == WithGeom(rows0, moved.value, Snap(e, rows0[moved.value].geom, p))
      decreases if moved.None? then 1 else 0
    {
      var id := r.value;
      var g := t.rows[id].geom;
      t.SetGeom(id, Snap(e, g, p));
      moved := Some(id);
      SnapTouches(e, g, p);
      assert id in Near(e, t.rows, p, {});
      r := NearestRoad(e, t.rows, p, {});
    }
    if moved.None? && r.Some? {
      NotApart(e, rows0, p, {}, r.value);
    }
    if moved.Some? {
      assert Apart(e, rows0, p, {}) by {
        forall x | x in Near(e, rows0, p, {})
          ensures e.lineDist(p, rows0[x].geom) > 0.0
        {
          assert e.lineDist(p, rows0[moved.value].geom) <= e.lineDist(p, rows0[x].geom);
        }
      }
    }
  }

  /** Rows whose name, type, style and vertex count are as before. */
  predicate SameShape(a: Feature, b: Feature)
  {
    a.name == b.name && a.kind == b.kind && a.style == b.style && |a.geom| == |b.geom|
  }

  /**
   * The town loop from `a` to `b`: `states` are the tables between towns, and each town takes
   * one to the next as `TownSnapped` says, with `moves` the road each one snapped.
   */
  ghost predicate TownsSnapped(e: Engine, a: Rows, towns: seq<Point>, moves: seq<Option<int>>, states: seq<Rows>, b: Rows)
  {
    |moves| == |towns| && |states| == |towns| + 1 && states[0] == a && states[|towns|] == b &&
    forall i :: 0 <= i < |towns| ==> TownSnapped(e, states[i], towns[i], moves[i], states[i + 1])
  }

  /** A snap keeps every key, name, type, style and vertex count, and changes only roads. */
  lemma SnappedShape(e: Engine, a: Rows, p: Point, moved: Option<int>, b: Rows)
    requires VertexOnLine(e) && TownSnapped(e, a, p, moved, b)
    ensures b.Keys == a.Keys
    ensures forall id :: id in b ==> SameShape(a[id], b[id])
    ensures forall id :: id in b && !IsRoad(a[id]) ==> b[id] == a[id]
  {
    if moved.Some? {
      SnapTouches(e, a[moved.value].geom, p);
    }
  }

  /** "Match towns and roads": every town in turn; only road geometries change, one vertex per snap. */
  method SnapTowns(t: Table, e: Engine, towns: seq<Point>) returns (ghost moves: seq<Option<int>>, ghost states: seq<Rows>)
    requires t.Valid() && LineDistNonNegative(e) && VertexOnLine(e)
    modifies t
    ensures t.Valid() && t.serial == old(t.serial) && t.rows.Keys == old(t.rows).Keys
    ensures TownsSnapped(e, old(t.rows), towns, moves, states, t.rows)
    ensures forall id :: id in t.rows ==> SameShape(old(t.rows)[id], t.rows[id])
    ensures forall id :: id in t.rows && !IsRoad(old(t.rows)[id]) ==> t.rows[id] == old(t.rows)[id]
  {
    moves, states := [], [t.rows];
    for i := 0 to |towns|
      invariant t.Valid() && t.serial == old(t.serial) && t.rows.Keys == old(t.rows).Keys
      invariant TownsSnapped(e, old(t.rows), towns[..i], moves, states, t.rows)
      invariant forall id :: id in t.rows ==> SameShape(old(t.rows)[id], t.rows[id])
      invariant forall id :: id in t.rows && !IsRoad(old(t.rows)[id]) ==> t.rows[id] == old(t.rows)[id]
    {
      var before := t.rows;
      var moved := SnapTown(t, e, towns[i]);
      SnappedShape(e, before, towns[i], moved, t.rows);
      TownsSnappedMore(e, old(t.rows), towns, i, moves, states, before, moved, t.rows);
      moves, states := moves + [moved], states + [t.rows];
    }
    assert towns[..|towns|] == towns;
  }

  /** The town loop one town further. */
  lemma TownsSnappedMore(e: Engine, a: Rows, towns: seq<Point>, i: nat, moves: seq<Option<int>>, states: seq<Rows>,
                         b: Rows, moved: Option<int>, c: Rows)
    requires i < |towns| && TownsSnapped(e, a, towns[..i], moves, states, b)
    requires TownSnapped(e, b, towns[i], moved, c)
    ensures TownsSnapped(e, a, towns[..i + 1], moves + [moved], states + [c], c)
  {
    forall k | 0 <= k < i + 1
      ensures TownSnapped(e, (states + [c])[k], towns[..i + 1][k], (moves + [moved])[k], (states + [c])[k + 1])
    {
      if k < i {
        assert towns[..i + 1][k] == towns[..i][k];
      }
    }
  }

  // ---------------------------------------------------------------- road to road

  /** `connect`'s UPDATE: the chosen endpoint of `g` set to the vertex of `other` nearest `q`. */
  function Joined(e: Engine, g: Line, side: Side, other: Line, q: Point): Line
    requires |g| > 0 && |other| > 0
  {
    SetEndVertex(g, side, other[NearestVertex(e, other, q)])
  }

  /**
   * Only the chosen endpoint moves, onto a vertex of the other road that no vertex of it
   * is nearer to `q` than.
   */
  lemma JoinedShape(e: Engine, g: Line, side: Side, other: Line, q: Point)
    requires |g| > 0 && |other| > 0
    ensures |Joined(e, g, side, other, q)| == |g|
    ensures forall k :: 0 < k < |g| - 1 ==> Joined(e, g, side, other, q)[k] == g[k]
    ensures EndpointOf(Joined(e, g, side, other, q), side) in other
    ensures forall v :: v in other ==> e.dist(EndpointOf(Joined(e, g, side, other, q), side), q) <= e.dist(v, q)
  {
    var i := NearestVertex(e, other, q);
    assert EndpointOf(Joined(e, g, side, other, q), side) == other[i];
    forall v | v in other
      ensures e.dist(other[i], q) <= e.dist(v, q)
    {
      var k :| 0 <= k < |other| && other[k] == v;
    }
  }

  /**
   * `connect` at the endpoint `q` of the road `own`, taking the table `a` to `b`: `target` is
   * the road joined, present exactly when another road is within EPS of `q` and none touches
   * it; that road is a nearest one, and only the own road changes, its `side` endpoint moved
   * onto the target's vertex nearest `q`. The target road itself is not changed.
   */
  ghost predicate EndJoined(e: Engine, a: Rows, own: int, q: Point, side: Side, target: Option<int>, b: Rows)
    requires own in a && |a[own].geom| > 0
  {
    (target.Some? <==> Near(e, a, q, {own}) != {} && Apart(e, a, q, {own})) &&
    (target.None? ==> b == a) &&
    (target.Some? ==>
      target.value in Near(e, a, q, {own}) && target.value != own &&
      (forall x :: x in Near(e, a, q, {own}) ==> e.lineDist(q, a[target.value].geom) <= e.lineDist(q, a[x].geom)) &&
      b == WithGeom(a, own, Joined(e, a[own].geom, side, a[target.value].geom, q)))
  }

  /**
   * `connect(point, pt_idx)` for the road `own` and its endpoint `q` as read before the loop,
   * as `EndJoined` says.
   */
  method Connect(t: Table, e: Engine, own: int, q: Point, side: Side) returns (target: Option<int>)
    requires t.Valid() && own in t.rows && |t.rows[own].geom| > 0
    modifies t
    ensures t.Valid() && t.serial == old(t.serial)
    ensures EndJoined(e, old(t.rows), own, q, side, target, t.rows)
  {
    var rows0 := t.rows;
    var r := NearestRoad(e, rows0, q, {own});
    if r.None? {
      return None;
    }
    if e.lineDist(q, rows0[r.value].geom) <= 0.0 {
      NotApart(e, rows0, q, {own}, r.value);
      return None;
    }
    var other := t.rows[r.value].geom;
    t.SetGeom(own, Joined(e, t.rows[own].geom, side, other, q));
    return r;
  }

  /** Rows that differ at most in the first and last vertex of their geometry. */
  predicate EndsOnly(a: Feature, b: Feature)
  {
    SameShape(a, b) && forall k :: 0 < k < |a.geom| - 1 ==> b.geom[k] == a.geom[k]
  }

  /** A join keeps every key, and every row but the own one, whose ends alone may move. */
  lemma JoinedRows(e: Engine, a: Rows, own: int, q: Point, side: Side, target: Option<int>, b: Rows)
    requires own in a && |a[own].geom| > 0 && EndJoined(e, a, own, q, side, target, b)
    ensures b.Keys == a.Keys
    ensures forall id :: id in b && id != own ==> b[id] == a[id]
    ensures EndsOnly(a[own], b[own])
  {
    if target.Some? {
      JoinedShape(e, a[own].geom, side, a[target.value].geom, q);
    }
  }

  /** The two `connect` calls of one road: the road joined at each end and the table between them. */
  datatype Joins = Joins(first: Option<int>, second: Option<int>, mid: Rows)

  /**
   * One road `own`, with endpoints read from `g`, taking the table `a` to `b`: `connect` at
   * its start takes `a` to `j.mid`, then `connect` at its end takes `j.mid` to `b`.
   */
  ghost predicate RoadJoined(e: Engine, a: Rows, own: int, g: Line, j: Joins, b: Rows)
  {
    own in a && |a[own].geom| > 0 && |g| > 0 &&
    EndJoined(e, a, own, EndpointOf(g, Start), Start, j.first, j.mid) &&
    own in j.mid && |j.mid[own].geom| > 0 &&
    EndJoined(e, j.mid, own, EndpointOf(g, End), End, j.second, b)
  }

  /** One road of the road loop: `connect` at its start, then at its end. */
  method ConnectBoth(t: Table, e: Engine, own: int, g: Line) returns (ghost j: Joins)
    requires t.Valid() && own in t.rows && |t.rows[own].geom| > 0 && |g| > 0
    modifies t
    ensures t.Valid() && t.serial == old(t.serial) && t.rows.Keys == old(t.rows).Keys
    ensures RoadJoined(e, old(t.rows), own, g, j, t.rows)
    ensures forall id :: id in t.rows && id != own ==> t.rows[id] == old(t.rows)[id]
    ensures EndsOnly(old(t.rows)[own], t.rows[own])
  {
    var rows0 := t.rows;
    var a := Connect(t, e, own, EndpointOf(g, Start), Start);
    JoinedRows(e, rows0, own, EndpointOf(g, Start), Start, a, t.rows);
    var rows1 := t.rows;
    var b := Connect(t, e, own, EndpointOf(g, End), End);
    JoinedRows(e, rows1, own, EndpointOf(g, End), End, b, t.rows);
    j := Joins(a, b, rows1);
  }

  /**
   * The road loop over `order` from `a` to `b`: `states` are the tables between roads, and
   * each road takes one to the next as `RoadJoined` says, its endpoints read from `a`.
   */
  ghost predicate RoadsJoined(e: Engine, a: Rows, order: seq<int>, joins: seq<Joins>, states: seq<Rows>, b: Rows)
  {
    |joins| == |order| && |states| == |order| + 1 && states[0] == a && states[|order|] == b &&
    forall k :: 0 <= k < |order| ==>
      order[k] in a && RoadJoined(e, states[k], order[k], a[order[k]].geom, joins[k], states[k + 1])
  }

  /** The road loop one road further. */
  lemma RoadsJoinedMore(e: Engine, a: Rows, order: seq<int>, i: nat, joins: seq<Joins>, states: seq<Rows>,
                        b: Rows, j: Joins, c: Rows)
    requires i < |order| && RoadsJoined(e, a, order[..i], joins, states, b)
    requires order[i] in a && RoadJoined(e, b, order[i], a[order[i]].geom, j, c)
    ensures RoadsJoined(e, a, order[..i + 1], joins + [j], states + [c], c)
  {
    var o, js, ss := order[..i + 1], joins + [j], states + [c];
    forall k | 0 <= k < i + 1
      ensures o[k] in a && RoadJoined(e, ss[k], o[k], a[o[k]].geom, js[k], ss[k + 1])
    {
      if k < i {
        assert o[k] == order[..i][k];
      }
    }
  }

  /** Between `a` and its later state `b` only road ends moved. */
  ghost predicate Touched(a: Rows, b: Rows)
  {
    b.Keys == a.Keys &&
    forall id :: id in b ==> EndsOnly(a[id], b[id]) && (!IsRoad(a[id]) ==> b[id] == a[id])
  }

  /** Moving the ends of one more road keeps `Touched`. */
  lemma TouchedMore(a: Rows, b: Rows, c: Rows, own: int)
    requires Touched(a, b) && own in a && IsRoad(a[own])
    requires c.Keys == b.Keys && EndsOnly(b[own], c[own])
    requires forall id :: id in c && id != own ==> c[id] == b[id]
    ensures Touched(a, c)
  {
  }

  /**
   * "Connect roads to roads": every road in id order, start before end, with its endpoints
   * as read before the loop. A road without points has NULL endpoints, which abort the run
   * when its turn comes. Only road endpoints move.
   */
  method ConnectRoads(t: Table, e: Engine) returns (r: Outcome, order: seq<int>, ghost joins: seq<Joins>, ghost states: seq<Rows>)
    requires t.Valid()
    modifies t
    ensures t.Valid() && t.serial == old(t.serial) && t.rows.Keys == old(t.rows).Keys
    ensures Increasing(order) && Elems(order) == RoadIds(old(t.rows))
    ensures r.Abort? <==> exists id :: id in RoadIds(old(t.rows)) && |old(t.rows)[id].geom| == 0
    ensures r.Abort? ==> r.fault == NullValue
    ensures |joins| <= |order|
    ensures RoadsJoined(e, old(t.rows), order[..|joins|], joins, states, t.rows)
    ensures r.Done? ==> |joins| == |order|
    ensures forall k :: 0 <= k < |order| ==> order[k] in RoadIds(old(t.rows))
    ensures r.Abort? ==> |joins| < |order| && |old(t.rows)[order[|joins|]].geom| == 0
    ensures forall id :: id in t.rows ==> EndsOnly(old(t.rows)[id], t.rows[id])
    ensures forall id :: id in t.rows && !IsRoad(old(t.rows)[id]) ==> t.rows[id] == old(t.rows)[id]
  {
    var rows0 := t.rows;
    order := SortIds(RoadIds(rows0));
    r, joins, states := Done, [], [rows0];
    var i := 0;
    while i < |order|
      invariant 0 <= i <= |order| && |joins| == i
      invariant t.Valid() && t.serial == old(t.serial) && t.rows.Keys == rows0.Keys
      invariant forall k :: 0 <= k < i ==> |rows0[order[k]].geom| > 0
      invariant RoadsJoined(e, rows0, order[..i], joins, states, t.rows)
      invariant Touched(rows0, t.rows)
    {
      var id := order[i];
      var g := rows0[id].geom;
      if |g| == 0 {
        return Abort(NullValue), order, joins, states;
      }
      var before := t.rows;
      var j := ConnectBoth(t, e, id, g);
      RoadsJoinedMore(e, rows0, order, i, joins, states, before, j, t.rows);
      TouchedMore(rows0, before, t.rows, id);
      joins, states := joins + [j], states + [t.rows];
      i := i + 1;
    }
  }

  /**
   * `b` is a later state of the table `a`: no row is added, names and types stay, and rows
   * other than roads are untouched.
   */
  predicate Kept(a: Rows, b: Rows)
  {
    forall id :: id in b ==>
      id in a && b[id].name == a[id].name && b[id].kind == a[id].kind && (!IsRoad(a[id]) ==> b[id] == a[id])
  }

  /**
   * `main`: prune, heal, snap the towns, connect the roads. `ids` are the roads healed in
   * turn, `healed` the table after healing and `snapped` the table after the town loop. The
   * run aborts exactly when a road does not heal, or when a healed road has no points.
   */
  method Run(t: Table, e: Engine, towns: seq<Point>) returns (r: Outcome, ghost ids: seq<int>, ghost healed: Rows, ghost snapped: Rows)
    requires t.Valid() && MergeSettles(e) && LineDistNonNegative(e) && VertexOnLine(e)
    modifies t
    ensures t.Valid() && t.serial == old(t.serial)
    ensures Increasing(ids) && Elems(ids) == OfCategory(Pruned(e, old(t.rows), "ROADS", EPS), "ROADS")
    ensures !HealFails(e, Pruned(e, old(t.rows), "ROADS", EPS), "ROADS") ==>
      healed == HealPass(e, Pruned(e, old(t.rows), "ROADS", EPS), ids)
    ensures r.Abort? <==>
      HealFails(e, Pruned(e, old(t.rows), "ROADS", EPS), "ROADS") || exists id :: id in RoadIds(healed) && |healed[id].geom| == 0
    ensures HealFails(e, Pruned(e, old(t.rows), "ROADS", EPS), "ROADS") ==> r == Abort(EmptyList)
    ensures r.Done? ==> exists moves, states :: TownsSnapped(e, healed, towns, moves, states, snapped)
    ensures r.Done? ==> exists order, joins, states ::
      Increasing(order) && Elems(order) == RoadIds(snapped) && RoadsJoined(e, snapped, order, joins, states, t.rows)
    ensures r.Done? ==> Kept(old(t.rows), t.rows)
    ensures r.Done? ==> forall id :: id in old(t.rows) ==>
      (id in t.rows <==> !Pathological(e, old(t.rows)[id], "ROADS", EPS))
  {
    var rows0 := t.rows;
    t.RemovePathological(e, "ROADS", EPS);
    var pruned := t.rows;
    assert Kept(rows0, pruned);
    var v;
    v, ids := ValidateAll(t, e, "ROADS");
    healed, snapped := t.rows, t.rows;
    if v.Abort? {
      return v, ids, healed, snapped;
    }
    HealPassRows(e, pruned, ids);
    assert Kept(pruned, t.rows) by {
      forall id | id in t.rows && !IsRoad(pruned[id])
        ensures id !in ids
      {
        assert id !in OfCategory(pruned, "ROADS");
      }
    }
    var moves, townStates := SnapTowns(t, e, towns);
    assert Kept(healed, t.rows);
    snapped := t.rows;
    assert RoadIds(snapped) == RoadIds(healed) by {
      forall id | id in snapped
        ensures IsRoad(snapped[id]) == IsRoad(healed[id])
      {
        assert SameShape(healed[id], snapped[id]);
      }
    }
    var order;
    ghost var joins, roadStates;
    r, order, joins, roadStates := ConnectRoads(t, e);
    assert Kept(snapped, t.rows);
    if r.Done? {
      assert order[..|joins|] == order;
    }
  }
}
