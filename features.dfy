/**
 * The `_lines` feature table every script works on: rows keyed by `id`, each with a `name`,
 * a `type` (here `kind`) and a line geometry, plus the `serial` sequence that `nextval`
 * draws new ids from. Single-row UPDATE/INSERT/DELETE statements are the methods of `Table`;
 * the bulk statements shared by several scripts are functions on the row map.
 */
module Features {
  import opened Common
  import opened Text
  import opened Geometry

  /** A row of `_lines`; a row inserted without a style has the empty style (SQL NULL matches no `LIKE`). */
  datatype Feature = Feature(name: string, kind: string, geom: Line, style: string)

  type Rows = map<int, Feature>

  /** `rows` with `fs` inserted under the ids `serial`, `serial + 1`, ... in order. */
  function Appended(rows: Rows, serial: int, fs: seq<Feature>): Rows
    decreases |fs|
  {
    if fs == [] then rows
    else Appended(rows, serial, fs[..|fs| - 1])[serial + |fs| - 1 := fs[|fs| - 1]]
  }

  /** Appending keeps every old row below `serial` and puts the k-th new feature at `serial + k`. */
  lemma {:induction false} AppendedRows(rows: Rows, serial: int, fs: seq<Feature>)
    requires forall id :: id in rows ==> id < serial
    ensures forall id :: id in Appended(rows, serial, fs) <==> id in rows || serial <= id < serial + |fs|
    ensures forall id :: id in rows ==> Appended(rows, serial, fs)[id] == rows[id]
    ensures forall k :: 0 <= k < |fs| ==> Appended(rows, serial, fs)[serial + k] == fs[k]
  {
    if fs != [] {
      AppendedRows(rows, serial, fs[..|fs| - 1]);
    }
  }

  /** `UPDATE ... SET wkb_geometry = g WHERE id = id`: no row changes when the id is absent. */
  function WithGeom(rows: Rows, id: int, g: Line): Rows
  {
    if id in rows then rows[id := rows[id].(geom := g)] else rows
  }

  /** `UPDATE ... SET type = k WHERE id = id`. */
  function WithKind(rows: Rows, id: int, k: string): Rows
  {
    if id in rows then rows[id := rows[id].(kind := k)] else rows
  }

  /** The pathological-line predicate as written: `type LIKE '%cat%' AND npoints < 4 OR length < eps`. */
  predicate Pathological(e: Engine, f: Feature, cat: string, eps: real)
  {
    (Contains(f.kind, cat) && |f.geom| < 4) || e.length(f.geom) < eps
  }

  /** The rows left by the pathological-line DELETE. */
  function Pruned(e: Engine, rows: Rows, cat: string, eps: real): (r: Rows)
    ensures forall id :: id in r <==> id in rows && !Pathological(e, rows[id], cat, eps)
    ensures forall id :: id in r ==> r[id] == rows[id]
  {
    map id | id in rows && !Pathological(e, rows[id], cat, eps) :: rows[id]
  }

  /**
   * The precedence as written: a line shorter than `eps` is removed whatever its type,
   * while a line of the category with at least four vertices and length `eps` or more stays.
   */
  lemma PrunePrecedence(e: Engine, rows: Rows, cat: string, eps: real, id: int)
    requires id in rows
    ensures e.length(rows[id].geom) < eps ==> id !in Pruned(e, rows, cat, eps)
    ensures |rows[id].geom| >= 4 && e.length(rows[id].geom) >= eps ==> Pruned(e, rows, cat, eps)[id] == rows[id]
    ensures !Contains(rows[id].kind, cat) && e.length(rows[id].geom) >= eps ==> id in Pruned(e, rows, cat, eps)
  {
  }

  /** The feature table and its `serial` sequence. */
  class Table {
    var rows: Rows
    var serial: int

    /** Every id in use lies below the next value of the sequence, so `nextval` never collides. */
    ghost predicate Valid()
      reads this
    {
      forall id :: id in rows ==> id < serial
    }

    /** A table loaded with `rows0`, its sequence created with `START start`. */
    constructor (rows0: Rows, start: int)
      requires forall id :: id in rows0 ==> id < start
      ensures Valid() && rows == rows0 && serial == start
    {
      rows := rows0;
      serial := start;
    }

    /** `INSERT ... VALUES (nextval('serial'), ...)`. */
    method Insert(f: Feature) returns (id: int)
      requires Valid()
      modifies this
      ensures Valid()
      ensures id == old(serial) && id !in old(rows)
      ensures rows == old(rows)[id := f] && serial == old(serial) + 1
    {
      id := serial;
      rows := rows[id := f];
      serial := serial + 1;
    }

    /** One INSERT per feature, in order. */
    method InsertAll(fs: seq<Feature>)
      requires Valid()
      modifies this
      ensures Valid()
      ensures rows == Appended(old(rows), old(serial), fs) && serial == old(serial) + |fs|
    {
      var i := 0;
      while i < |fs|
        invariant 0 <= i <= |fs|
        invariant Valid() && serial == old(serial) + i
        invariant rows == Appended(old(rows), old(serial), fs[..i])
      {
        assert fs[..i + 1][..i] == fs[..i];
        var _ := Insert(fs[i]);
        i := i + 1;
      }
      assert fs[..|fs|] == fs;
    }

    /** `UPDATE ... SET name, type, wkb_geometry WHERE id = id`. */
    method SetRow(id: int, f: Feature)
      requires Valid()
      modifies this
      ensures Valid() && serial == old(serial)
      ensures rows == if id in old(rows) then old(rows)[id := f] else old(rows)
    {
      if id in rows {
        rows := rows[id := f];
      }
    }

    /** `UPDATE ... SET wkb_geometry = g WHERE id = id`. */
    method SetGeom(id: int, g: Line)
      requires Valid()
      modifies this
      ensures Valid() && serial == old(serial)
      ensures rows == WithGeom(old(rows), id, g)
    {
      rows := WithGeom(rows, id, g);
    }

    /** `UPDATE ... SET type = k WHERE id = id`. */
    method SetKind(id: int, k: string)
      requires Valid()
      modifies this
      ensures Valid() && serial == old(serial)
      ensures rows == WithKind(old(rows), id, k)
    {
      rows := WithKind(rows, id, k);
    }

    /** `DELETE ... WHERE id = id`. */
    method Delete(id: int)
      requires Valid()
      modifies this
      ensures Valid() && serial == old(serial)
      ensures rows == old(rows) - {id}
    {
      rows := rows - {id};
    }

    /** A statement that rewrites many rows at once and inserts none. */
    method Assign(r: Rows)
      requires Valid()
      requires r.Keys <= rows.Keys
      modifies this
      ensures Valid() && serial == old(serial)
      ensures rows == r
    {
      rows := r;
    }

    /** The pathological-line DELETE of the coast, contour, lake and road scripts. */
    method RemovePathological(e: Engine, cat: string, eps: real)
      requires Valid()
      modifies this
      ensures Valid() && serial == old(serial)
      ensures rows == Pruned(e, old(rows), cat, eps)
    {
      rows := Pruned(e, rows, cat, eps);
    }
  }
}
