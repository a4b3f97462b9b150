/**
 * `geo_elevation.py`: contour lines. Pathological lines are removed and every CONTOURS line
 * is healed; height labels from the points table are matched to the contours near them;
 * open labelled lines are connected; and the rings around each peak are labelled by counting
 * 500 per ring from the nearest ring that already carries a height.
 */
module Elevation {
  import opened Common
  import opened Text
  import opened Geometry
  import opened Features
  import opened Healer
  import opened Connector
  import opened Rings

  /** Distance at which a height label belongs to a contour. */
  const EPSP: real := 0.0025
  /** Distance considered connected. */
  const EPSL: real := 0.007

  // ---------------------------------------------------------------- height keys

  predicate NonZeroDigit(c: char)
  {
    '1' <= c <= '9'
  }

  /** What the group `([1-9][05]|5)` can capture. */
  predicate IsKey(k: string)
  {
    k == "5" || (|k| == 2 && NonZeroDigit(k[0]) && (k[1] == '0' || k[1] == '5'))
  }

  /**
   * The capture of `[^1-9]([1-9][05]|5)00` for a match starting at `i`. Where both
   * alternatives match (`x5000`), the longer match is taken, so the key is `50`.
   */
  function KeyAt(s: string, i: nat): (r: Option<string>)
    ensures r.Some? ==> IsKey(r.value) && i + |r.value| + 3 <= |s|
    ensures r.Some? ==> !NonZeroDigit(s[i]) && s[i + 1..i + |r.value| + 3] == r.value + "00"
  {
    if i + 5 <= |s| && !NonZeroDigit(s[i]) && NonZeroDigit(s[i + 1]) && (s[i + 2] == '0' || s[i + 2] == '5')
       && s[i + 3] == '0' && s[i + 4] == '0'
    then Some(s[i + 1..i + 3])
    else if i + 4 <= |s| && !NonZeroDigit(s[i]) && s[i + 1] == '5' && s[i + 2] == '0' && s[i + 3] == '0'
    then Some("5")
    else None
  }

  /** The capture at the leftmost position from `from` on where the pattern matches. */
  function KeyFrom(s: string, from: nat): (r: Option<string>)
    decreases |s| - from
    ensures r.Some? ==> exists i :: from <= i < |s| && KeyAt(s, i) == r && forall j :: from <= j < i ==> KeyAt(s, j).None?
    ensures r.None? ==> forall i :: from <= i < |s| ==> KeyAt(s, i).None?
  {
    if from >= |s| then None
    else if KeyAt(s, from).Some? then KeyAt(s, from)
    else KeyFrom(s, from + 1)
  }

  /** `substring(type, '[^1-9]([1-9][05]|5)00')`; `None` is SQL NULL. */
  function ElevKey(s: string): Option<string>
  {
    KeyFrom(s, 0)
  }

  /**
   * A captured key followed by `00` is a height: a multiple of 500 from 500 to 9500, written
   * in canonical decimal, so `int()` reads it back and `str()` gives the same text.
   */
  lemma KeyHeight(k: string)
    requires IsKey(k)
    ensures ParseInt(k + "00").Some?
    ensures ParseInt(k + "00").value % 500 == 0 && 500 <= ParseInt(k + "00").value <= 9500
    ensures IntToString(ParseInt(k + "00").value) == k + "00"
    ensures Fixed(k + "00") && !Contains(k + "00", "CONTOURS")
  {
    var s := k + "00";
    KeyValue(k);
    assert ParseInt(s) == Some(DigitsValue(s) as int);
    CanonicalDigits(s);
    ContainsAt(s, "00", |k|);
    NotContains(s, "CONTOURS");
  }

  /** The digits of a key followed by `00` read as a multiple of 500 from 500 to 9500. */
  lemma KeyValue(k: string)
    requires IsKey(k)
    ensures AllDigits(k + "00") && (k + "00")[0] != '0' && (k + "00")[0] != '-' && (k + "00")[0] != '+'
    ensures DigitsValue(k + "00") % 500 == 0 && 500 <= DigitsValue(k + "00") <= 9500
  {
    var s := k + "00";
    var s1 := k + "0";
    assert AllDigits(s) && AllDigits(s1) && AllDigits(k);
    assert s[..|s| - 1] == s1 && s1[..|s1| - 1] == k;
    assert DigitsValue(s) == DigitsValue(s1) * 10;
    assert DigitsValue(s1) == DigitsValue(k) * 10;
    var k1 := k[..|k| - 1];
    assert DigitsValue(k) == DigitsValue(k1) * 10 + (k[|k| - 1] as int - '0' as int);
    if |k| == 2 {
      assert k1[..0] == [];
      assert DigitsValue(k1) == k[0] as int - '0' as int;
    } else {
      assert k1 == [];
    }
  }

  // ---------------------------------------------------------------- sort_elevation_pts

  /** A row of the points table. */
  datatype Marker = Marker(kind: string, at: Point)

  /** One row of the `GROUP BY elev` query: a key and the union of its points. */
  datatype Group = Group(key: string, points: set<Point>)

  /** A point the query selects: `type LIKE '%00%'`. */
  predicate HeightMarker(m: Marker)
  {
    Fixed(m.kind)
  }

  /** The keys of the height markers with a key, each once, in order of first appearance. */
  function KeyOrder(pts: seq<Marker>): (ks: seq<string>)
    decreases |pts|
    ensures forall i, j :: 0 <= i < j < |ks| ==> ks[i] != ks[j]
    ensures forall k :: k in ks <==> exists m :: m in pts && HeightMarker(m) && ElevKey(m.kind) == Some(k)
  {
    if pts == [] then []
    else
      var prev := KeyOrder(pts[..|pts| - 1]);
      var m := pts[|pts| - 1];
      assert pts == pts[..|pts| - 1] + [m];
      if HeightMarker(m) && ElevKey(m.kind).Some? && ElevKey(m.kind).value !in prev
      then prev + [ElevKey(m.kind).value]
      else prev
  }

  /** The points whose key is `k`. */
  function Members(pts: seq<Marker>, k: string): set<Point>
  {
    set m | m in pts && HeightMarker(m) && ElevKey(m.kind) == Some(k) :: m.at
  }

  /** Some height label has no key, so its group is NULL. */
  predicate NullKey(pts: seq<Marker>)
  {
    exists m :: m in pts && HeightMarker(m) && ElevKey(m.kind).None?
  }

  /** One group per key, in the order of `KeyOrder`. */
  function GroupsOf(pts: seq<Marker>): (gs: seq<Group>)
    ensures |gs| == |KeyOrder(pts)|
    ensures forall i :: 0 <= i < |gs| ==> gs[i] == Group(KeyOrder(pts)[i], Members(pts, KeyOrder(pts)[i]))
  {
    var ks := KeyOrder(pts);
    seq(|ks|, i requires 0 <= i < |ks| => Group(ks[i], Members(pts, ks[i])))
  }

  /** Every group has a well-formed key and at least one point, and every keyed label has its group. */
  lemma GroupsShape(pts: seq<Marker>)
    ensures forall i :: 0 <= i < |GroupsOf(pts)| ==> IsKey(GroupsOf(pts)[i].key) && GroupsOf(pts)[i].points != {}
    ensures forall m :: m in pts && HeightMarker(m) && ElevKey(m.kind).Some? ==>
      exists i :: 0 <= i < |GroupsOf(pts)| && Some(GroupsOf(pts)[i].key) == ElevKey(m.kind)
  {
    var ks := KeyOrder(pts);
    var gs := GroupsOf(pts);
    forall i | 0 <= i < |gs|
      ensures IsKey(gs[i].key) && gs[i].points != {}
    {
      assert ks[i] in ks;
      var m :| m in pts && HeightMarker(m) && ElevKey(m.kind) == Some(ks[i]);
      var at :| 0 <= at < |m.kind| && KeyAt(m.kind, at) == Some(ks[i]);
      assert m.at in gs[i].points;
    }
    forall m | m in pts && HeightMarker(m) && ElevKey(m.kind).Some?
      ensures exists i :: 0 <= i < |gs| && Some(gs[i].key) == ElevKey(m.kind)
    {
      var k := ElevKey(m.kind).value;
      assert k in ks;
      var i :| 0 <= i < |ks| && ks[i] == k;
      assert gs[i].key == k;
    }
  }

  /** With no NULL key, there are groups exactly when there are height labels. */
  lemma GroupsExist(pts: seq<Marker>)
    requires !NullKey(pts)
    ensures KeyOrder(pts) != [] <==> exists m :: m in pts && HeightMarker(m)
  {
    var ks := KeyOrder(pts);
    if ks != [] {
      assert ks[0] in ks;
    }
    if exists m :: m in pts && HeightMarker(m) {
      var m :| m in pts && HeightMarker(m);
      assert ElevKey(m.kind).value in ks;
    }
  }

  /**
   * `sort_elevation_pts` and the `VALUES` list built from it. A height label without a key
   * gives a NULL group, written as `None` into the SQL (`NullValue`); no height label at all
   * gives an empty `VALUES` list (`EmptyList`).
   */
  function SortElevationPts(pts: seq<Marker>): (r: Result<seq<Group>>)
    ensures r.Fail? <==> NullKey(pts) || (forall m :: m in pts ==> !HeightMarker(m))
    ensures r.Ok? ==> forall i, j :: 0 <= i < j < |r.value| ==> r.value[i].key != r.value[j].key
    ensures r.Ok? ==> forall i :: 0 <= i < |r.value| ==>
      IsKey(r.value[i].key) && r.value[i].points == Members(pts, r.value[i].key) && r.value[i].points != {}
    ensures r.Ok? ==> forall m :: m in pts && HeightMarker(m) ==>
      exists i :: 0 <= i < |r.value| && Some(r.value[i].key) == ElevKey(m.kind)
  {
    if NullKey(pts) then Fail(NullValue)
    else
      GroupsExist(pts);
      GroupsShape(pts);
      if KeyOrder(pts) == [] then Fail(EmptyList) else Ok(GroupsOf(pts))
  }

  // ---------------------------------------------------------------- matching

  /** The group nearest to `g` among those within EPSP; the first of them on a tie. */
  function NearestGroup(e: Engine, gs: seq<Group>, g: Line): (r: Option<nat>)
    decreases |gs|
    ensures r.Some? ==> r.value < |gs| && e.groupDist(gs[r.value].points, g) < EPSP
    ensures r.Some? ==> forall i :: 0 <= i < |gs| && e.groupDist(gs[i].points, g) < EPSP ==>
      e.groupDist(gs[r.value].points, g) <= e.groupDist(gs[i].points, g)
    ensures r.None? ==> forall i :: 0 <= i < |gs| ==> e.groupDist(gs[i].points, g) >= EPSP
  {
    if gs == [] then None
    else
      var prev := NearestGroup(e, gs[..|gs| - 1], g);
      var d := e.groupDist(gs[|gs| - 1].points, g);
      if d < EPSP && (prev.None? || d < e.groupDist(gs[prev.value].points, g)) then Some(|gs| - 1)
      else prev
  }

  /** The label a contour takes from the matching UPDATE, if a group lies within EPSP. */
  function MatchedKind(e: Engine, gs: seq<Group>, f: Feature): string
  {
    var n := NearestGroup(e, gs, f.geom);
    if Contains(f.kind, "CONTOURS") && n.Some? then gs[n.value].key + "00" else f.kind
  }

  /** The matching UPDATE: only CONTOURS rows change, and only their type. */
  function Matched(e: Engine, rows: Rows, gs: seq<Group>): (r: Rows)
    ensures r.Keys == rows.Keys
    ensures forall id :: id in rows ==> r[id] == rows[id].(kind := MatchedKind(e, gs, rows[id]))
  {
    map id | id in rows :: rows[id].(kind := MatchedKind(e, gs, rows[id]))
  }

  /**
   * A CONTOURS line within EPSP of a height label takes the nearest label's height, a
   * multiple of 500 from 500 to 9500 that is now a fixed label; a CONTOURS line with no
   * label near it stays unlabelled; any other line keeps its type.
   */
  lemma MatchedHeights(e: Engine, rows: Rows, gs: seq<Group>, id: int)
    requires forall i :: 0 <= i < |gs| ==> IsKey(gs[i].key)
    requires id in rows
    ensures var k := Matched(e, rows, gs)[id].kind;
      Contains(rows[id].kind, "CONTOURS") && (exists i :: 0 <= i < |gs| && e.groupDist(gs[i].points, rows[id].geom) < EPSP) ==>
        Fixed(k) && !Contains(k, "CONTOURS") && ParseInt(k).Some? && ParseInt(k).value % 500 == 0 &&
        500 <= ParseInt(k).value <= 9500 && IntToString(ParseInt(k).value) == k
    ensures Contains(rows[id].kind, "CONTOURS") && (forall i :: 0 <= i < |gs| ==> e.groupDist(gs[i].points, rows[id].geom) >= EPSP) ==>
      Matched(e, rows, gs)[id] == rows[id]
    ensures !Contains(rows[id].kind, "CONTOURS") ==> Matched(e, rows, gs)[id] == rows[id]
  {
    var n := NearestGroup(e, gs, rows[id].geom);
    if n.Some? {
      KeyHeight(gs[n.value].key);
    }
  }

  // ---------------------------------------------------------------- label_rings

  /** `UPDATE ... SET type = k WHERE id = id AND type LIKE '%CONTOURS%'`. */
  function Relabel(rows: Rows, id: int, k: string): Rows
  {
    if id in rows && Contains(rows[id].kind, "CONTOURS") then WithKind(rows, id, k) else rows
  }

  /** The inner loop for the fixed ring at rank `r` with height `v`, over the first `n` ranks. */
  function FixPass(rows: Rows, chain: seq<int>, v: int, r: int, n: nat): Rows
    requires n <= |chain|
  {
    if n == 0 then rows
    else Relabel(FixPass(rows, chain, v, r, n - 1), chain[n - 1], IntToString(Height(v, r, n - 1)))
  }

  /** The outer loop over the first `n` ranks, given the height each rank's type carries (see `Labels`). */
  function LabelPass(rows: Rows, chain: seq<int>, labels: seq<Option<int>>, n: nat): Rows
    requires n <= |chain| == |labels|
  {
    if n == 0 then rows
    else
      var prev := LabelPass(rows, chain, labels, n - 1);
      if labels[n - 1].Some? then FixPass(prev, chain, labels[n - 1].value, n - 1, |chain|) else prev
  }

  /** The rank of the nearest fixed ring among the first `n`. */
  function FirstFixed(labels: seq<Option<int>>, n: nat): (f: Option<nat>)
    requires n <= |labels|
    ensures f.Some? ==> f.value < n && labels[f.value].Some? && forall j :: 0 <= j < f.value ==> labels[j].None?
    ensures f.None? ==> forall j :: 0 <= j < n ==> labels[j].None?
  {
    if n == 0 then None
    else if FirstFixed(labels, n - 1).Some? then FirstFixed(labels, n - 1)
    else if labels[n - 1].Some? then Some(n - 1)
    else None
  }

  /** One pass of the inner loop keeps every key and every row off its first `n` ranks. */
  lemma {:induction false} FixPassKeeps(rows: Rows, chain: seq<int>, v: int, r: int, n: nat)
    requires Distinct(chain) && n <= |chain|
    ensures FixPass(rows, chain, v, r, n).Keys == rows.Keys
    ensures forall id :: id in rows && (forall c :: 0 <= c < n ==> chain[c] != id) ==> FixPass(rows, chain, v, r, n)[id] == rows[id]
  {
    if n > 0 {
      FixPassKeeps(rows, chain, v, r, n - 1);
      var prev := FixPass(rows, chain, v, r, n - 1);
      assert FixPass(rows, chain, v, r, n) == Relabel(prev, chain[n - 1], IntToString(Height(v, r, n - 1)));
      forall id | id in rows && (forall c :: 0 <= c < n ==> chain[c] != id)
        ensures FixPass(rows, chain, v, r, n)[id] == rows[id]
      {
        assert chain[n - 1] != id;
        assert forall c :: 0 <= c < n - 1 ==> chain[c] != id;
        assert prev[id] == rows[id];
      }
    }
  }

  /** One pass of the inner loop gives each CONTOURS rank of the chain its own height. */
  lemma {:induction false} FixPassValues(rows: Rows, chain: seq<int>, v: int, r: int, n: nat)
    requires Distinct(chain) && n <= |chain|
    ensures FixPass(rows, chain, v, r, n).Keys == rows.Keys
    ensures forall c :: 0 <= c < n && chain[c] in rows ==>
      FixPass(rows, chain, v, r, n)[chain[c]] == (if Contains(rows[chain[c]].kind, "CONTOURS") then rows[chain[c]].(kind := IntToString(Height(v, r, c))) else rows[chain[c]])
  {
    if n > 0 {
      FixPassValues(rows, chain, v, r, n - 1);
      var prev := FixPass(rows, chain, v, r, n - 1);
      var cur := FixPass(rows, chain, v, r, n);
      var id := chain[n - 1];
      assert cur == Relabel(prev, id, IntToString(Height(v, r, n - 1)));
      forall c | 0 <= c < n && chain[c] in rows
        ensures cur[chain[c]] == (if Contains(rows[chain[c]].kind, "CONTOURS") then rows[chain[c]].(kind := IntToString(Height(v, r, c))) else rows[chain[c]])
      {
        if c < n - 1 {
          assert chain[c] != id;
          assert cur[chain[c]] == prev[chain[c]];
        } else {
          FixPassUntouched(rows, chain, v, r, n - 1);
        }
      }
    }
  }

  /** The next rank of the chain is untouched by the passes over the ranks before it. */
  lemma FixPassUntouched(rows: Rows, chain: seq<int>, v: int, r: int, n: nat)
    requires Distinct(chain) && n < |chain| && chain[n] in rows
    ensures chain[n] in FixPass(rows, chain, v, r, n)
    ensures FixPass(rows, chain, v, r, n)[chain[n]] == rows[chain[n]]
  {
    FixPassKeeps(rows, chain, v, r, n);
    assert forall k :: 0 <= k < n ==> chain[k] != chain[n];
  }

  /** One pass of the inner loop touches only CONTOURS rows of the chain, each with its own height. */
  lemma FixPassShape(rows: Rows, chain: seq<int>, v: int, r: int, n: nat)
    requires Distinct(chain) && n <= |chain|
    ensures FixPass(rows, chain, v, r, n).Keys == rows.Keys
    ensures forall id :: id in rows && (forall c :: 0 <= c < n ==> chain[c] != id) ==> FixPass(rows, chain, v, r, n)[id] == rows[id]
    ensures forall c :: 0 <= c < n && chain[c] in rows ==>
      FixPass(rows, chain, v, r, n)[chain[c]] == (if Contains(rows[chain[c]].kind, "CONTOURS") then rows[chain[c]].(kind := IntToString(Height(v, r, c))) else rows[chain[c]])
  {
    FixPassKeeps(rows, chain, v, r, n);
    FixPassValues(rows, chain, v, r, n);
  }

  /** A pass over a chain with no CONTOURS type left changes nothing. */
  lemma FixPassIdle(rows: Rows, chain: seq<int>, v: int, r: int)
    requires Distinct(chain)
    requires forall c :: 0 <= c < |chain| && chain[c] in rows ==> !Contains(rows[chain[c]].kind, "CONTOURS")
    ensures FixPass(rows, chain, v, r, |chain|) == rows
  {
    FixPassShape(rows, chain, v, r, |chain|);
    var after := FixPass(rows, chain, v, r, |chain|);
    forall id | id in rows
      ensures after[id] == rows[id]
    {
      if exists c :: 0 <= c < |chain| && chain[c] == id {
        var c :| 0 <= c < |chain| && chain[c] == id;
      }
    }
  }

  /** After a full pass every ring of the chain is labelled, so a second pass changes nothing. */
  lemma SecondPassIdle(rows: Rows, chain: seq<int>, v: int, r: int, prev: Rows, w: int, r2: int)
    requires Distinct(chain) && prev == FixPass(rows, chain, v, r, |chain|)
    ensures FixPass(prev, chain, w, r2, |chain|) == prev
  {
    FixPassShape(rows, chain, v, r, |chain|);
    forall c | 0 <= c < |chain| && chain[c] in prev
      ensures !Contains(prev[chain[c]].kind, "CONTOURS")
    {
      NumberHasNoTag(Height(v, r, c), "CONTOURS");
    }
    FixPassIdle(prev, chain, w, r2);
  }

  /** The closed form of the labelling: the nearest fixed ring's pass, or nothing when no ring is fixed. */
  function Winner(rows: Rows, chain: seq<int>, labels: seq<Option<int>>, n: nat): Rows
    requires n <= |chain| == |labels|
  {
    var f := FirstFixed(labels, n);
    if f.None? then rows else FixPass(rows, chain, labels[f.value].value, f.value, |chain|)
  }

  /** A second fixed ring finds nothing left to label: its pass changes nothing. */
  lemma StepRefixed(rows: Rows, chain: seq<int>, labels: seq<Option<int>>, n: nat)
    requires Distinct(chain) && 0 < n <= |chain| == |labels|
    requires FirstFixed(labels, n - 1).Some? && labels[n - 1].Some?
    requires LabelPass(rows, chain, labels, n - 1) == Winner(rows, chain, labels, n - 1)
    ensures LabelPass(rows, chain, labels, n) == Winner(rows, chain, labels, n)
  {
    var f := FirstFixed(labels, n - 1).value;
    var prev := WinnerKept(rows, chain, labels, n);
    SecondPassIdle(rows, chain, labels[f].value, f, prev, labels[n - 1].value, n - 1);
    LabelPassFixed(rows, chain, labels, n, prev);
  }

  /** A fixed ring at rank `n - 1` runs its pass over what the ranks before it left. */
  lemma LabelPassFixed(rows: Rows, chain: seq<int>, labels: seq<Option<int>>, n: nat, prev: Rows)
    requires 0 < n <= |chain| == |labels| && labels[n - 1].Some?
    requires LabelPass(rows, chain, labels, n - 1) == prev
    ensures LabelPass(rows, chain, labels, n) == FixPass(prev, chain, labels[n - 1].value, n - 1, |chain|)
  {
  }

  /** Past the nearest fixed ring, the closed form stays that ring's pass. */
  lemma WinnerKept(rows: Rows, chain: seq<int>, labels: seq<Option<int>>, n: nat) returns (prev: Rows)
    requires 0 < n <= |chain| == |labels| && FirstFixed(labels, n - 1).Some?
    ensures FirstFixed(labels, n) == FirstFixed(labels, n - 1)
    ensures prev == FixPass(rows, chain, labels[FirstFixed(labels, n - 1).value].value, FirstFixed(labels, n - 1).value, |chain|)
    ensures Winner(rows, chain, labels, n - 1) == prev == Winner(rows, chain, labels, n)
  {
    var f := FirstFixed(labels, n - 1).value;
    prev := FixPass(rows, chain, labels[f].value, f, |chain|);
  }

  /** Once a ring is fixed, later rings change nothing. */
  lemma StepAfterFixed(rows: Rows, chain: seq<int>, labels: seq<Option<int>>, n: nat)
    requires Distinct(chain) && 0 < n <= |chain| == |labels|
    requires FirstFixed(labels, n - 1).Some?
    requires LabelPass(rows, chain, labels, n - 1) == Winner(rows, chain, labels, n - 1)
    ensures LabelPass(rows, chain, labels, n) == Winner(rows, chain, labels, n)
  {
    if labels[n - 1].Some? {
      StepRefixed(rows, chain, labels, n);
    } else {
      assert LabelPass(rows, chain, labels, n) == LabelPass(rows, chain, labels, n - 1);
      assert FirstFixed(labels, n) == FirstFixed(labels, n - 1);
    }
  }

  /** Until a ring is fixed the rows are untouched; the first fixed ring makes its pass. */
  lemma StepUntilFixed(rows: Rows, chain: seq<int>, labels: seq<Option<int>>, n: nat)
    requires 0 < n <= |chain| == |labels|
    requires FirstFixed(labels, n - 1).None?
    requires LabelPass(rows, chain, labels, n - 1) == Winner(rows, chain, labels, n - 1)
    ensures LabelPass(rows, chain, labels, n) == Winner(rows, chain, labels, n)
  {
  }

  /** The outer loop over the first `n` ranks is the pass of the nearest fixed ring among them. */
  lemma {:induction false} FirstFixedWins(rows: Rows, chain: seq<int>, labels: seq<Option<int>>, n: nat)
    requires Distinct(chain) && n <= |chain| == |labels|
    ensures LabelPass(rows, chain, labels, n) == Winner(rows, chain, labels, n)
  {
    if n > 0 {
      FirstFixedWins(rows, chain, labels, n - 1);
      if FirstFixed(labels, n - 1).Some? {
        StepAfterFixed(rows, chain, labels, n);
      } else {
        StepUntilFixed(rows, chain, labels, n);
      }
    }
  }

  /**
   * What the labelling leaves, row by row: a ring of the chain that was unlabelled takes the
   * height counted from the nearest fixed ring, when there is one; every other row is unchanged.
   */
  lemma FirstFixedRows(rows: Rows, chain: seq<int>, kinds: seq<string>)
    requires ChainOf(rows, chain) && |chain| == |kinds|
    requires forall c :: 0 <= c < |chain| ==> kinds[c] == rows[chain[c]].kind
    requires AllParse(kinds)
    ensures var f := FirstFixed(Labels(kinds), |chain|);
      f.Some? ==> Fixed(kinds[f.value]) && forall j :: 0 <= j < f.value ==> !Fixed(kinds[j])
    ensures FirstFixed(Labels(kinds), |chain|).None? ==> forall j :: 0 <= j < |chain| ==> !Fixed(kinds[j])
    ensures LabelPass(rows, chain, Labels(kinds), |chain|).Keys == rows.Keys
    ensures forall id :: id in rows && id !in chain ==> LabelPass(rows, chain, Labels(kinds), |chain|)[id] == rows[id]
    ensures forall c :: 0 <= c < |chain| ==>
      LabelPass(rows, chain, Labels(kinds), |chain|)[chain[c]] == (var f := FirstFixed(Labels(kinds), |chain|);
       if f.Some? && Contains(kinds[c], "CONTOURS")
       then rows[chain[c]].(kind := IntToString(Height(ParseInt(kinds[f.value]).value, f.value, c)))
       else rows[chain[c]])
  {
    var labels := Labels(kinds);
    LabelsRead(kinds);
    FirstFixedWins(rows, chain, labels, |chain|);
    var f := FirstFixed(labels, |chain|);
    if f.Some? {
      FixPassShape(rows, chain, labels[f.value].value, f.value, |chain|);
    }
    forall id | id in rows && id !in chain
      ensures forall c :: 0 <= c < |chain| ==> chain[c] != id
    {
    }
  }

  /** The inner loop of `label_rings`: every rank of the chain against the fixed ring at rank `r`. */
  method FixRing(t: Table, chain: seq<int>, v: int, r: int)
    requires t.Valid()
    modifies t
    ensures t.Valid() && t.serial == old(t.serial) && t.rows.Keys == old(t.rows).Keys
    ensures t.rows == FixPass(old(t.rows), chain, v, r, |chain|)
  {
    for c := 0 to |chain|
      invariant t.Valid() && t.serial == old(t.serial) && t.rows.Keys == old(t.rows).Keys
      invariant t.rows == FixPass(old(t.rows), chain, v, r, c)
    {
      RelabelRow(t, chain[c], IntToString(Height(v, r, c)));
    }
  }

  /** One step of the inner loop: a CONTOURS row takes the printed height as its type. */
  method RelabelRow(t: Table, id: int, h: string)
    requires t.Valid()
    modifies t
    ensures t.Valid() && t.serial == old(t.serial) && t.rows.Keys == old(t.rows).Keys
    ensures t.rows == Relabel(old(t.rows), id, h)
  {
    if id in t.rows && Contains(t.rows[id].kind, "CONTOURS") {
      t.SetKind(id, h);
    }
  }

  /**
   * The loop of `label_rings` over the ranks of a chain: each fixed type is read with `int()`
   * and its ring's pass made; a type that does not read aborts with what was done before it.
   */
  method LabelChain(t: Table, chain: seq<int>, kinds: seq<string>) returns (r: Outcome)
    requires t.Valid() && |chain| == |kinds|
    modifies t
    ensures t.Valid() && t.serial == old(t.serial) && t.rows.Keys == old(t.rows).Keys
    ensures r.Done? <==> AllParse(kinds)
    ensures r.Abort? ==> r.fault == BadInteger
    ensures r.Done? ==> t.rows == LabelPass(old(t.rows), chain, Labels(kinds), |chain|)
  {
    ghost var rows0 := t.rows;
    r := Done;
    var i := 0;
    while i < |chain| && r.Done?
      invariant 0 <= i <= |chain|
      invariant t.Valid() && t.serial == old(t.serial) && t.rows.Keys == rows0.Keys
      invariant r.Done? ==> t.rows == LabelPass(rows0, chain, Labels(kinds), i)
      invariant r.Done? ==> forall k :: 0 <= k < i ==> Readable(kinds[k])
      invariant r.Abort? ==> r.fault == BadInteger && !AllParse(kinds)
      decreases |chain| - i, if r.Done? then 1 else 0
    {
      r := LabelStep(t, chain, kinds, i, rows0);
      if r.Done? {
        i := i + 1;
      }
    }
  }

  /** One rank of `label_rings`'s loop: a fixed type that reads runs its ring's pass, one that does not aborts. */
  method LabelStep(t: Table, chain: seq<int>, kinds: seq<string>, i: nat, ghost rows0: Rows) returns (r: Outcome)
    requires t.Valid() && i < |chain| == |kinds|
    requires t.rows == LabelPass(rows0, chain, Labels(kinds), i)
    modifies t
    ensures t.Valid() && t.serial == old(t.serial) && t.rows.Keys == old(t.rows).Keys
    ensures r.Done? <==> Readable(kinds[i])
    ensures r.Abort? ==> r.fault == BadInteger
    ensures r.Done? ==> t.rows == LabelPass(rows0, chain, Labels(kinds), i + 1)
  {
    ghost var labels := Labels(kinds);
    r := Done;
    if Fixed(kinds[i]) {
      var v := ParseInt(kinds[i]);
      if v.None? {
        r := Abort(BadInteger);
      } else {
        assert labels[i] == v;
        ghost var prev := t.rows;
        FixRing(t, chain, v.value, i);
        LabelPassFixed(rows0, chain, labels, i + 1, prev);
      }
    } else {
      assert labels[i].None?;
      assert LabelPass(rows0, chain, labels, i + 1) == LabelPass(rows0, chain, labels, i);
    }
  }

  /**
   * `label_rings` for the top ring `top`: the rings around it, nearest first; every ring
   * that was unlabelled takes the height counted from the nearest fixed ring. A fixed label
   * that does not read as an integer aborts the run.
   */
  method LabelRings(t: Table, e: Engine, top: Line) returns (r: Outcome, chain: seq<int>)
    requires t.Valid()
    modifies t
    ensures t.Valid() && t.serial == old(t.serial) && t.rows.Keys == old(t.rows).Keys
    ensures ChainOf(old(t.rows), chain) && Elems(chain) == Enclosing(e, old(t.rows), top)
    ensures r.Done? <==> AllParse(Kinds(old(t.rows), chain))
    ensures r.Abort? ==> r.fault == BadInteger
    ensures r.Done? ==> t.rows == LabelPass(old(t.rows), chain, Labels(Kinds(old(t.rows), chain)), |chain|)
  {
    chain := RingChain(t.rows, e, top);
    r := LabelChain(t, chain, Kinds(t.rows, chain));
  }

  // ---------------------------------------------------------------- main

  /** The lines the contour connector works on: open lines with a height label. */
  function OpenHeights(rows: Rows): set<int>
  {
    set id | id in rows && Fixed(rows[id].kind) && !IsClosed(rows[id].geom)
  }

  /**
   * The "Unlabeled rings" query: closed contour rings with a peak inside that enclose no
   * other contour.
   */
  predicate TopRing(e: Engine, rows: Rows, pts: seq<Marker>, id: int)
    requires id in rows
  {
    IsClosed(rows[id].geom) && ContourLike(rows[id].kind) &&
    (exists m :: m in pts && m.kind == "PEAK" && e.covers(rows[id].geom, m.at)) &&
    !(exists o :: o in rows && o != id && ContourLike(rows[o].kind) && e.coversLine(rows[id].geom, rows[o].geom))
  }

  function TopRings(e: Engine, rows: Rows, pts: seq<Marker>): set<int>
  {
    set id | id in rows && TopRing(e, rows, pts, id)
  }

  /** "Matching height label to lines": group the labels, then the matching UPDATE. */
  method MatchLabels(t: Table, e: Engine, pts: seq<Marker>) returns (r: Outcome)
    requires t.Valid()
    modifies t
    ensures t.Valid() && t.rows.Keys == old(t.rows).Keys
    ensures r.Abort? <==> SortElevationPts(pts).Fail?
    ensures r.Done? ==> t.rows == Matched(e, old(t.rows), SortElevationPts(pts).value)
  {
    var groups := SortElevationPts(pts);
    if groups.Fail? {
      return Abort(groups.fault);
    }
    t.Assign(Matched(e, t.rows, groups.value));
    return Done;
  }

  /** The "Unlabeled rings" loop: `label_rings` for each top ring, in id order. */
  method LabelTops(t: Table, e: Engine, pts: seq<Marker>) returns (r: Outcome, tops: seq<int>)
    requires t.Valid()
    modifies t
    ensures t.Valid() && t.rows.Keys == old(t.rows).Keys
    ensures Increasing(tops) && Elems(tops) == TopRings(e, old(t.rows), pts)
  {
    var lines := t.rows;
    tops := SortIds(TopRings(e, lines, pts));
    r := Done;
    for i := 0 to |tops|
      invariant t.Valid() && t.rows.Keys == lines.Keys
    {
      assert tops[i] in Elems(tops);
      var res, _ := LabelRings(t, e, lines[tops[i]].geom);
      if res.Abort? {
        return res, tops;
      }
    }
  }

  /**
   * "Connect unlabeled and like-labelled lines": the connector over the open labelled lines.
   * `deleted` are the rows absorbed and `visited` the lines whose inner loop ran.
   */
  method ConnectHeights(t: Table, e: Engine) returns (r: Outcome, deleted: seq<int>, visited: seq<int>)
    requires t.Valid() && MergeSettles(e)
    modifies t
    ensures t.Valid() && t.rows.Keys <= old(t.rows).Keys
    ensures forall x :: x in t.rows <==> x in old(t.rows) && x !in deleted
    ensures SameLabels(t.rows, old(t.rows))
    ensures forall x :: x in visited ==> x in OpenHeights(old(t.rows))
    ensures forall x :: x in t.rows && x !in visited ==> t.rows[x] == old(t.rows)[x]
    ensures r.Done? ==> forall x :: x in OpenHeights(old(t.rows)) ==> x in visited || x in deleted
  {
    var jobs := JobsFor(t.rows, OpenHeights(t.rows), true);
    ghost var seen, turns, tables, runs;
    r, deleted, visited, seen, turns, tables, runs := ConnectAll(t, e, EPSL, jobs);
    forall x | x in visited
      ensures x in OpenHeights(old(t.rows))
    {
      var v :| 0 <= v < |visited| && visited[v] == x;
      assert visited[v] == jobs[turns[v]].id;
    }
    assert forall x :: x in t.rows.Keys ==> x in old(t.rows).Keys;
  }

  /**
   * The contour pass in order: prune, heal, match labels, connect, label the rings around
   * each top ring. `pts` is the points table. No row is ever added.
   */
  method Run(t: Table, e: Engine, pts: seq<Marker>) returns (r: Outcome)
    requires t.Valid() && MergeSettles(e)
    modifies t
    ensures t.Valid()
    ensures t.rows.Keys <= old(t.rows).Keys
    ensures SortElevationPts(pts).Fail? ==> r.Abort?
    ensures HealFails(e, Pruned(e, old(t.rows), "CONTOURS", EPSL), "CONTOURS") ==> r == Abort(EmptyList)
  {
    t.RemovePathological(e, "CONTOURS", EPSL);
    var v, _ := ValidateAll(t, e, "CONTOURS");
    if v.Abort? {
      return v;
    }
    var m := MatchLabels(t, e, pts);
    if m.Abort? {
      return m;
    }
    var c, _, _ := ConnectHeights(t, e);
    if c.Abort? {
      return c;
    }
    var tops;
    r, tops := LabelTops(t, e, pts);
  }
}
