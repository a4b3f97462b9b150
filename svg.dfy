/**
 * `svg2geo.py`: turning SVG elements into GIS features. Attributes are a string map; the
 * `transform` and path `d` attributes are taken as the operations and commands their
 * regular expressions recognise. Every feature written receives the next value of the
 * global counter `SID.sid`.
 */
module Svg {
  import opened Common
  import opened Text
  import opened Geometry
  import opened SvgTransform

  type Attrs = map<string, string>

  /** The namespaced attribute `get_href` reads. */
  const HREF: string := "{http://www.w3.org/1999/xlink}href"

  /** `elem.attrib.get(key, default)`. */
  function Get(attrs: Attrs, key: string, default: string): string
  {
    if key in attrs then attrs[key] else default
  }

  /** `s.endswith(p)`. */
  predicate EndsWith(s: string, p: string)
  {
    |p| <= |s| && s[|s| - |p|..] == p
  }

  /** `get_data_name`: the `data-name` attribute, else the `id`, else `-`. */
  function GetDataName(attrs: Attrs): (r: string)
    ensures r == "-" || r in attrs.Values
    ensures "data-name" in attrs ==> r == attrs["data-name"]
    ensures "data-name" !in attrs ==> r == Get(attrs, "id", "-")
  {
    Get(attrs, "data-name", Get(attrs, "id", "-"))
  }

  /**
   * `get_href`: when the referenced symbol (the link without its leading `#`) is known,
   * its name replaces the type. The lookup reads the attribute with default `''` after
   * testing it with default `'-'`; both give the same key.
   */
  function GetHref(typ: string, attrs: Attrs, symbols: map<string, string>): (r: string)
    ensures r == typ || r in symbols.Values
    ensures Tail(Get(attrs, HREF, "-")) in symbols ==> r == symbols[Tail(Get(attrs, HREF, "-"))]
    ensures Tail(Get(attrs, HREF, "-")) !in symbols ==> r == typ
  {
    assert "-"[1..] == [];
    if Tail(Get(attrs, HREF, "-")) in symbols then symbols[Tail(Get(attrs, HREF, ""))] else typ
  }

  // ---------------------------------------------------------------- the writer

  /** A feature written to the lines, polygons or points file. */
  datatype Record =
    | LineRec(id: int, kind: string, len: int, name: string, svgid: string, style: string, geom: seq<Point>)
    | PolyRec(id: int, kind: string, name: string, svgid: string, ring: seq<Point>)
    | PointRec(id: int, kind: string, name: string, svgid: string, style: string, at: Point)

  /**
   * The counter `SID` and the three output files, as the sequence of records in the order
   * they were written; each file is the subsequence of its kind.
   */
  class Writer {
    var sid: int
    var log: seq<Record>

    /** The k-th record written carries id k + 1, the counter's value after its increment. */
    ghost predicate Valid()
      reads this
    {
      sid == |log| && forall k :: 0 <= k < |log| ==> log[k].id == k + 1
    }

    constructor()
      ensures Valid() && log == []
    {
      sid := 0;
      log := [];
    }

    /** `SID.inc_sid`. */
    method IncSid()
      modifies this
      ensures sid == old(sid) + 1 && log == old(log)
    {
      sid := sid + 1;
    }

    /** `SID.get_sid`. */
    function GetSid(): int
      reads this
    {
      sid
    }

    /** Ids are strictly increasing in write order, so no id is ever reused. */
    lemma IdsIncrease()
      requires Valid()
      ensures forall i, j :: 0 <= i < j < |log| ==> log[i].id < log[j].id
    {
    }

    /** `SID.inc_sid()` then a line record with id `SID.get_sid()`. */
    method WriteLine(kind: string, name: string, svgid: string, style: string, geom: seq<Point>)
      requires Valid()
      modifies this
      ensures Valid()
      ensures log == old(log) + [LineRec(old(sid) + 1, kind, |geom|, name, svgid, style, geom)]
      ensures forall k :: 0 <= k < |old(log)| ==> log[k].id < log[|log| - 1].id
    {
      IncSid();
      log := log + [LineRec(GetSid(), kind, |geom|, name, svgid, style, geom)];
    }

    /** `SID.inc_sid()` then a polygon record with id `SID.get_sid()`. */
    method WritePolygon(kind: string, name: string, svgid: string, ring: seq<Point>)
      requires Valid()
      modifies this
      ensures Valid()
      ensures log == old(log) + [PolyRec(old(sid) + 1, kind, name, svgid, ring)]
      ensures forall k :: 0 <= k < |old(log)| ==> log[k].id < log[|log| - 1].id
    {
      IncSid();
      log := log + [PolyRec(GetSid(), kind, name, svgid, ring)];
    }

    /** `SID.inc_sid()` then a point record with id `SID.get_sid()`. */
    method WritePoint(kind: string, name: string, svgid: string, style: string, at: Point)
      requires Valid()
      modifies this
      ensures Valid()
      ensures log == old(log) + [PointRec(old(sid) + 1, kind, name, svgid, style, at)]
      ensures forall k :: 0 <= k < |old(log)| ==> log[k].id < log[|log| - 1].id
    {
      IncSid();
      log := log + [PointRec(GetSid(), kind, name, svgid, style, at)];
    }
  }

  // ---------------------------------------------------------------- point lists

  /** `points.strip(' ').replace(',', ' ').split(' ')`. */
  function Tokens(points: string): seq<string>
  {
    var s := Strip(points);
    SplitOn(seq(|s|, k requires 0 <= k < |s| => if s[k] == ',' then ' ' else s[k]), ' ')
  }

  /** Prefix a parsed list with points already read; a failure stays a failure. */
  function Prepend(done: seq<Point>, r: Result<seq<Point>>): Result<seq<Point>>
  {
    if r.Ok? then Ok(done + r.value) else r
  }

  /**
   * The pair loop: while two tokens are left, read both with `float` (`num`) and consume
   * them; a single trailing token is ignored.
   */
  function Pairs(tokens: seq<string>, num: string -> Option<real>): Result<seq<Point>>
    decreases |tokens|
  {
    if |tokens| <= 1 then Ok([])
    else if num(tokens[0]).None? || num(tokens[1]).None? then Fail(BadNumber)
    else Prepend([Point(num(tokens[0]).value, num(tokens[1]).value)], Pairs(tokens[2..], num))
  }

  /**
   * The list reads exactly when every token of a complete pair is a number; the k-th point
   * is made of tokens 2k and 2k + 1, and an odd last token is dropped.
   */
  lemma {:induction false} PairsShape(tokens: seq<string>, num: string -> Option<real>)
    ensures Pairs(tokens, num).Ok? <==> forall k :: 0 <= k < |tokens| / 2 * 2 ==> num(tokens[k]).Some?
    ensures Pairs(tokens, num).Ok? ==> |Pairs(tokens, num).value| == |tokens| / 2
    ensures Pairs(tokens, num).Ok? ==> forall k :: 0 <= k < |tokens| / 2 ==>
      Pairs(tokens, num).value[k] == Point(num(tokens[2 * k]).value, num(tokens[2 * k + 1]).value)
    decreases |tokens|
  {
    if |tokens| > 1 {
      var rest := tokens[2..];
      PairsShape(rest, num);
      assert |rest| / 2 * 2 == |tokens| / 2 * 2 - 2;
      forall k | 0 <= k < |rest| / 2 * 2
        ensures rest[k] == tokens[k + 2]
      {
      }
      if num(tokens[0]).Some? && num(tokens[1]).Some? {
        if Pairs(rest, num).Ok? {
          forall k | 0 <= k < |tokens| / 2 * 2
            ensures num(tokens[k]).Some?
          {
            if k >= 2 {
              assert rest[k - 2] == tokens[k];
            }
          }
          forall k | 1 <= k < |tokens| / 2
            ensures Pairs(tokens, num).value[k] == Point(num(tokens[2 * k]).value, num(tokens[2 * k + 1]).value)
          {
            assert Pairs(tokens, num).value[k] == Pairs(rest, num).value[k - 1];
            assert rest[2 * (k - 1)] == tokens[2 * k] && rest[2 * (k - 1) + 1] == tokens[2 * k + 1];
          }
        } else {
          var k :| 0 <= k < |rest| / 2 * 2 && num(rest[k]).None?;
          assert num(tokens[k + 2]).None?;
        }
      } else if num(tokens[0]).None? {
        assert num(tokens[0]).None?;
      } else {
        assert num(tokens[1]).None?;
      }
    }
  }

  lemma PrependNothing(r: Result<seq<Point>>)
    ensures Prepend([], r) == r
  {
    if r.Ok? {
      assert [] + r.value == r.value;
    }
  }

  lemma PrependTwice(a: seq<Point>, b: seq<Point>, r: Result<seq<Point>>)
    ensures Prepend(a, Prepend(b, r)) == Prepend(a + b, r)
  {
    if r.Ok? {
      assert a + (b + r.value) == (a + b) + r.value;
    }
  }

  /** The pair loop of `parse_polygon` and `parse_line`. */
  method PairUp(tokens: seq<string>, num: string -> Option<real>) returns (r: Result<seq<Point>>)
    ensures r == Pairs(tokens, num)
  {
    var rest := tokens;
    var line: seq<Point> := [];
    PrependNothing(Pairs(tokens, num));
    while |rest| > 1
      invariant Pairs(tokens, num) == Prepend(line, Pairs(rest, num))
      decreases |rest|
    {
      var x := num(rest[0]);
      if x.None? {
        return Fail(BadNumber);
      }
      var y := num(rest[1]);
      if y.None? {
        return Fail(BadNumber);
      }
      PrependTwice(line, [Point(x.value, y.value)], Pairs(rest[2..], num));
      line := line + [Point(x.value, y.value)];
      rest := rest[2..];
    }
    assert line + [] == line;
    return Ok(line);
  }

  /** The user-space points of a list under the element's matrix. */
  function Placed(mat: Matrix, pts: seq<Point>): (r: seq<Point>)
    ensures |r| == |pts| && forall k :: 0 <= k < |pts| ==> r[k] == Apply(mat, pts[k])
  {
    seq(|pts|, k requires 0 <= k < |pts| => Apply(mat, pts[k]))
  }

  /**
   * The coordinates of the ring `Polygon(line)` builds from a list of at least one point:
   * the list, with its first point repeated at the end when the list does not already end
   * there. The polygon constructor refuses a ring of fewer than 4 coordinates.
   */
  function RingSize(line: seq<Point>): (n: nat)
    requires |line| > 0
    ensures n == |line| || n == |line| + 1
    ensures n == |line| <==> line[0] == line[|line| - 1]
  {
    if line[0] == line[|line| - 1] then |line| else |line| + 1
  }

  /** A list of points `Polygon(line)` accepts: at least 4 ring coordinates once closed. */
  predicate RingOk(line: seq<Point>)
  {
    |line| > 0 && RingSize(line) >= 4
  }

  /** Two points never make a ring; three make one exactly when they do not return to the start. */
  lemma RingSmall(line: seq<Point>)
    ensures |line| <= 2 ==> !RingOk(line)
    ensures |line| == 3 ==> (RingOk(line) <==> line[0] != line[2])
    ensures |line| >= 4 ==> RingOk(line)
  {
  }

  /**
   * `parse_polygon`: a missing `points` attribute or a token that is not a number aborts;
   * a list of at least two points is handed to `Polygon`, which aborts the run when its
   * ring has fewer than 4 coordinates and otherwise is written; a shorter list writes nothing.
   */
  method ParsePolygon(w: Writer, typ: string, attrs: Attrs, ops: seq<Op>, num: string -> Option<real>, symbols: map<string, string>)
    returns (r: Outcome)
    requires w.Valid()
    modifies w
    ensures w.Valid()
    ensures r.Abort? <==> ("points" !in attrs || Pairs(Tokens(attrs["points"]), num).Fail? ||
      (|Pairs(Tokens(attrs["points"]), num).value| > 1 &&
       !RingOk(Placed(Attr2Transform(ops), Pairs(Tokens(attrs["points"]), num).value))))
    ensures r.Abort? ==> w.log == old(w.log)
    ensures r.Abort? && "points" in attrs && Pairs(Tokens(attrs["points"]), num).Ok? ==> r.fault == ShortRing
    ensures r.Done? ==> |Pairs(Tokens(attrs["points"]), num).value| <= 1 ==> w.log == old(w.log)
    ensures r.Done? ==> |Pairs(Tokens(attrs["points"]), num).value| > 1 ==>
      w.log == old(w.log) + [PolyRec(old(w.sid) + 1, GetHref(typ + "/" + GetDataName(attrs), attrs, symbols),
        GetDataName(attrs), Get(attrs, "id", "-"), Placed(Attr2Transform(ops), Pairs(Tokens(attrs["points"]), num).value))]
  {
    var name := GetDataName(attrs);
    var kind := typ + "/" + name;
    var mat := Attr2Transform(ops);
    if "points" !in attrs {
      return Abort(MissingKey);
    }
    var pts := PairUp(Tokens(attrs["points"]), num);
    if pts.Fail? {
      return Abort(pts.fault);
    }
    var line := Placed(mat, pts.value);
    kind := GetHref(kind, attrs, symbols);
    if |line| > 1 {
      if !RingOk(line) {
        return Abort(ShortRing);
      }
      w.WritePolygon(kind, name, Get(attrs, "id", "-"), line);
    }
    return Done;
  }

  /** `float(elem.attrib[key])`. */
  function Coord(attrs: Attrs, key: string, num: string -> Option<real>): Result<real>
  {
    if key !in attrs then Fail(MissingKey)
    else if num(attrs[key]).None? then Fail(BadNumber)
    else Ok(num(attrs[key]).value)
  }

  /**
   * The points `parse_line` reads: a `polyline`'s pairs, a `line`'s two ends (read in the
   * order x1, y1, x2, y2), and nothing for another tag.
   */
  function LinePoints(tag: string, attrs: Attrs, num: string -> Option<real>): Result<seq<Point>>
  {
    if EndsWith(tag, "polyline") then
      if "points" !in attrs then Fail(MissingKey) else Pairs(Tokens(attrs["points"]), num)
    else if EndsWith(tag, "line") then
      if Coord(attrs, "x1", num).Fail? then Fail(Coord(attrs, "x1", num).fault)
      else if Coord(attrs, "y1", num).Fail? then Fail(Coord(attrs, "y1", num).fault)
      else if Coord(attrs, "x2", num).Fail? then Fail(Coord(attrs, "x2", num).fault)
      else if Coord(attrs, "y2", num).Fail? then Fail(Coord(attrs, "y2", num).fault)
      else Ok([Point(Coord(attrs, "x1", num).value, Coord(attrs, "y1", num).value),
               Point(Coord(attrs, "x2", num).value, Coord(attrs, "y2", num).value)])
    else Ok([])
  }

  /** The coordinate reading of `parse_line`, each point placed under the element's matrix. */
  method ReadPoints(tag: string, attrs: Attrs, mat: Matrix, num: string -> Option<real>) returns (r: Result<seq<Point>>)
    ensures LinePoints(tag, attrs, num).Fail? ==> r == Fail(LinePoints(tag, attrs, num).fault)
    ensures LinePoints(tag, attrs, num).Ok? ==> r == Ok(Placed(mat, LinePoints(tag, attrs, num).value))
  {
    if EndsWith(tag, "polyline") {
      if "points" !in attrs {
        return Fail(MissingKey);
      }
      var pts := PairUp(Tokens(attrs["points"]), num);
      if pts.Fail? {
        return pts;
      }
      return Ok(Placed(mat, pts.value));
    } else if EndsWith(tag, "line") {
      var x1 := Coord(attrs, "x1", num);
      if x1.Fail? {
        return Fail(x1.fault);
      }
      var y1 := Coord(attrs, "y1", num);
      if y1.Fail? {
        return Fail(y1.fault);
      }
      var x2 := Coord(attrs, "x2", num);
      if x2.Fail? {
        return Fail(x2.fault);
      }
      var y2 := Coord(attrs, "y2", num);
      if y2.Fail? {
        return Fail(y2.fault);
      }
      var line := [Apply(mat, Point(x1.value, y1.value)), Apply(mat, Point(x2.value, y2.value))];
      assert line == Placed(mat, LinePoints(tag, attrs, num).value);
      return Ok(line);
    }
    return Ok([]);
  }

  /** The type `parse_line` writes: a `<line>` appends its name a second time. */
  function LineKind(typ: string, tag: string, attrs: Attrs, symbols: map<string, string>): string
  {
    var name := GetDataName(attrs);
    var kind := typ + "/" + name;
    GetHref(if !EndsWith(tag, "polyline") && EndsWith(tag, "line") then kind + "/" + name else kind, attrs, symbols)
  }

  /**
   * `parse_line`: a line is written only when it has at least two points (a `<line>` always
   * has two), with the style of its class; an unknown class aborts, as do a missing or
   * non-numeric coordinate.
   */
  method ParseLine(w: Writer, typ: string, tag: string, attrs: Attrs, ops: seq<Op>, num: string -> Option<real>,
                   styles: map<string, string>, symbols: map<string, string>)
    returns (r: Outcome)
    requires w.Valid()
    modifies w
    ensures w.Valid()
    ensures r.Abort? <==>
      LinePoints(tag, attrs, num).Fail? || (|LinePoints(tag, attrs, num).value| > 1 && Get(attrs, "class", "-") !in styles)
    ensures r.Abort? ==> w.log == old(w.log)
    ensures r.Done? && |LinePoints(tag, attrs, num).value| <= 1 ==> w.log == old(w.log)
    ensures r.Done? && |LinePoints(tag, attrs, num).value| > 1 ==>
      w.log == old(w.log) + [LineRec(old(w.sid) + 1, LineKind(typ, tag, attrs, symbols),
        |LinePoints(tag, attrs, num).value|, GetDataName(attrs), GetDataName(attrs),
        styles[Get(attrs, "class", "-")], Placed(Attr2Transform(ops), LinePoints(tag, attrs, num).value))]
  {
    if !EndsWith(tag, "polyline") && !EndsWith(tag, "line") {
      return Done;
    }
    var pts := ReadPoints(tag, attrs, Attr2Transform(ops), num);
    if pts.Fail? {
      return Abort(pts.fault);
    }
    var line := pts.value;
    var name := GetDataName(attrs);
    var kind := LineKind(typ, tag, attrs, symbols);
    if |line| > 1 {
      var cls := Get(attrs, "class", "-");
      if cls !in styles {
        return Abort(MissingKey);
      }
      w.WriteLine(kind, name, name, styles[cls], line);
    }
    return Done;
  }

  // ---------------------------------------------------------------- path data

  /**
   * One command of a path's `d` attribute. Relative `l`, `h` and `v` carry every offset
   * their inner loop reads. The curve commands (`c`, `s`, `C`, `q`, `t`) carry their
   * flattened points, their end point and their new reflection point. `Broken` is text
   * that starts with no known command.
   */
  datatype Cmd =
    | MoveTo(p: Point)
    | LineTo(p: Point)
    | LineBy(ds: seq<Point>)
    | VertTo(y: real)
    | VertBy(dys: seq<real>)
    | HorizTo(x: real)
    | HorizBy(dxs: seq<real>)
    | Close
    | Curve(flat: seq<Point>, to: Point, ctl: Point)
    | Broken

  /**
   * The variables of `parse_path`: current point `(x_c, y_c)`, subpath start `(x0_c, y0_c)`,
   * reflection point `(xb_c, yb_c)`, the line being built, and the lines handed to
   * `out_line` so far.
   */
  datatype PathState = PathState(cur: Point, start: Point, ctl: Point, line: seq<Point>, closed: seq<seq<Point>>)

  const Origin: Point := Point(0.0, 0.0)

  function Init(): PathState
  {
    PathState(Origin, Origin, Origin, [], [])
  }

  /** A relative inner loop: each offset moves the current point and appends it. */
  function Walk(mat: Matrix, cur: Point, line: seq<Point>, ds: seq<Point>): (Point, seq<Point>)
    decreases |ds|
  {
    if ds == [] then (cur, line)
    else
      var c := Point(cur.x + ds[0].x, cur.y + ds[0].y);
      Walk(mat, c, line + [Apply(mat, c)], ds[1..])
  }

  function SumX(ds: seq<Point>): real
  {
    if ds == [] then 0.0 else ds[0].x + SumX(ds[1..])
  }

  function SumY(ds: seq<Point>): real
  {
    if ds == [] then 0.0 else ds[0].y + SumY(ds[1..])
  }

  /**
   * A relative command moves the current point by the sum of its offsets and appends one
   * point per offset, the last being the new current point.
   */
  lemma {:induction false} WalkShape(mat: Matrix, cur: Point, line: seq<Point>, ds: seq<Point>)
    ensures Walk(mat, cur, line, ds).0 == Point(cur.x + SumX(ds), cur.y + SumY(ds))
    ensures |Walk(mat, cur, line, ds).1| == |line| + |ds|
    ensures Walk(mat, cur, line, ds).1[..|line|] == line
    ensures ds != [] ==> Walk(mat, cur, line, ds).1[|line| + |ds| - 1] == Apply(mat, Walk(mat, cur, line, ds).0)
    decreases |ds|
  {
    if ds != [] {
      var c := Point(cur.x + ds[0].x, cur.y + ds[0].y);
      WalkShape(mat, c, line + [Apply(mat, c)], ds[1..]);
      assert (line + [Apply(mat, c)])[..|line|] == line;
      var w := Walk(mat, c, line + [Apply(mat, c)], ds[1..]).1;
      assert w[..|line|] == w[..|line| + 1][..|line|];
      if ds[1..] == [] {
        assert w == line + [Apply(mat, c)];
      }
    }
  }

  function XOffsets(dxs: seq<real>): (r: seq<Point>)
    ensures |r| == |dxs| && forall k :: 0 <= k < |dxs| ==> r[k] == Point(dxs[k], 0.0)
  {
    seq(|dxs|, k requires 0 <= k < |dxs| => Point(dxs[k], 0.0))
  }

  function YOffsets(dys: seq<real>): (r: seq<Point>)
    ensures |r| == |dys| && forall k :: 0 <= k < |dys| ==> r[k] == Point(0.0, dys[k])
  {
    seq(|dys|, k requires 0 <= k < |dys| => Point(0.0, dys[k]))
  }

  /** One branch of the command dispatch. */
  function PathStep(mat: Matrix, s: PathState, c: Cmd): PathState
  {
    match c
    case MoveTo(p) => s.(cur := p, start := p, ctl := p, line := s.line + [Apply(mat, p)])
    case LineTo(p) => s.(cur := p, ctl := p, line := s.line + [Apply(mat, p)])
    case LineBy(ds) =>
      var (p, l) := Walk(mat, s.cur, s.line, ds);
      s.(cur := p, ctl := p, line := l)
    case VertTo(y) => s.(cur := Point(s.cur.x, y), ctl := Point(s.ctl.x, y), line := s.line + [Apply(mat, Point(s.cur.x, y))])
    case VertBy(dys) =>
      var (p, l) := Walk(mat, s.cur, s.line, YOffsets(dys));
      s.(cur := p, ctl := Point(s.ctl.x, p.y), line := l)
    case HorizTo(x) => s.(cur := Point(x, s.cur.y), ctl := Point(x, s.ctl.y), line := s.line + [Apply(mat, Point(x, s.cur.y))])
    case HorizBy(dxs) =>
      var (p, l) := Walk(mat, s.cur, s.line, XOffsets(dxs));
      s.(cur := p, ctl := Point(p.x, s.ctl.y), line := l)
    case Close => s.(line := [], closed := s.closed + [s.line + [Apply(mat, s.start)]])
    case Curve(flat, to, ctl) => s.(cur := to, ctl := ctl, line := s.line + Placed(mat, flat) + [Apply(mat, to)])
    case Broken => s
  }

  /** The dispatch loop: commands in order until the path is used up or broken. */
  function PathFold(mat: Matrix, s: PathState, cmds: seq<Cmd>): PathState
    decreases |cmds|
  {
    if cmds == [] || cmds[0].Broken? then s else PathFold(mat, PathStep(mat, s, cmds[0]), cmds[1..])
  }

  /** Every line handed to `out_line`: one per `Z`, then the line left at the end. */
  function PathLines(mat: Matrix, cmds: seq<Cmd>): seq<seq<Point>>
  {
    var s := PathFold(mat, Init(), cmds);
    s.closed + [s.line]
  }

  /**
   * `M` sets the current point and the subpath start; `Z` appends the start, hands the line
   * over and begins an empty one, leaving the current point where it was; `L`, `H` and `V`
   * append the new current point.
   */
  lemma PathCommands(mat: Matrix, s: PathState, p: Point, x: real, y: real)
    ensures PathStep(mat, s, MoveTo(p)).cur == p && PathStep(mat, s, MoveTo(p)).start == p
    ensures PathStep(mat, s, MoveTo(p)).line == s.line + [Apply(mat, p)]
    ensures PathStep(mat, s, Close).closed == s.closed + [s.line + [Apply(mat, s.start)]]
    ensures PathStep(mat, s, Close).line == [] && PathStep(mat, s, Close).cur == s.cur
    ensures PathStep(mat, s, LineTo(p)).start == s.start && PathStep(mat, s, LineTo(p)).line == s.line + [Apply(mat, p)]
    ensures PathStep(mat, s, HorizTo(x)).cur == Point(x, s.cur.y)
    ensures PathStep(mat, s, VertTo(y)).cur == Point(s.cur.x, y)
  {
  }

  /** `l`, `h` and `v` add their offsets to the current point, one new vertex per offset. */
  lemma RelativeCommands(mat: Matrix, s: PathState, ds: seq<Point>, dxs: seq<real>)
    ensures PathStep(mat, s, LineBy(ds)).cur == Point(s.cur.x + SumX(ds), s.cur.y + SumY(ds))
    ensures |PathStep(mat, s, LineBy(ds)).line| == |s.line| + |ds|
    ensures PathStep(mat, s, LineBy(ds)).line[..|s.line|] == s.line
    ensures PathStep(mat, s, LineBy(ds)).start == s.start
    ensures PathStep(mat, s, HorizBy(dxs)).cur == Point(s.cur.x + SumX(XOffsets(dxs)), s.cur.y + SumY(XOffsets(dxs)))
    ensures |PathStep(mat, s, HorizBy(dxs)).line| == |s.line| + |dxs|
  {
    WalkShape(mat, s.cur, s.line, ds);
    WalkShape(mat, s.cur, s.line, XOffsets(dxs));
  }

  /** The offsets of `h` move only along x. */
  lemma {:induction false} XOffsetsStayLevel(dxs: seq<real>)
    ensures SumY(XOffsets(dxs)) == 0.0
    decreases |dxs|
  {
    if dxs != [] {
      assert XOffsets(dxs)[1..] == XOffsets(dxs[1..]);
      XOffsetsStayLevel(dxs[1..]);
    }
  }

  /** The dispatch loop only ever adds lines after those already handed over. */
  lemma {:induction false} FoldKeepsClosed(mat: Matrix, s: PathState, cmds: seq<Cmd>)
    ensures s.closed <= PathFold(mat, s, cmds).closed
    decreases |cmds|
  {
    if cmds != [] && !cmds[0].Broken? {
      FoldKeepsClosed(mat, PathStep(mat, s, cmds[0]), cmds[1..]);
    }
  }

  /** `out_line`'s filter: the lines with at least two points, in order. */
  function Long(ls: seq<seq<Point>>): (r: seq<seq<Point>>)
    ensures |r| <= |ls|
  {
    if ls == [] then []
    else
      var last := ls[|ls| - 1];
      Long(ls[..|ls| - 1]) + (if |last| > 1 then [last] else [])
  }

  /** The filter keeps exactly the lines of at least two points. */
  lemma {:induction false} LongMembers(ls: seq<seq<Point>>, g: seq<Point>)
    ensures g in Long(ls) <==> g in ls && |g| > 1
  {
    if ls != [] {
      var init := ls[..|ls| - 1];
      LongMembers(init, g);
      assert ls == init + [ls[|ls| - 1]];
    }
  }

  /** The records `out_line` writes for `gs`, ids counting up from `first`. */
  function LineRecs(first: int, kind: string, name: string, svgid: string, style: string, gs: seq<seq<Point>>): (r: seq<Record>)
    ensures |r| == |gs|
  {
    if gs == [] then []
    else
      var last := gs[|gs| - 1];
      LineRecs(first, kind, name, svgid, style, gs[..|gs| - 1]) + [LineRec(first + |gs| - 1, kind, |last|, name, svgid, style, last)]
  }

  /** The k-th record carries the k-th line, its length, and id `first + k`. */
  lemma {:induction false} LineRecsAt(first: int, kind: string, name: string, svgid: string, style: string, gs: seq<seq<Point>>)
    ensures forall k :: 0 <= k < |gs| ==>
      LineRecs(first, kind, name, svgid, style, gs)[k] == LineRec(first + k, kind, |gs[k]|, name, svgid, style, gs[k])
  {
    if gs != [] {
      var init := gs[..|gs| - 1];
      LineRecsAt(first, kind, name, svgid, style, init);
      forall k | 0 <= k < |gs| - 1
        ensures LineRecs(first, kind, name, svgid, style, gs)[k] == LineRec(first + k, kind, |gs[k]|, name, svgid, style, gs[k])
      {
        assert init[k] == gs[k];
      }
    }
  }

  /** `STYLES[cls]`, or nothing to say when the class is unknown. */
  function StyleOf(attrs: Attrs, styles: map<string, string>): string
  {
    var cls := Get(attrs, "class", "-");
    if cls in styles then styles[cls] else ""
  }

  /**
   * `out_line`: a line of at least two points is written with the style of the element's
   * class, whose absence aborts; a shorter line is dropped.
   */
  method OutLine(w: Writer, line: seq<Point>, kind: string, name: string, svgid: string, cls: string, styles: map<string, string>)
    returns (r: Outcome)
    requires w.Valid()
    modifies w
    ensures w.Valid()
    ensures r.Abort? <==> |line| > 1 && cls !in styles
    ensures r.Abort? ==> r.fault == MissingKey && w.log == old(w.log)
    ensures r.Done? && |line| <= 1 ==> w.log == old(w.log)
    ensures r.Done? && |line| > 1 ==> w.log == old(w.log) + [LineRec(old(w.sid) + 1, kind, |line|, name, svgid, styles[cls], line)]
  {
    if |line| > 1 {
      if cls !in styles {
        return Abort(MissingKey);
      }
      w.WriteLine(kind, name, svgid, styles[cls], line);
    }
    return Done;
  }

  /** The inner loop of `l`. */
  method WalkBy(mat: Matrix, cur0: Point, line0: seq<Point>, ds: seq<Point>) returns (cur: Point, line: seq<Point>)
    ensures (cur, line) == Walk(mat, cur0, line0, ds)
  {
    cur, line := cur0, line0;
    var k := 0;
    while k < |ds|
      invariant 0 <= k <= |ds|
      invariant Walk(mat, cur0, line0, ds) == Walk(mat, cur, line, ds[k..])
    {
      assert ds[k..][1..] == ds[k + 1..];
      cur := Point(cur.x + ds[k].x, cur.y + ds[k].y);
      line := line + [Apply(mat, cur)];
      k := k + 1;
    }
  }

  /** The inner loop of `h`: only x moves. */
  method WalkH(mat: Matrix, cur0: Point, line0: seq<Point>, dxs: seq<real>) returns (cur: Point, line: seq<Point>)
    ensures (cur, line) == Walk(mat, cur0, line0, XOffsets(dxs))
  {
    cur, line := cur0, line0;
    var k := 0;
    while k < |dxs|
      invariant 0 <= k <= |dxs|
      invariant Walk(mat, cur0, line0, XOffsets(dxs)) == Walk(mat, cur, line, XOffsets(dxs)[k..])
    {
      assert XOffsets(dxs)[k..][1..] == XOffsets(dxs)[k + 1..];
      cur := Point(cur.x + dxs[k], cur.y);
      line := line + [Apply(mat, cur)];
      k := k + 1;
    }
  }

  /** The inner loop of `v`: only y moves. */
  method WalkV(mat: Matrix, cur0: Point, line0: seq<Point>, dys: seq<real>) returns (cur: Point, line: seq<Point>)
    ensures (cur, line) == Walk(mat, cur0, line0, YOffsets(dys))
  {
    cur, line := cur0, line0;
    var k := 0;
    while k < |dys|
      invariant 0 <= k <= |dys|
      invariant Walk(mat, cur0, line0, YOffsets(dys)) == Walk(mat, cur, line, YOffsets(dys)[k..])
    {
      assert YOffsets(dys)[k..][1..] == YOffsets(dys)[k + 1..];
      cur := Point(cur.x, cur.y + dys[k]);
      line := line + [Apply(mat, cur)];
      k := k + 1;
    }
  }

  /** One non-closing command on the path variables. */
  method Exec(mat: Matrix, s: PathState, c: Cmd) returns (t: PathState)
    requires !c.Close? && !c.Broken?
    ensures t == PathStep(mat, s, c)
  {
    var cur, start, ctl, line := s.cur, s.start, s.ctl, s.line;
    match c {
      case MoveTo(p) =>
        cur, start, ctl := p, p, p;
        line := line + [Apply(mat, p)];
      case LineTo(p) =>
        cur, ctl := p, p;
        line := line + [Apply(mat, p)];
      case LineBy(ds) =>
        cur, line := WalkBy(mat, cur, line, ds);
        ctl := cur;
      case VertTo(y) =>
        cur := Point(cur.x, y);
        ctl := Point(ctl.x, y);
        line := line + [Apply(mat, cur)];
      case VertBy(dys) =>
        cur, line := WalkV(mat, cur, line, dys);
        ctl := Point(ctl.x, cur.y);
      case HorizTo(x) =>
        cur := Point(x, cur.y);
        ctl := Point(x, ctl.y);
        line := line + [Apply(mat, cur)];
      case HorizBy(dxs) =>
        cur, line := WalkH(mat, cur, line, dxs);
        ctl := Point(cur.x, ctl.y);
      case Curve(flat, to, b) =>
        line := line + Placed(mat, flat) + [Apply(mat, to)];
        cur, ctl := to, b;
    }
    t := PathState(cur, start, ctl, line, s.closed);
  }

  /** The type of a path's lines. */
  function PathKind(typ: string, attrs: Attrs, symbols: map<string, string>): string
  {
    GetHref(typ + "/" + GetDataName(attrs), attrs, symbols)
  }

  /** The writer's log once the lines `closed` are handed over: their long ones, numbered on from `log0`. */
  ghost predicate Logged(log: seq<Record>, log0: seq<Record>, kind: string, name: string, svgid: string, style: string,
                         closed: seq<seq<Point>>)
  {
    log == log0 + LineRecs(|log0| + 1, kind, name, svgid, style, Long(closed))
  }

  /**
   * `out_line` for one more line after `closed`: the log then holds the records of the long
   * lines among all of them, or the run aborts when the new line is the first long one and
   * the class has no style.
   */
  method HandOver(w: Writer, closed: seq<seq<Point>>, line: seq<Point>, kind: string, name: string, svgid: string,
                  cls: string, styles: map<string, string>, style: string, ghost log0: seq<Record>)
    returns (r: Outcome)
    requires w.Valid() && Logged(w.log, log0, kind, name, svgid, style, closed)
    requires cls in styles ==> style == styles[cls]
    requires Long(closed) != [] ==> cls in styles
    modifies w
    ensures w.Valid()
    ensures r.Abort? <==> Long(closed + [line]) != [] && cls !in styles
    ensures r.Abort? ==> r.fault == MissingKey && w.log == log0
    ensures r.Done? ==> Logged(w.log, log0, kind, name, svgid, style, closed + [line])
  {
    ghost var before := w.log;
    LineRecsAppend(|log0| + 1, kind, name, svgid, style, closed, line);
    r := OutLine(w, line, kind, name, svgid, cls, styles);
    if r.Done? && |line| > 1 {
      assert w.log == before + [LineRec(|log0| + |Long(closed)| + 1, kind, |line|, name, svgid, style, line)];
    }
  }

  /** A long line handed over before an abort is among the path's lines. */
  lemma AbortedLine(mat: Matrix, t: PathState, cmds: seq<Cmd>, all: seq<Cmd>, i: nat)
    requires i <= |all| && cmds == all[i..]
    requires PathFold(mat, Init(), all) == PathFold(mat, t, cmds)
    requires Long(t.closed) != []
    ensures Long(PathLines(mat, all)) != []
  {
    var g := Long(t.closed)[0];
    LongMembers(t.closed, g);
    var k :| 0 <= k < |t.closed| && t.closed[k] == g;
    FoldKeepsClosed(mat, t, cmds);
    var f := PathFold(mat, t, cmds);
    assert f.closed[k] == g;
    assert g in PathLines(mat, all);
    LongMembers(PathLines(mat, all), g);
  }

  /**
   * The command dispatch of `parse_path`: the commands in order, every `Z` and the end of
   * the path handing the line to `out_line`.
   */
  method Dispatch(w: Writer, mat: Matrix, cmds: seq<Cmd>, kind: string, name: string, svgid: string, cls: string,
                  styles: map<string, string>, style: string)
    returns (r: Outcome)
    requires w.Valid()
    requires cls in styles ==> style == styles[cls]
    modifies w
    ensures w.Valid()
    ensures r.Abort? <==> Long(PathLines(mat, cmds)) != [] && cls !in styles
    ensures r.Abort? ==> r.fault == MissingKey && w.log == old(w.log)
    ensures r.Done? ==> Logged(w.log, old(w.log), kind, name, svgid, style, PathLines(mat, cmds))
  {
    ghost var log0 := w.log;
    var s := Init();
    var i := 0;
    while i < |cmds| && !cmds[i].Broken?
      invariant 0 <= i <= |cmds|
      invariant PathFold(mat, Init(), cmds) == PathFold(mat, s, cmds[i..])
      invariant w.Valid() && Logged(w.log, log0, kind, name, svgid, style, s.closed)
      invariant Long(s.closed) != [] ==> cls in styles
    {
      assert cmds[i..][1..] == cmds[i + 1..];
      if cmds[i].Close? {
        var o := HandOver(w, s.closed, s.line + [Apply(mat, s.start)], kind, name, svgid, cls, styles, style, log0);
        s := PathStep(mat, s, Close);
        if o.Abort? {
          AbortedLine(mat, s, cmds[i + 1..], cmds, i + 1);
          return o;
        }
      } else {
        s := Exec(mat, s, cmds[i]);
      }
      i := i + 1;
    }
    assert PathLines(mat, cmds) == s.closed + [s.line];
    r := HandOver(w, s.closed, s.line, kind, name, svgid, cls, styles, style, log0);
  }

  /**
   * `parse_path`: exactly the lines with at least two points are written, in order, with
   * consecutive ids. A missing `d` attribute aborts, and so does the first line written
   * when the element's class has no style.
   */
  method ParsePath(w: Writer, typ: string, attrs: Attrs, ops: seq<Op>, cmds: seq<Cmd>,
                   styles: map<string, string>, symbols: map<string, string>)
    returns (r: Outcome)
    requires w.Valid()
    modifies w
    ensures w.Valid()
    ensures r.Abort? <==>
      "d" !in attrs || (Long(PathLines(Attr2Transform(ops), cmds)) != [] && Get(attrs, "class", "-") !in styles)
    ensures r.Abort? ==> r.fault == MissingKey && w.log == old(w.log)
    ensures r.Done? ==> w.log == old(w.log) + LineRecs(old(w.sid) + 1, PathKind(typ, attrs, symbols),
      GetDataName(attrs), Get(attrs, "id", "-"), StyleOf(attrs, styles), Long(PathLines(Attr2Transform(ops), cmds)))
  {
    if "d" !in attrs {
      return Abort(MissingKey);
    }
    r := Dispatch(w, Attr2Transform(ops), cmds, PathKind(typ, attrs, symbols), GetDataName(attrs),
                  Get(attrs, "id", "-"), Get(attrs, "class", "-"), styles, StyleOf(attrs, styles));
  }

  /** The filter of a longer list keeps the earlier lines' result and adds the last line if long. */
  lemma LongAppend(gs: seq<seq<Point>>, g: seq<Point>)
    ensures Long(gs + [g]) == Long(gs) + (if |g| > 1 then [g] else [])
  {
    assert (gs + [g])[..|gs|] == gs;
  }

  /** Writing one more line continues the numbering. */
  lemma LineRecsAppend(first: int, kind: string, name: string, svgid: string, style: string, gs: seq<seq<Point>>, g: seq<Point>)
    ensures Long(gs + [g]) == Long(gs) + (if |g| > 1 then [g] else [])
    ensures LineRecs(first, kind, name, svgid, style, Long(gs + [g])) ==
      LineRecs(first, kind, name, svgid, style, Long(gs)) +
      (if |g| > 1 then [LineRec(first + |Long(gs)|, kind, |g|, name, svgid, style, g)] else [])
  {
    LongAppend(gs, g);
    if |g| > 1 {
      assert (Long(gs) + [g])[..|Long(gs)|] == Long(gs);
    } else {
      assert Long(gs) + [] == Long(gs);
      var rs := LineRecs(first, kind, name, svgid, style, Long(gs));
      assert rs + [] == rs;
    }
  }
}
