/**
 * Points, polylines and the geometry engine. The scripts only sequence calls to PostGIS and
 * SFCGAL; those calls are the fields of `Engine`, operations about which nothing is known
 * except the assumptions a property states explicitly as a precondition (`MergeSettles` ...).
 * Vertex removal, vertex replacement, closing a ring and `ST_IsClosed` are concrete.
 */
module Geometry {

  datatype Point = Point(x: real, y: real)

  /** A LINESTRING as its vertex sequence. */
  type Line = seq<Point>

  /** Which endpoint of a line: `'start'`/`pt_idx 1` or `'end'`/`pt_idx 2`. */
  datatype Side = Start | End

  function Opposite(side: Side): Side
  {
    if side == Start then End else Start
  }

  /** The name written into river tags and log lines. */
  function SideName(side: Side): string
  {
    if side == Start then "start" else "end"
  }

  /** `ST_StartPoint` / `ST_EndPoint`. */
  function EndpointOf(g: Line, side: Side): Point
    requires |g| > 0
  {
    if side == Start then g[0] else g[|g| - 1]
  }

  /** `ST_IsClosed`: a line whose first and last vertices coincide. */
  predicate IsClosed(g: Line)
  {
    |g| >= 2 && g[0] == g[|g| - 1]
  }

  /** `ST_RemovePoint(g, 0)` for the start, `ST_RemovePoint(g, npoints - 1)` for the end. */
  function RemoveEndVertex(g: Line, side: Side): Line
    requires |g| > 0
  {
    if side == Start then g[1..] else g[..|g| - 1]
  }

  /** `ST_SetPoint(g, 0, p)` for the start, `ST_SetPoint(g, -1, p)` for the end. */
  function SetEndVertex(g: Line, side: Side, p: Point): Line
    requires |g| > 0
  {
    if side == Start then g[0 := p] else g[|g| - 1 := p]
  }

  /** `ST_AddPoint(g, ST_StartPoint(g))`: close a ring by repeating its start. */
  function CloseRing(g: Line): Line
    requires |g| > 0
  {
    g + [g[0]]
  }

  /** One part of `ST_Dump` of an area: a polygon or another kind of geometry, with its point set. */
  datatype Piece = Piece(isPolygon: bool, region: set<Point>)

  /** The PostGIS/SFCGAL operations the core calls; a terminal boundary is the union of its lines. */
  datatype Engine = Engine(
    merge: seq<Line> -> seq<Line>,          // ST_Dump(ST_LineMerge(ST_Union(bag))) ORDER BY ST_Length DESC
    length: Line -> real,                   // ST_Length
    dist: (Point, Point) -> real,           // ST_Distance of two points, the length of their bridge
    lineDist: (Point, Line) -> real,        // ST_Distance of a point and a line
    groupDist: (set<Point>, Line) -> real,  // ST_Distance of a multi-point and a line
    separation: (Line, Line) -> real,       // ST_Distance of two lines
    covers: (Line, Point) -> bool,          // ST_Covers(ST_MakePolygon(ring), point)
    coversLine: (Line, Line) -> bool,       // ST_Covers(ST_MakePolygon(ring), line)
    termDist: (set<Line>, Point) -> real,   // ST_Distance(terminal, point)
    intersects: (set<Line>, Line) -> bool,  // ST_Intersects(terminal, line)
    closest: (set<Line>, Point) -> Point,   // ST_ClosestPoint(terminal, point)
    removeRepeated: Line -> Line,           // ST_RemoveRepeatedPoints
    lakeDist: (Line, Point) -> real,        // ST_Distance(ST_MakePolygon(ring), point)
    clip: (Line, Line) -> seq<Line>,        // ST_Dump(ST_Difference(line, ST_MakePolygon(ring)))
    medial: Line -> seq<Line>,              // CG_ApproximateMedialAxis of a slightly buffered ring
    axis: (seq<Line>, Line) -> seq<Line>,   // make_axis: merged medial pieces inside the shrunk bound
    region: Line -> set<Point>,             // ST_MakeValid(ST_MakePolygon(ring)) as a point set
    pieces: set<Point> -> seq<Piece>        // ST_Dump(ST_Union(region))
  )

  /**
   * Assumption: once merged, lines do not split again. `ST_Union` cuts lines where they
   * cross, so a first merge may yield more pieces than its bag had (one self-crossing line
   * gives three); but the first `k` pieces of a merge, merged again, give at most `k` pieces.
   */
  ghost predicate MergeSettles(e: Engine)
  {
    forall bag, k :: 0 <= k <= |e.merge(bag)| ==> |e.merge(e.merge(bag)[..k])| <= k
  }

  /** The `ORDER BY ST_Length(geo) DESC` of the merge queries. */
  ghost predicate MergeSorted(e: Engine)
  {
    forall bag, i, j :: 0 <= i < j < |e.merge(bag)| ==> e.length(e.merge(bag)[j]) <= e.length(e.merge(bag)[i])
  }

  /** Assumption: a line that is the single result of a merge merges to itself. */
  ghost predicate MergeIdempotent(e: Engine)
  {
    forall bag :: |e.merge(bag)| == 1 ==> e.merge([e.merge(bag)[0]]) == e.merge(bag)
  }

  /** Assumption: distances from a point to a line are never negative. */
  ghost predicate LineDistNonNegative(e: Engine)
  {
    forall p, g :: e.lineDist(p, g) >= 0.0
  }

  /** Assumption: a point that is a vertex of a line is at distance zero from it. */
  ghost predicate VertexOnLine(e: Engine)
  {
    forall p, g :: p in g ==> e.lineDist(p, g) == 0.0
  }

  /** Assumption: removing repeated points never empties a line. */
  ghost predicate RemoveRepeatedKeepsPoints(e: Engine)
  {
    forall g :: |g| > 0 ==> |e.removeRepeated(g)| > 0
  }
}
