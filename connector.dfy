/**
 * The connector of the coast and contour scripts (`shortest_connect` and the worklist in
 * `main`): an open line is bridged, again and again, to the nearest eligible endpoint within
 * range; each time the line, the neighbour and the bridge are healed into the line, and the
 * absorbed neighbour is deleted. A match with the line itself closes a ring and stops.
 */
module Connector {
  import opened Common
  import opened Text
  import opened Geometry
  import opened Features
  import opened Healer

  /** Which neighbours a line may be bridged to. */
  datatype Rule =
    | CoastRule               // `type LIKE '%COASTLINE%' OR type = '0'`
    | ContourRule(own: string) // `type LIKE '%CONTOURS%' OR type = <the line's own type>`

  predicate Eligible(rule: Rule, kind: string)
  {
    match rule
    case CoastRule => Contains(kind, "COASTLINE") || kind == "0"
    case ContourRule(own) => Contains(kind, "CONTOURS") || kind == own
  }

  /** A bridge from an endpoint of the line to an endpoint of a neighbour. */
  datatype Bridge = Bridge(from: Side, to: Side, length: real)

  /** A pairing the query admits: for the line itself, only start-to-end and end-to-start. */
  predicate Admitted(self: bool, from: Side, to: Side)
  {
    !self || from != to
  }

  function Pair(e: Engine, line: Line, other: Line, from: Side, to: Side): Bridge
    requires |line| > 0 && |other| > 0
  {
    Bridge(from, to, e.dist(EndpointOf(line, from), EndpointOf(other, to)))
  }

  /**
   * The shortest admitted pairing of endpoints (`ORDER BY ST_Distance ... LIMIT 1`), the
   * first of (start, start), (start, end), (end, start), (end, end) on a tie.
   */
  function BestBridge(e: Engine, line: Line, other: Line, self: bool): (b: Bridge)
    requires |line| > 0 && |other| > 0
    ensures Admitted(self, b.from, b.to)
    ensures b == Pair(e, line, other, b.from, b.to)
    ensures forall p, q :: Admitted(self, p, q) ==> b.length <= Pair(e, line, other, p, q).length
  {
    var ss := Pair(e, line, other, Start, Start);
    var se := Pair(e, line, other, Start, End);
    var es := Pair(e, line, other, End, Start);
    var ee := Pair(e, line, other, End, End);
    var cands := if self then [se, es] else [ss, se, es, ee];
    assert forall p, q :: Admitted(self, p, q) ==> Pair(e, line, other, p, q) in cands;
    Shortest(cands)
  }

  function Shortest(bs: seq<Bridge>): (b: Bridge)
    requires |bs| > 0
    decreases |bs|
    ensures b in bs
    ensures forall k :: 0 <= k < |bs| ==> b.length <= bs[k].length
  {
    if |bs| == 1 then bs[0]
    else
      var rest := Shortest(bs[1..]);
      if bs[0].length <= rest.length then bs[0] else rest
  }

  /**
   * The bridge the query offers from row `lineId` to row `id`, when it is shorter than `eps`
   * and the neighbour is eligible; none when either geometry is empty (its endpoints are NULL).
   */
  function Reach(e: Engine, rule: Rule, eps: real, rows: Rows, lineId: int, id: int): Option<Bridge>
    requires lineId in rows && id in rows
  {
    var line := rows[lineId].geom;
    var other := rows[id].geom;
    if |line| == 0 || |other| == 0 then None
    else
      var b := BestBridge(e, line, other, id == lineId);
      if b.length < eps && Eligible(rule, rows[id].kind) then Some(b) else None
  }

  /** The row with the shortest bridge among `ids` (`ORDER BY ST_Length ASC LIMIT 1`), the first on a tie. */
  function Nearest(e: Engine, rule: Rule, eps: real, rows: Rows, lineId: int, ids: seq<int>): (r: Option<int>)
    requires lineId in rows
    requires forall x :: x in ids ==> x in rows
    decreases |ids|
    ensures r.Some? ==> r.value in ids && r.value in rows && Reach(e, rule, eps, rows, lineId, r.value).Some?
    ensures r.Some? ==> forall x {:trigger Reach(e, rule, eps, rows, lineId, x)} :: x in ids && Reach(e, rule, eps, rows, lineId, x).Some? ==>
      Reach(e, rule, eps, rows, lineId, r.value).value.length <= Reach(e, rule, eps, rows, lineId, x).value.length
    ensures r.None? ==> forall x {:trigger Reach(e, rule, eps, rows, lineId, x)} :: x in ids ==> Reach(e, rule, eps, rows, lineId, x).None?
  {
    if ids == [] then None
    else
      var rest := Nearest(e, rule, eps, rows, lineId, ids[1..]);
      var c := Reach(e, rule, eps, rows, lineId, ids[0]);
      if c.Some? && (rest.None? || c.value.length <= Reach(e, rule, eps, rows, lineId, rest.value).value.length)
      then Some(ids[0])
      else rest
  }

  /** A match: the neighbour's id and geometry and the bridge as a two-point line. */
  datatype Connection = Connection(id: int, with: Line, bridge: Line)

  /**
   * `shortest_connect`: at most one match, the eligible neighbour with the shortest bridge
   * under `eps`, the bridge joining an endpoint of the line to an endpoint of the neighbour
   * (opposite ends when the neighbour is the line itself); none when nothing is in range.
   */
  function ShortestConnect(e: Engine, rule: Rule, eps: real, rows: Rows, lineId: int, ids: seq<int>): (r: Option<Connection>)
    requires lineId in rows
    requires forall x :: x in ids ==> x in rows
    ensures r.Some? ==> r.value.id in ids && r.value.id in rows && Eligible(rule, rows[r.value.id].kind)
    ensures r.Some? ==> r.value.with == rows[r.value.id].geom && |r.value.bridge| == 2
    ensures r.Some? ==> e.dist(r.value.bridge[0], r.value.bridge[1]) < eps
    ensures r.Some? ==> |rows[lineId].geom| > 0 && |r.value.with| > 0 && exists p, q ::
      Admitted(r.value.id == lineId, p, q) && r.value.bridge == [EndpointOf(rows[lineId].geom, p), EndpointOf(r.value.with, q)]
    ensures r.Some? ==> forall x {:trigger Reach(e, rule, eps, rows, lineId, x)} :: x in ids && Reach(e, rule, eps, rows, lineId, x).Some? ==>
      e.dist(r.value.bridge[0], r.value.bridge[1]) <= Reach(e, rule, eps, rows, lineId, x).value.length
    ensures r.None? ==> forall x {:trigger Reach(e, rule, eps, rows, lineId, x)} :: x in ids ==> Reach(e, rule, eps, rows, lineId, x).None?
  {
    match Nearest(e, rule, eps, rows, lineId, ids)
    case None => None
    case Some(id) =>
      var b := Reach(e, rule, eps, rows, lineId, id).value;
      var line := rows[lineId].geom;
      var other := rows[id].geom;
      Some(Connection(id, other, [EndpointOf(line, b.from), EndpointOf(other, b.to)]))
  }

  /** Names and types of the rows still present are those of `before`. */
  ghost predicate SameLabels(rows: Rows, before: Rows)
  {
    forall id :: id in rows ==> id in before && rows[id].name == before[id].name && rows[id].kind == before[id].kind
  }

  /** Replacing a geometry keeps the keys and the labels. */
  lemma RelabelFree(rows: Rows, id: int, g: Line, before: Rows)
    requires SameLabels(rows, before)
    ensures WithGeom(rows, id, g).Keys == rows.Keys
    ensures SameLabels(WithGeom(rows, id, g), before)
  {
  }

  lemma KeysLeft(rows: Rows, before: Rows, gone: seq<int>)
    requires forall x :: x in rows <==> x in before && x !in gone
    ensures rows.Keys == before.Keys - Elems(gone)
  {
    forall x
      ensures x in rows.Keys <==> x in before.Keys - Elems(gone)
    {
      assert x in Elems(gone) <==> x in gone;
    }
  }

  /** No row offers row `id` a bridge: the connector stops here. */
  ghost predicate Isolated(e: Engine, rule: Rule, eps: real, rows: Rows, id: int)
    requires id in rows
  {
    forall x {:trigger Reach(e, rule, eps, rows, id, x)} :: x in rows ==> Reach(e, rule, eps, rows, id, x).None?
  }

  /**
   * `m` is the match `shortest_connect` returns for row `id` of `rows` under `eps`, the rows
   * scanned in id order (there is one such order, `IncreasingUnique`).
   */
  ghost predicate Answers(e: Engine, rule: Rule, eps: real, rows: Rows, id: int, m: Connection)
    requires id in rows
  {
    exists ids {:trigger ShortestConnect(e, rule, eps, rows, id, ids)} ::
      Increasing(ids) && (forall x :: x in ids <==> x in rows) &&
      ShortestConnect(e, rule, eps, rows, id, ids) == Some(m)
  }

  /** The query has one answer. */
  lemma AnswersUnique(e: Engine, rule: Rule, eps: real, rows: Rows, id: int, m1: Connection, m2: Connection)
    requires id in rows && Answers(e, rule, eps, rows, id, m1) && Answers(e, rule, eps, rows, id, m2)
    ensures m1 == m2
  {
    var ids1 :| Increasing(ids1) && (forall x :: x in ids1 <==> x in rows) && ShortestConnect(e, rule, eps, rows, id, ids1) == Some(m1);
    var ids2 :| Increasing(ids2) && (forall x :: x in ids2 <==> x in rows) && ShortestConnect(e, rule, eps, rows, id, ids2) == Some(m2);
    IncreasingUnique(ids1, ids2);
  }

  /**
   * The answer is the nearest eligible row: its bridge joins an endpoint of the line to an
   * endpoint of the row, is shorter than `eps`, and no row of the table offers a shorter one.
   */
  lemma AnswerNearest(e: Engine, rule: Rule, eps: real, rows: Rows, id: int, m: Connection)
    requires id in rows && Answers(e, rule, eps, rows, id, m)
    ensures Matches(rule, rows, m)
    ensures |m.bridge| == 2 && e.dist(m.bridge[0], m.bridge[1]) < eps
    ensures |rows[id].geom| > 0 && |m.with| > 0 && exists p, q ::
      Admitted(m.id == id, p, q) && m.bridge == [EndpointOf(rows[id].geom, p), EndpointOf(m.with, q)]
    ensures forall x {:trigger Reach(e, rule, eps, rows, id, x)} :: x in rows && Reach(e, rule, eps, rows, id, x).Some? ==>
      e.dist(m.bridge[0], m.bridge[1]) <= Reach(e, rule, eps, rows, id, x).value.length
  {
    var ids :| Increasing(ids) && (forall x :: x in ids <==> x in rows) && ShortestConnect(e, rule, eps, rows, id, ids) == Some(m);
  }

  /** What the loop needs to know of the current match of row `id`: the query's answer, or no row in range. */
  ghost predicate Fits(e: Engine, rule: Rule, eps: real, rows: Rows, id: int, c: Option<Connection>)
  {
    id in rows &&
    (c.Some? ==> Matches(rule, rows, c.value) && Answers(e, rule, eps, rows, id, c.value)) &&
    (c.None? ==> Isolated(e, rule, eps, rows, id))
  }

  /** `shortest_connect` against the current table, scanning its rows in id order. */
  method Query(t: Table, e: Engine, rule: Rule, eps: real, id: int) returns (c: Option<Connection>, ids: seq<int>)
    requires id in t.rows
    ensures Increasing(ids) && Elems(ids) == t.rows.Keys
    ensures c == ShortestConnect(e, rule, eps, t.rows, id, ids)
    ensures Fits(e, rule, eps, t.rows, id, c)
  {
    ids := SortIds(t.rows.Keys);
    c := ShortestConnect(e, rule, eps, t.rows, id, ids);
    if c.Some? {
      assert ShortestConnect(e, rule, eps, t.rows, id, ids) == Some(c.value);
    }
  }

  /** The bag one round heals: the match's geometry, the line's own, and the bridge (`connect[0][2:]`). */
  function Bag(rows: Rows, id: int, m: Connection): seq<Line>
    requires id in rows
  {
    [m.with, rows[id].geom, m.bridge]
  }

  /** The rows after one round: the healed bag replaces the line, and the match is deleted unless it is the line. */
  function AfterRound(e: Engine, rows: Rows, id: int, m: Connection): Rows
    requires MergeSettles(e) && id in rows
  {
    var h := Healed(e, Bag(rows, id, m));
    if h.Fail? then rows
    else if m.id == id then WithGeom(rows, id, h.value)
    else WithGeom(rows, id, h.value) - {m.id}
  }

  /** A round keeps the line and every other row it does not delete, and keeps all labels. */
  lemma AfterRoundFrame(e: Engine, rows: Rows, id: int, m: Connection, orig: Rows)
    requires MergeSettles(e) && id in rows && SameLabels(rows, orig)
    ensures id in AfterRound(e, rows, id, m)
    ensures SameLabels(AfterRound(e, rows, id, m), orig)
    ensures AfterRound(e, rows, id, m).Keys ==
      rows.Keys - (if m.id == id || Healed(e, Bag(rows, id, m)).Fail? then {} else {m.id})
    ensures forall x :: x in AfterRound(e, rows, id, m) && x != id ==> AfterRound(e, rows, id, m)[x] == rows[x]
  {
  }

  /**
   * What the inner loop keeps of the table across a round: only eligible rows were
   * absorbed, the line is still there, labels are unchanged and no other row was edited.
   */
  ghost predicate Kept(rule: Rule, orig: Rows, rows: Rows, id: int, absorbed: seq<int>)
  {
    id in rows && id !in absorbed &&
    (forall x :: x in rows <==> x in orig && x !in absorbed) &&
    SameLabels(rows, orig) &&
    (forall x :: x in absorbed ==> x in orig && Eligible(rule, orig[x].kind)) &&
    (forall x :: x in rows && x != id ==> rows[x] == orig[x])
  }

  /** A round keeps `Kept`, the absorbed list growing by the match when the round absorbed it. */
  lemma KeptRound(e: Engine, rule: Rule, orig: Rows, rows: Rows, id: int, absorbed: seq<int>, m: Connection)
    requires MergeSettles(e) && Kept(rule, orig, rows, id, absorbed)
    requires m.id in rows && Eligible(rule, rows[m.id].kind)
    ensures Kept(rule, orig, AfterRound(e, rows, id, m), id,
      if Continues(e, id, rows, m) then absorbed + [m.id] else absorbed)
  {
    AfterRoundFrame(e, rows, id, m, orig);
    var after := AfterRound(e, rows, id, m);
    if Continues(e, id, rows, m) {
      var ab := absorbed + [m.id];
      assert after.Keys == rows.Keys - {m.id};
      forall x
        ensures x in after <==> x in orig && x !in ab
      {
        assert x in ab <==> x in absorbed || x == m.id;
      }
      forall x | x in ab
        ensures x in orig && Eligible(rule, orig[x].kind)
      {
        assert x in absorbed || x == m.id;
      }
    } else {
      assert after.Keys == rows.Keys;
    }
  }

  /** A round shrinks the table exactly when it absorbs another line. */
  lemma RoundShrinks(e: Engine, rows: Rows, id: int, m: Connection)
    requires MergeSettles(e) && id in rows && m.id in rows
    ensures |AfterRound(e, rows, id, m).Keys| < |rows.Keys| <==> Continues(e, id, rows, m)
  {
    AfterRoundFrame(e, rows, id, m, rows);
    if Continues(e, id, rows, m) {
      assert AfterRound(e, rows, id, m).Keys == rows.Keys - {m.id};
    }
  }

  /**
   * One round of the inner loop: heal the line, its match and the bridge into row `id`,
   * then delete the match unless it is the line itself.
   */
  method Absorb(t: Table, e: Engine, id: int, m: Connection, ghost orig: Rows) returns (h: Result<Line>)
    requires t.Valid() && MergeSettles(e) && id in t.rows && m.id in t.rows
    requires SameLabels(t.rows, orig)
    modifies t
    ensures t.Valid() && t.serial == old(t.serial)
    ensures SameLabels(t.rows, orig)
    ensures h == Healed(e, [m.with, old(t.rows)[id].geom, m.bridge])
    ensures t.rows == AfterRound(e, old(t.rows), id, m)
  {
    var before := t.rows;
    h := MakeValidLine(t, e, [m.with, t.rows[id].geom, m.bridge], id);
    if h.Ok? {
      RelabelFree(before, id, h.value, orig);
      if m.id != id {
        t.Delete(m.id);
      }
    }
  }

  /**
   * `states[k]` is the table before round `k` of the inner loop and `matches[k]` the match
   * its query returned on that table; each round leaves the next state, and every round but
   * the last absorbed another line.
   */
  ghost predicate Trail(e: Engine, rule: Rule, eps: real, id: int, states: seq<Rows>, matches: seq<Connection>)
    requires MergeSettles(e)
  {
    |states| == |matches| + 1 &&
    (forall k :: 0 <= k < |matches| ==> RoundAt(e, rule, eps, id, states[k], matches[k], states[k + 1])) &&
    (forall k :: 0 <= k < |matches| - 1 ==> Continues(e, id, states[k], matches[k]))
  }

  /** A round on table `a` with the query's answer `m` there, an eligible row of `a` with its geometry, left table `b`. */
  ghost predicate RoundAt(e: Engine, rule: Rule, eps: real, id: int, a: Rows, m: Connection, b: Rows)
    requires MergeSettles(e)
  {
    id in a && Matches(rule, a, m) && Answers(e, rule, eps, a, id, m) && b == AfterRound(e, a, id, m)
  }

  /** `m` is a match the query may return from `rows`: an eligible row, with that row's geometry. */
  ghost predicate Matches(rule: Rule, rows: Rows, m: Connection)
  {
    m.id in rows && Eligible(rule, rows[m.id].kind) && m.with == rows[m.id].geom
  }

  /** A round that absorbed another line: the bag healed and the match was not the line. */
  ghost predicate Continues(e: Engine, id: int, rows: Rows, m: Connection)
    requires MergeSettles(e)
  {
    id in rows && m.id != id && Healed(e, Bag(rows, id, m)).Ok?
  }

  /** A trail whose last round absorbed a line grows by the round of the next query's answer. */
  lemma TrailExtend(e: Engine, rule: Rule, eps: real, id: int, states: seq<Rows>, matches: seq<Connection>, m: Connection)
    requires MergeSettles(e) && Trail(e, rule, eps, id, states, matches)
    requires matches != [] ==> Continues(e, id, states[|matches| - 1], matches[|matches| - 1])
    requires id in states[|matches|] && Matches(rule, states[|matches|], m)
    requires Answers(e, rule, eps, states[|matches|], id, m)
    ensures Trail(e, rule, eps, id, states + [AfterRound(e, states[|matches|], id, m)], matches + [m])
  {
    var after := AfterRound(e, states[|matches|], id, m);
    assert RoundAt(e, rule, eps, id, states[|matches|], m, after);
    RoundsGrow(e, rule, eps, id, states, matches, m, after);
    ContinuesGrow(e, id, states, matches, m, after);
  }

  /** The rounds of a trail, and one more on its last table, are the rounds of the grown trail. */
  lemma RoundsGrow(e: Engine, rule: Rule, eps: real, id: int, states: seq<Rows>, matches: seq<Connection>, m: Connection, after: Rows)
    requires MergeSettles(e) && |states| == |matches| + 1
    requires forall k :: 0 <= k < |matches| ==> RoundAt(e, rule, eps, id, states[k], matches[k], states[k + 1])
    requires RoundAt(e, rule, eps, id, states[|matches|], m, after)
    ensures forall k :: 0 <= k < |matches| + 1 ==>
      RoundAt(e, rule, eps, id, (states + [after])[k], (matches + [m])[k], (states + [after])[k + 1])
  {
    var s2, m2 := states + [after], matches + [m];
    forall k | 0 <= k < |m2|
      ensures RoundAt(e, rule, eps, id, s2[k], m2[k], s2[k + 1])
    {
      if k < |matches| {
        assert s2[k] == states[k] && m2[k] == matches[k] && s2[k + 1] == states[k + 1];
      } else {
        assert s2[k] == states[|matches|] && m2[k] == m && s2[k + 1] == after;
      }
    }
  }

  /** The absorbing rounds of a trail, and its last one, are the absorbing rounds of the grown trail. */
  lemma ContinuesGrow(e: Engine, id: int, states: seq<Rows>, matches: seq<Connection>, m: Connection, after: Rows)
    requires MergeSettles(e) && |states| == |matches| + 1
    requires forall k :: 0 <= k < |matches| - 1 ==> Continues(e, id, states[k], matches[k])
    requires matches != [] ==> Continues(e, id, states[|matches| - 1], matches[|matches| - 1])
    ensures forall k :: 0 <= k < |matches| ==> Continues(e, id, (states + [after])[k], (matches + [m])[k])
  {
    var s2, m2 := states + [after], matches + [m];
    forall k | 0 <= k < |matches|
      ensures Continues(e, id, s2[k], m2[k])
    {
      assert s2[k] == states[k] && m2[k] == matches[k];
    }
  }

  /**
   * Every round of a trail joined the line to the nearest eligible row of the table it ran
   * on: a bridge between endpoints, shorter than `eps`, and no longer than any row offers.
   */
  lemma TrailNearest(e: Engine, rule: Rule, eps: real, id: int, states: seq<Rows>, matches: seq<Connection>, k: nat)
    requires MergeSettles(e) && Trail(e, rule, eps, id, states, matches) && k < |matches|
    ensures id in states[k] && Matches(rule, states[k], matches[k])
    ensures |matches[k].bridge| == 2 && e.dist(matches[k].bridge[0], matches[k].bridge[1]) < eps
    ensures forall x {:trigger Reach(e, rule, eps, states[k], id, x)} :: x in states[k] && Reach(e, rule, eps, states[k], id, x).Some? ==>
      e.dist(matches[k].bridge[0], matches[k].bridge[1]) <= Reach(e, rule, eps, states[k], id, x).value.length
    ensures states[k + 1] == AfterRound(e, states[k], id, matches[k])
  {
    assert RoundAt(e, rule, eps, id, states[k], matches[k], states[k + 1]);
    AnswerNearest(e, rule, eps, states[k], id, matches[k]);
  }

  /** The last round healed to `g`: the match was the line itself, so the ring is closed. */
  ghost predicate ClosedBy(e: Engine, id: int, states: seq<Rows>, matches: seq<Connection>, g: Line)
    requires MergeSettles(e)
  {
    |states| == |matches| + 1 && matches != [] && id in states[|matches| - 1] &&
    matches[|matches| - 1].id == id &&
    Healed(e, Bag(states[|matches| - 1], id, matches[|matches| - 1])) == Ok(g)
  }

  /** The last round's bag did not heal. */
  ghost predicate FailedLast(e: Engine, id: int, states: seq<Rows>, matches: seq<Connection>)
    requires MergeSettles(e)
  {
    |states| == |matches| + 1 && matches != [] && id in states[|matches| - 1] &&
    Healed(e, Bag(states[|matches| - 1], id, matches[|matches| - 1])).Fail?
  }

  /** The last round, if any, absorbed another line. */
  ghost predicate AbsorbedLast(e: Engine, id: int, states: seq<Rows>, matches: seq<Connection>)
    requires MergeSettles(e)
  {
    |states| == |matches| + 1 &&
    (matches != [] ==> Continues(e, id, states[|matches| - 1], matches[|matches| - 1]))
  }

  /**
   * The state of the inner loop for line `id` on table `orig`: `rows` is the table now,
   * `c` the pending match, and the rounds so far are `states`/`matches`, of which the
   * absorbed ones are listed in `absorbed`.
   */
  ghost predicate Progress(e: Engine, rule: Rule, eps: real, id: int, orig: Rows, rows: Rows,
    r: Outcome, closed: bool, absorbed: seq<int>, c: Option<Connection>, states: seq<Rows>, matches: seq<Connection>)
    requires MergeSettles(e)
  {
    Kept(rule, orig, rows, id, absorbed) &&
    Trail(e, rule, eps, id, states, matches) && states[0] == orig && states[|matches|] == rows &&
    |absorbed| == (if closed || r.Abort? then |matches| - 1 else |matches|) &&
    (forall k :: 0 <= k < |absorbed| ==> absorbed[k] == matches[k].id) &&
    (r.Done? && !closed ==> Fits(e, rule, eps, rows, id, c)) &&
    (r.Done? && !closed ==> AbsorbedLast(e, id, states, matches)) &&
    (closed ==> r.Done? && ClosedBy(e, id, states, matches, rows[id].geom)) &&
    (r.Abort? ==> !closed && FailedLast(e, id, states, matches))
  }

  /** The rounds so far with one more: the index facts about the grown sequences. */
  lemma GrownTies(states: seq<Rows>, matches: seq<Connection>, absorbed: seq<int>, after: Rows, m: Connection, ab: seq<int>)
    requires |states| == |matches| + 1 && |absorbed| <= |matches|
    requires forall k :: 0 <= k < |absorbed| ==> absorbed[k] == matches[k].id
    requires ab == absorbed || (ab == absorbed + [m.id] && |absorbed| == |matches|)
    ensures (states + [after])[0] == states[0] && (states + [after])[|matches| + 1] == after
    ensures (states + [after])[|matches|] == states[|matches|] && (matches + [m])[|matches|] == m
    ensures forall k :: 0 <= k < |ab| ==> ab[k] == (matches + [m])[k].id
  {
    forall k | 0 <= k < |ab|
      ensures ab[k] == (matches + [m])[k].id
    {
      if k < |absorbed| {
        assert ab[k] == absorbed[k] && (matches + [m])[k] == matches[k];
      }
    }
  }

  /** A round whose bag does not heal aborts the loop and leaves the table as it was. */
  lemma StepFails(e: Engine, rule: Rule, eps: real, id: int, orig: Rows, pre: Rows, absorbed: seq<int>,
    m: Connection, states: seq<Rows>, matches: seq<Connection>)
    requires MergeSettles(e)
    requires Progress(e, rule, eps, id, orig, pre, Done, false, absorbed, Some(m), states, matches)
    requires Healed(e, Bag(pre, id, m)).Fail?
    ensures AfterRound(e, pre, id, m) == pre
    ensures Progress(e, rule, eps, id, orig, pre, Abort(EmptyList), false, absorbed, None, states + [pre], matches + [m])
  {
    KeptRound(e, rule, orig, pre, id, absorbed, m);
    TrailExtend(e, rule, eps, id, states, matches, m);
    GrownTies(states, matches, absorbed, pre, m, absorbed);
  }

  /** A round that matched the line itself closes it: the healed ring replaces the line. */
  lemma StepCloses(e: Engine, rule: Rule, eps: real, id: int, orig: Rows, pre: Rows, absorbed: seq<int>,
    m: Connection, states: seq<Rows>, matches: seq<Connection>)
    requires MergeSettles(e)
    requires Progress(e, rule, eps, id, orig, pre, Done, false, absorbed, Some(m), states, matches)
    requires Healed(e, Bag(pre, id, m)).Ok? && m.id == id
    ensures AfterRound(e, pre, id, m).Keys == pre.Keys
    ensures Progress(e, rule, eps, id, orig, AfterRound(e, pre, id, m), Done, true, absorbed, None,
      states + [AfterRound(e, pre, id, m)], matches + [m])
  {
    var after := AfterRound(e, pre, id, m);
    KeptRound(e, rule, orig, pre, id, absorbed, m);
    AfterRoundFrame(e, pre, id, m, orig);
    TrailExtend(e, rule, eps, id, states, matches, m);
    GrownTies(states, matches, absorbed, after, m, absorbed);
    assert ClosedBy(e, id, states + [after], matches + [m], after[id].geom);
  }

  /** A round that absorbed another line shrinks the table and goes on with the next match `c`. */
  lemma StepAbsorbs(e: Engine, rule: Rule, eps: real, id: int, orig: Rows, pre: Rows, absorbed: seq<int>,
    m: Connection, states: seq<Rows>, matches: seq<Connection>, c: Option<Connection>)
    requires MergeSettles(e)
    requires Progress(e, rule, eps, id, orig, pre, Done, false, absorbed, Some(m), states, matches)
    requires Continues(e, id, pre, m)
    requires Fits(e, rule, eps, AfterRound(e, pre, id, m), id, c)
    ensures |AfterRound(e, pre, id, m).Keys| < |pre.Keys|
    ensures Progress(e, rule, eps, id, orig, AfterRound(e, pre, id, m), Done, false, absorbed + [m.id], c,
      states + [AfterRound(e, pre, id, m)], matches + [m])
  {
    var after := AfterRound(e, pre, id, m);
    KeptRound(e, rule, orig, pre, id, absorbed, m);
    RoundShrinks(e, pre, id, m);
    TrailExtend(e, rule, eps, id, states, matches, m);
    GrownTies(states, matches, absorbed, after, m, absorbed + [m.id]);
  }

  /** One pass of the inner loop: absorb the pending match, and query again if the line is still open. */
  method Advance(t: Table, e: Engine, rule: Rule, eps: real, id: int, ghost orig: Rows,
    absorbed: seq<int>, m: Connection, ghost states: seq<Rows>, ghost matches: seq<Connection>)
    returns (r: Outcome, closed: bool, absorbed': seq<int>, c': Option<Connection>, ghost states': seq<Rows>, ghost matches': seq<Connection>)
    requires t.Valid() && MergeSettles(e)
    requires Progress(e, rule, eps, id, orig, t.rows, Done, false, absorbed, Some(m), states, matches)
    modifies t
    ensures t.Valid() && t.serial == old(t.serial)
    ensures Progress(e, rule, eps, id, orig, t.rows, r, closed, absorbed', c', states', matches')
    ensures |t.rows.Keys| <= |old(t.rows).Keys|
    ensures |t.rows.Keys| < |old(t.rows).Keys| || r.Abort? || closed
  {
    ghost var pre := t.rows;
    var h := Absorb(t, e, id, m, orig);
    matches', states' := matches + [m], states + [t.rows];
    r, closed, absorbed', c' := Done, false, absorbed, None;
    if h.Fail? {
      r := Abort(h.fault);
      StepFails(e, rule, eps, id, orig, pre, absorbed, m, states, matches);
    } else if m.id == id {
      closed := true;
      StepCloses(e, rule, eps, id, orig, pre, absorbed, m, states, matches);
    } else {
      absorbed' := absorbed + [m.id];
      var ids;
      c', ids := Query(t, e, rule, eps, id);
      StepAbsorbs(e, rule, eps, id, orig, pre, absorbed, m, states, matches, c');
    }
  }

  /** The inner loop's first query (`shortest_connect` on the table as it is): no round yet, nothing absorbed. */
  method FirstQuery(t: Table, e: Engine, rule: Rule, eps: real, id: int)
    returns (c: Option<Connection>, ghost states: seq<Rows>, ghost matches: seq<Connection>)
    requires MergeSettles(e) && id in t.rows
    ensures Progress(e, rule, eps, id, t.rows, t.rows, Done, false, [], c, states, matches)
  {
    var ids;
    c, ids := Query(t, e, rule, eps, id);
    states, matches := [t.rows], [];
  }

  /** When the inner loop stops, its state says how: closed, aborted, or with no row in range. */
  lemma Finished(e: Engine, rule: Rule, eps: real, id: int, orig: Rows, rows: Rows,
    r: Outcome, closed: bool, absorbed: seq<int>, c: Option<Connection>, states: seq<Rows>, matches: seq<Connection>)
    requires MergeSettles(e)
    requires Progress(e, rule, eps, id, orig, rows, r, closed, absorbed, c, states, matches)
    requires c.None? || r.Abort? || closed
    ensures id in rows && id !in absorbed
    ensures rows.Keys == orig.Keys - Elems(absorbed)
    ensures r.Done? && !closed ==> Isolated(e, rule, eps, rows, id)
  {
    KeysLeft(rows, orig, absorbed);
  }

  /**
   * The inner loop of the connector for one line: heal the line with each match and delete
   * the absorbed neighbour, until nothing is in range or the line meets itself (`closed`);
   * the absorbed ids are returned in order, and `states`/`matches` are its rounds.
   */
  method ConnectLine(t: Table, e: Engine, rule: Rule, eps: real, id: int)
    returns (r: Outcome, closed: bool, absorbed: seq<int>, ghost states: seq<Rows>, ghost matches: seq<Connection>)
    requires t.Valid() && MergeSettles(e) && id in t.rows
    modifies t
    ensures t.Valid() && t.serial == old(t.serial)
    ensures id in t.rows && id !in absorbed
    ensures t.rows.Keys == old(t.rows).Keys - Elems(absorbed)
    ensures SameLabels(t.rows, old(t.rows))
    ensures forall x :: x in absorbed ==> x in old(t.rows) && Eligible(rule, old(t.rows)[x].kind)
    ensures forall x :: x in t.rows && x != id ==> t.rows[x] == old(t.rows)[x]
    ensures Trail(e, rule, eps, id, states, matches)
    ensures states[0] == old(t.rows) && states[|matches|] == t.rows
    ensures |absorbed| == (if closed || r.Abort? then |matches| - 1 else |matches|)
    ensures forall k :: 0 <= k < |absorbed| ==> absorbed[k] == matches[k].id
    ensures r.Done? && !closed ==>
      Isolated(e, rule, eps, t.rows, id) && AbsorbedLast(e, id, states, matches)
    ensures closed ==> r.Done? && ClosedBy(e, id, states, matches, t.rows[id].geom)
    ensures r.Abort? ==> !closed && FailedLast(e, id, states, matches)
  {
    r, closed, absorbed := Done, false, [];
    var c;
    c, states, matches := FirstQuery(t, e, rule, eps, id);
    while c.Some? && r.Done? && !closed
      invariant t.Valid() && t.serial == old(t.serial)
      invariant Progress(e, rule, eps, id, old(t.rows), t.rows, r, closed, absorbed, c, states, matches)
      decreases |t.rows.Keys|, if r.Done? && !closed then 1 else 0
    {
      r, closed, absorbed, c, states, matches := Advance(t, e, rule, eps, id, old(t.rows), absorbed, c.value, states, matches);
    }
    Finished(e, rule, eps, id, old(t.rows), t.rows, r, closed, absorbed, c, states, matches);
  }

  /** One entry of the worklist: a line id and the rule its matches obey. */
  datatype Job = Job(id: int, rule: Rule)

  /** The rule of a worklist line: the coast rule, or the contour rule with the line's own type. */
  function RuleFor(contour: bool, f: Feature): Rule
  {
    if contour then ContourRule(f.kind) else CoastRule
  }

  /** The worklist of a selection `s` of rows, in id order (`ORDER BY id`). */
  method JobsFor(rows: Rows, s: set<int>, contour: bool) returns (jobs: seq<Job>)
    requires s <= rows.Keys
    ensures forall k :: 0 <= k < |jobs| ==> jobs[k].id in s && jobs[k].rule == RuleFor(contour, rows[jobs[k].id])
    ensures forall i, j :: 0 <= i < j < |jobs| ==> jobs[i].id < jobs[j].id
    ensures forall id :: id in s ==> exists k :: 0 <= k < |jobs| && jobs[k].id == id
  {
    var ids := SortIds(s);
    assert forall k :: 0 <= k < |ids| ==> ids[k] in Elems(ids);
    jobs := seq(|ids|, k requires 0 <= k < |ids| => Job(ids[k], RuleFor(contour, rows[ids[k]])));
    forall id | id in s
      ensures exists k :: 0 <= k < |jobs| && jobs[k].id == id
    {
      assert id in Elems(ids);
      var k :| 0 <= k < |ids| && ids[k] == id;
      assert jobs[k].id == id;
    }
  }

  /**
   * The state of the worklist after its first `i` jobs, started on table `orig`: rows are
   * only deleted, labels are kept, only visited lines changed, `seen[k]` is how many ids
   * were deleted when job `k` came up and `turns[v]` the job that the `v`-th visit ran.
   */
  ghost predicate Worklist(orig: Rows, rows: Rows, jobs: seq<Job>, i: nat,
    deleted: seq<int>, visited: seq<int>, seen: seq<nat>, turns: seq<nat>)
  {
    i <= |jobs| &&
    (forall x :: x in rows <==> x in orig && x !in deleted) &&
    SameLabels(rows, orig) &&
    (forall x :: x in rows && x !in visited ==> rows[x] == orig[x]) &&
    (forall x :: x in visited ==> x in rows || x in deleted) &&
    |seen| == i && |turns| == |visited| &&
    (forall v :: 0 <= v < |turns| ==> turns[v] < i && visited[v] == jobs[turns[v]].id) &&
    (forall v, w :: 0 <= v < w < |turns| ==> turns[v] < turns[w]) &&
    (forall k :: 0 <= k < i ==> seen[k] <= |deleted| && (jobs[k].id in deleted[..seen[k]] <==> k !in turns)) &&
    (forall k :: 0 <= k < i ==> jobs[k].id in visited || jobs[k].id in deleted)
  }

  /** A job whose line is already deleted is skipped. */
  lemma TurnSkips(orig: Rows, rows: Rows, jobs: seq<Job>, i: nat,
    deleted: seq<int>, visited: seq<int>, seen: seq<nat>, turns: seq<nat>)
    requires Worklist(orig, rows, jobs, i, deleted, visited, seen, turns)
    requires i < |jobs| && jobs[i].id in deleted
    ensures Worklist(orig, rows, jobs, i + 1, deleted, visited, seen + [|deleted|], turns)
  {
    assert deleted[..|deleted|] == deleted;
    assert i !in turns;
  }

  /** The bookkeeping of a visit: job `i` ran, its line was not deleted, and `absorbed` were deleted by it. */
  lemma TallyVisit(jobs: seq<Job>, i: nat, deleted: seq<int>, visited: seq<int>, seen: seq<nat>, turns: seq<nat>, absorbed: seq<int>)
    requires i < |jobs| && |seen| == i && |turns| == |visited| && jobs[i].id !in deleted
    requires forall v :: 0 <= v < |turns| ==> turns[v] < i && visited[v] == jobs[turns[v]].id
    requires forall v, w :: 0 <= v < w < |turns| ==> turns[v] < turns[w]
    requires forall k :: 0 <= k < i ==> seen[k] <= |deleted| && (jobs[k].id in deleted[..seen[k]] <==> k !in turns)
    ensures forall v :: 0 <= v < |turns + [i]| ==> (turns + [i])[v] < i + 1 && (visited + [jobs[i].id])[v] == jobs[(turns + [i])[v]].id
    ensures forall v, w :: 0 <= v < w < |turns + [i]| ==> (turns + [i])[v] < (turns + [i])[w]
    ensures forall k :: 0 <= k < i + 1 ==>
              (seen + [|deleted|])[k] <= |deleted + absorbed| &&
              (jobs[k].id in (deleted + absorbed)[..(seen + [|deleted|])[k]] <==> k !in turns + [i])
  {
    var d2, s2, t2 := deleted + absorbed, seen + [|deleted|], turns + [i];
    assert deleted[..|deleted|] == deleted;
    forall k | 0 <= k < i + 1
      ensures s2[k] <= |d2| && (jobs[k].id in d2[..s2[k]] <==> k !in t2)
    {
      assert d2[..s2[k]] == deleted[..s2[k]];
    }
  }

  /** A job whose line is present runs: the line may change and the absorbed rows are deleted. */
  lemma TurnVisits(orig: Rows, rows: Rows, after: Rows, jobs: seq<Job>, i: nat,
    deleted: seq<int>, visited: seq<int>, seen: seq<nat>, turns: seq<nat>, absorbed: seq<int>)
    requires Worklist(orig, rows, jobs, i, deleted, visited, seen, turns)
    requires i < |jobs| && jobs[i].id in rows
    requires after.Keys == rows.Keys - Elems(absorbed) && jobs[i].id in after
    requires SameLabels(after, rows)
    requires forall x :: x in after && x != jobs[i].id ==> after[x] == rows[x]
    ensures Worklist(orig, after, jobs, i + 1, deleted + absorbed, visited + [jobs[i].id], seen + [|deleted|], turns + [i])
  {
    var d2 := deleted + absorbed;
    forall x
      ensures x in after <==> x in orig && x !in d2
    {
      assert x in Elems(absorbed) <==> x in absorbed;
    }
    TallyVisit(jobs, i, deleted, visited, seen, turns, absorbed);
  }

  /** One visit's rounds: the table before each round, and the match its query returned. */
  datatype LineRun = LineRun(states: seq<Rows>, matches: seq<Connection>)

  /**
   * `run` is the whole inner loop for line `id`: a trail of rounds that ends closed, with no
   * row in range after an absorbing round, or (`Abort`) with a bag that did not heal.
   */
  ghost predicate LineDone(e: Engine, rule: Rule, eps: real, id: int, run: LineRun, r: Outcome)
    requires MergeSettles(e)
  {
    Trail(e, rule, eps, id, run.states, run.matches) && id in run.states[|run.matches|] &&
    (r.Abort? ==> FailedLast(e, id, run.states, run.matches)) &&
    (r.Done? ==>
      ClosedBy(e, id, run.states, run.matches, run.states[|run.matches|][id].geom) ||
      (Isolated(e, rule, eps, run.states[|run.matches|], id) && AbsorbedLast(e, id, run.states, run.matches)))
  }

  /**
   * The visits of the worklist in order: visit `v` ran job `turns[v]` from table `tables[v]`
   * to table `tables[v + 1]` as `runs[v]` says; all but the last ended `Done`, the last `last`.
   */
  ghost predicate Runs(e: Engine, eps: real, jobs: seq<Job>, turns: seq<nat>, tables: seq<Rows>, runs: seq<LineRun>, last: Outcome)
    requires MergeSettles(e)
  {
    |tables| == |runs| + 1 && |runs| == |turns| &&
    forall v :: 0 <= v < |runs| ==>
      turns[v] < |jobs| && |runs[v].states| == |runs[v].matches| + 1 &&
      runs[v].states[0] == tables[v] && runs[v].states[|runs[v].matches|] == tables[v + 1] &&
      LineDone(e, jobs[turns[v]].rule, eps, jobs[turns[v]].id, runs[v], if v == |runs| - 1 then last else Done)
  }

  /** The visits so far with one more, of job `i`, from the last table to `after`. */
  lemma RunsMore(e: Engine, eps: real, jobs: seq<Job>, turns: seq<nat>, tables: seq<Rows>, runs: seq<LineRun>,
    i: nat, run: LineRun, after: Rows, res: Outcome)
    requires MergeSettles(e) && Runs(e, eps, jobs, turns, tables, runs, Done)
    requires i < |jobs| && |run.states| == |run.matches| + 1
    requires run.states[0] == tables[|runs|] && run.states[|run.matches|] == after
    requires LineDone(e, jobs[i].rule, eps, jobs[i].id, run, res)
    ensures Runs(e, eps, jobs, turns + [i], tables + [after], runs + [run], res)
  {
    var t2, r2, u2 := tables + [after], runs + [run], turns + [i];
    forall v | 0 <= v < |r2|
      ensures u2[v] < |jobs| && |r2[v].states| == |r2[v].matches| + 1
      ensures r2[v].states[0] == t2[v] && r2[v].states[|r2[v].matches|] == t2[v + 1]
      ensures LineDone(e, jobs[u2[v]].rule, eps, jobs[u2[v]].id, r2[v], if v == |r2| - 1 then res else Done)
    {
      if v < |runs| {
        assert r2[v] == runs[v] && t2[v] == tables[v] && t2[v + 1] == tables[v + 1] && u2[v] == turns[v];
      }
    }
  }

  /**
   * One visit of the worklist: `ConnectLine`, seen through what it does to the table's keys
   * and other rows, and through its rounds `run`.
   */
  method Visit(t: Table, e: Engine, rule: Rule, eps: real, id: int) returns (r: Outcome, absorbed: seq<int>, ghost run: LineRun)
    requires t.Valid() && MergeSettles(e) && id in t.rows
    modifies t
    ensures t.Valid() && t.serial == old(t.serial)
    ensures t.rows.Keys == old(t.rows).Keys - Elems(absorbed) && id in t.rows
    ensures SameLabels(t.rows, old(t.rows))
    ensures forall x :: x in t.rows && x != id ==> t.rows[x] == old(t.rows)[x]
    ensures |run.states| == |run.matches| + 1
    ensures run.states[0] == old(t.rows) && run.states[|run.matches|] == t.rows
    ensures LineDone(e, rule, eps, id, run, r)
  {
    var closed;
    ghost var states, matches;
    r, closed, absorbed, states, matches := ConnectLine(t, e, rule, eps, id);
    run := LineRun(states, matches);
  }

  /** The turn of job `i`, whose line is present: visit it and record the visit. */
  method Turn(t: Table, e: Engine, eps: real, jobs: seq<Job>, i: nat, ghost orig: Rows,
    deleted: seq<int>, visited: seq<int>, ghost seen: seq<nat>, ghost turns: seq<nat>, ghost tables: seq<Rows>, ghost runs: seq<LineRun>)
    returns (res: Outcome, deleted': seq<int>, visited': seq<int>, ghost seen': seq<nat>, ghost turns': seq<nat>,
      ghost tables': seq<Rows>, ghost runs': seq<LineRun>)
    requires t.Valid() && MergeSettles(e)
    requires Worklist(orig, t.rows, jobs, i, deleted, visited, seen, turns)
    requires i < |jobs| && jobs[i].id in t.rows
    requires |tables| == |runs| + 1 && tables[0] == orig && tables[|runs|] == t.rows
    requires Runs(e, eps, jobs, turns, tables, runs, Done)
    modifies t
    ensures t.Valid() && t.serial == old(t.serial)
    ensures Worklist(orig, t.rows, jobs, i + 1, deleted', visited', seen', turns')
    ensures |tables'| == |runs'| + 1 && tables'[0] == orig && tables'[|runs'|] == t.rows
    ensures Runs(e, eps, jobs, turns', tables', runs', res)
  {
    ghost var before := t.rows;
    var absorbed;
    ghost var run;
    res, absorbed, run := Visit(t, e, jobs[i].rule, eps, jobs[i].id);
    TurnVisits(orig, before, t.rows, jobs, i, deleted, visited, seen, turns, absorbed);
    RunsMore(e, eps, jobs, turns, tables, runs, i, run, t.rows, res);
    seen', turns' := seen + [|deleted|], turns + [i];
    deleted', visited' := deleted + absorbed, visited + [jobs[i].id];
    tables', runs' := tables + [t.rows], runs + [run];
  }

  /**
   * The worklist of the connector: jobs run in order; a job whose line an earlier job has
   * absorbed (its id is in `deleted` at its turn) is skipped. Rows are only ever deleted,
   * never added, and no name or type changes. `seen[i]` is how many ids were deleted when
   * job `i` came up, and `turns[v]` the job that the `v`-th visit ran; that visit took the
   * table from `tables[v]` to `tables[v + 1]` in the rounds `runs[v]` (`Runs`).
   */
  method ConnectAll(t: Table, e: Engine, eps: real, jobs: seq<Job>)
    returns (r: Outcome, deleted: seq<int>, visited: seq<int>, ghost seen: seq<nat>, ghost turns: seq<nat>,
      ghost tables: seq<Rows>, ghost runs: seq<LineRun>)
    requires t.Valid() && MergeSettles(e)
    requires forall k :: 0 <= k < |jobs| ==> jobs[k].id in t.rows
    modifies t
    ensures t.Valid() && t.serial == old(t.serial)
    ensures forall x :: x in t.rows <==> x in old(t.rows) && x !in deleted
    ensures SameLabels(t.rows, old(t.rows))
    ensures forall x :: x in t.rows && x !in visited ==> t.rows[x] == old(t.rows)[x]
    ensures forall x :: x in visited ==> x in t.rows || x in deleted
    ensures |seen| <= |jobs| && (r.Done? ==> |seen| == |jobs|)
    ensures |turns| == |visited|
    ensures forall v :: 0 <= v < |turns| ==> turns[v] < |seen| && visited[v] == jobs[turns[v]].id
    ensures forall v, w :: 0 <= v < w < |turns| ==> turns[v] < turns[w]
    ensures forall i :: 0 <= i < |seen| ==> seen[i] <= |deleted| && (jobs[i].id in deleted[..seen[i]] <==> i !in turns)
    ensures r.Done? ==> forall k :: 0 <= k < |jobs| ==> jobs[k].id in visited || jobs[k].id in deleted
    ensures |tables| == |runs| + 1 && tables[0] == old(t.rows) && tables[|runs|] == t.rows
    ensures Runs(e, eps, jobs, turns, tables, runs, r)
  {
    r, deleted, visited := Done, [], [];
    seen, turns := [], [];
    tables, runs := [t.rows], [];
    for i := 0 to |jobs|
      invariant t.Valid() && t.serial == old(t.serial)
      invariant Worklist(old(t.rows), t.rows, jobs, i, deleted, visited, seen, turns)
      invariant |tables| == |runs| + 1 && tables[0] == old(t.rows) && tables[|runs|] == t.rows
      invariant Runs(e, eps, jobs, turns, tables, runs, Done)
    {
      var job := jobs[i];
      if job.id in deleted {
        TurnSkips(old(t.rows), t.rows, jobs, i, deleted, visited, seen, turns);
        seen := seen + [|deleted|];
        continue;
      }
      var res;
      res, deleted, visited, seen, turns, tables, runs := Turn(t, e, eps, jobs, i, old(t.rows), deleted, visited, seen, turns, tables, runs);
      if res.Abort? {
        return res, deleted, visited, seen, turns, tables, runs;
      }
    }
  }
}
