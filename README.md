# harn-atlas-tools, modelled in Dafny

harn-atlas-tools turns the vector maps of the Hârn atlas into a GIS database. `svg2geo.py`
reads the SVG map and writes its lines, polygons and points as GIS features. A set of batch
scripts then cleans the PostGIS tables those features were loaded into:

- `geo_coast.py` heals and connects coast lines, splits lake boundaries and relabels coast rings;
- `geo_elevation.py` heals and connects contour lines and gives them heights;
- `geo_lakes.py` checks lakes against the contour rings around them and labels more rings;
- `geo_rivers.py` traces rivers level by level from the coast inward;
- `geo_roads.py` heals roads and connects them to towns and to each other;
- `geo_vegetation.py` builds non-overlapping vegetation areas.

This project models the control logic of those scripts and of the pure and loop-driven parts
of the SVG front end, and proves what that logic guarantees.

The model has these parts:

- **The feature table.** The `_lines` table is a class, `Features.Table`. It holds its rows as
  a map from id to feature (name, type, vertex sequence, style) and has the `serial` sequence
  that new ids come from. Every single-row UPDATE, INSERT and DELETE is a method of it.
- **The geometry engine.** PostGIS and SFCGAL calls (union and line merge, distance,
  covering, closest point, difference, medial axis, …) are the fields of a value `Engine`. It
  is passed to every operation. Nothing is known about these calls except what a property
  states as a precondition, for instance "once merged, lines do not split again: the first `k`
  pieces of a merge, merged again, give at most `k` pieces" (`Geometry.MergeSettles`).
- **Concrete geometry.** Vertex removal, vertex replacement, closing a ring and the
  closed-line test are computed here, not by the engine.
- **Running to the end or aborting.** Each script is a method that either runs to the end
  (`Done`) or stops where Python would raise an exception (`Abort`, with the reason). The
  reasons are:
  - an empty SQL array;
  - `fetchall()[0]` on an empty result;
  - `int()` of a label that is not an integer;
  - a NULL spliced into SQL;
  - an empty style token;
  - a missing attribute or style class.

The modules follow the source:

| module | models |
|---|---|
| `Healer`, `Connector` | the line healer and the connector loop shared by the coast, contour and road scripts |
| `Coast` | `geo_coast.py`: the polygon healer, the lake extraction and the final relabel |
| `Rings` | the ring query of both `label_rings`, and the height arithmetic (500 per ring) |
| `Elevation` | `geo_elevation.py` |
| `Lakes` | `geo_lakes.py` |
| `Rivers` | `geo_rivers.py` |
| `Roads` | `geo_roads.py` |
| `Vegetation` | `geo_vegetation.py` |
| `SvgTransform`, `Svg`, `Styles` | `svg2geo.py`'s `attr2transform`; the id counter, name and href lookups, the point-pair loops, `parse_path` and `out_line`; `parse_style` |
| `Common`, `Text`, `Geometry` | shared values, string operations and the engine |

## Behaviour kept as written

The model keeps the scripts' behaviour as it is written, including these details:

- **Pruning precedence.** The pathological-line DELETE of the coast, contour, lake and road
  scripts reads `type LIKE '%CAT%' AND npoints < 4 OR length < eps`. A line shorter than `eps`
  is therefore deleted whatever its type (`Features.PrunePrecedence`).
- **Which fixed ring wins.** The two `label_rings` differ:
  - The contour script's UPDATE only touches rows whose *current* type is still `CONTOURS`,
    so the nearest fixed ring of a chain wins (`Elevation.FirstFixedRows`).
  - The lake script tests the type *as the query returned it* and then updates
    unconditionally, so every later fixed ring overwrites what nearer ones wrote, and the
    farthest one wins (`Lakes.LastFixedWins`).
- **Lake recursion.** `handle_lakes` recurses into both sides of the next level whenever any
  Mouth was clipped for a lake (`Rivers.HandleLake`).
- **River count.** `handle_river` returns the number of lines it selected, dropped ones
  included.
- **Path commands.** In `parse_path`:
  - `Z` appends the subpath start but leaves the current point where it was;
  - an `M` in the middle of a path does not end the line being built; the new point is
    appended to it (`Svg.PathCommands`).
- **Transform.** `scale(x)` leaves y unscaled (`[x, 0, 0, 1, 0, 0]`), as the script's own
  assertions expect (`SvgTransform.SingleOps`).
- **`<line>` elements.** A `<line>` gets its name appended to its type twice, and every line
  written by `parse_line` carries its name, not its `id`, as `svgid` (`Svg.ParseLine`).
- **Style keys.** The current style keys survive a `}` line. A value line that comes before
  any `.` line belongs to no class (`Styles.NoKeysNoChange`).
- **LIKE wildcard.** In `LIKE` patterns, `_` matches any one character, so the vegetation
  class `SNOW_x2F_ICE` also matches types that merely look like it
  (`Vegetation.ContainsLike`).

## Model

| member | source | states |
|---|---|---|
| Common.SortIds | geo_coast.py:151-153 | the ids of a selection are listed once each, in strictly increasing order, and no others |
| Common.IncreasingUnique | geo_coast.py:151-153 | `ORDER BY id` has one answer: two increasing lists of the same ids are equal |
| Common.SortBy | geo_elevation.py:80-86 | the rows of a selection are listed once each, in ascending order of the sort key |
| Common.MinBy | geo_roads.py:33-39 | `ORDER BY key LIMIT 1` returns a member of the selection with the least key |
| Text.Tail | svg2geo.py:417-420 | `s[1:]` is what follows the first character, and empty for the empty string |
| Text.TrimLeft | svg2geo.py:404 | the result is a suffix of the input; only spaces are dropped, and it does not start with a space |
| Text.TrimRight | svg2geo.py:404 | the result is a prefix of the input; only spaces are dropped, and it does not end with a space |
| Text.SplitOn | svg2geo.py:408 | `split(c)` yields at least one piece, and no piece contains the separator |
| Text.JoinSplit | svg2geo.py:339 | splitting loses nothing: joining the pieces with the separator gives the string back |
| Text.NatRoundTrip | geo_elevation.py:94 | the decimal digits written for a natural number read back as that number |
| Text.CanonicalDigits | geo_elevation.py:97 | digits without a leading zero are the canonical text of their value, so `str(int(s)) == s` |
| Text.IntRoundTrip | geo_elevation.py:94-101 | every height label the scripts write reads back with `int()` as the same integer |
| Text.NumberHasNoTag | geo_coast.py:50-54 | a printed integer contains no letter tag such as `COASTLINE` |
| Features.AppendedRows | geo_coast.py:78-83 | inserting features one by one keeps every old row and puts the k-th new feature under id `serial + k` |
| Features.Pruned | geo_coast.py:137-140 | after the pathological-line DELETE, a row remains, unchanged, exactly when the filter does not hold for it |
| Features.PrunePrecedence | geo_coast.py:137-140 | a line shorter than eps is deleted whatever its type; a line with at least 4 vertices and length at least eps stays; a line of another type stays unless it is short |
| Features.Table.constructor | geo_coast.py:130-131 | the table starts with the loaded rows and a sequence that starts above every id in use |
| Features.Table.Insert | geo_coast.py:79-83 | `nextval` gives a fresh id that no row uses; the row is added under it and the sequence advances by one |
| Features.Table.InsertAll | geo_coast.py:78-83 | a batch of inserts appends the features under consecutive fresh ids |
| Features.Table.SetRow | geo_coast.py:71-76 | an UPDATE by id replaces that row only, and changes nothing when the id is absent |
| Features.Table.SetGeom | geo_coast.py:101-104 | an UPDATE of the geometry by id changes that row's geometry only |
| Features.Table.SetKind | geo_lakes.py:107-111 | an UPDATE of the type by id changes that row's type only |
| Features.Table.Delete | geo_coast.py:84-85 | a DELETE by id removes that row only |
| Features.Table.Assign | geo_coast.py:208-211 | a bulk UPDATE replaces the rows without inserting any and without touching the sequence |
| Features.Table.RemovePathological | geo_coast.py:137-140 | the DELETE leaves exactly the rows that `Pruned` keeps |
| Healer.Healed | geo_coast.py:87-99 | a bag heals to the single piece that some non-empty bag merges to: the bag itself, or fewer lines than its first merge has pieces; otherwise it fails with an empty SQL array |
| Healer.HealedFrom | geo_coast.py:89-99 | the rounds after the first, on the first `k` pieces of a merge, heal to the single piece of a merge of at most `k` lines, or fail with an empty SQL array |
| Healer.HealedRounds | geo_coast.py:89-99 | healing round by round: the survivor is what the bag left after the rounds that merged to several pieces merges to, in fewer rounds than the first merge has pieces; a failure is a round whose bag or merge is empty |
| Healer.HealedFromRounds | geo_coast.py:89-99 | the same account for the rounds after the first, on the first `k` pieces of a merge, in fewer than `k` rounds |
| Healer.SeveralShift | geo_coast.py:95-99 | a round that merged to several pieces, followed by `n` such rounds of what it kept, is `n + 1` such rounds of the bag |
| Healer.CrossingTrimmed | geo_coast.py:143-147 | the case the one-line heal exists for is in the model: a single self-crossing line, `LINESTRING(0 0, 2 2, 2 0, 0 2)`, merges into three pieces under an engine that meets `MergeSettles`, and heals to the longest |
| Healer.HealedSingle | geo_coast.py:96-98 | a bag that merges to one piece heals to that piece at once |
| Healer.HealedStable | geo_coast.py:89-99 | healing is idempotent: a healed line healed again stays as it is; this is the `MergeIdempotent` assumption carried through the first round |
| Healer.Shrink | geo_coast.py:89-99 | the shrink loop, which drops the shortest piece while several remain, ends with the healed piece of the bag |
| Healer.MakeValidLine | geo_coast.py:87-104 | only the target row's geometry changes, to the healed piece; its name, its type and every other row stay |
| Healer.HealPassRows | geo_coast.py:142-147 | the validation pass keeps every row, name and type; each visited row gets the healed form of its own geometry, and unvisited rows stay |
| Healer.ValidateAll | geo_coast.py:142-147 | every row of the category is healed alone, in id order, leaving `HealPass`; the pass aborts exactly when some row of the category does not heal; no row is added or removed |
| Healer.HealNext | geo_coast.py:146-147 | one turn of the loop heals the next row from the geometry it had when the pass began, and extends the pass by that row when it heals |
| Connector.BestBridge | geo_coast.py:21-32 | the bridge offered to a neighbour is the shortest admitted pair of endpoints; for the line itself only start-to-end and end-to-start pairs are admitted |
| Connector.Shortest | geo_coast.py:32 | `ORDER BY ST_Distance LIMIT 1` picks a bridge of least length |
| Connector.Nearest | geo_coast.py:35-38 | the match is the eligible row in range with the shortest bridge, and there is none only when no row offers a bridge in range |
| Connector.ShortestConnect | geo_coast.py:13-40 | at most one match: an eligible row (COASTLINE or `'0'`, or a contour of the line's own type) bridged endpoint to endpoint, shorter than eps and no longer than any other bridge; none when nothing is in range |
| Connector.Query | geo_coast.py:161 | the query scans every row of the table and returns what `ShortestConnect` gives |
| Connector.AnswersUnique | geo_coast.py:13-40 | the query has one answer on a given table |
| Connector.AnswerNearest | geo_coast.py:13-40 | the query's answer is an eligible row with its geometry, bridged endpoint to endpoint, shorter than eps and no longer than any bridge a row of the table offers |
| Connector.Absorb | geo_coast.py:164-170 | one round heals the match, the line and the bridge together; the table after it is `AfterRound`: the healed line replaces the line and the match is deleted unless it is the line itself, and labels never change |
| Connector.ConnectLine | geo_coast.py:161-171 | the inner loop is a `Trail` of rounds from the table it starts with to the one it leaves, each round's match the query's answer on that round's table; it deletes exactly the absorbed rows, all eligible, never the line itself, and ends closed (the last round matched the line), aborted (the last heal failed) or with no row offering a bridge |
| Connector.TrailExtend | geo_coast.py:161-171 | once the last round absorbed a line, a trail extends by one more round on its last table, with the match the query returns on that table |
| Connector.TrailNearest | geo_coast.py:161-171 | every round of a trail joined the line to the nearest eligible row of the table it ran on, by a bridge shorter than eps |
| Connector.StepFails | geo_coast.py:164 | a round whose heal fails changes nothing and aborts the loop with an empty SQL array |
| Connector.StepCloses | geo_coast.py:164-166 | a round that matched the line itself keeps every row and ends the loop closed |
| Connector.StepAbsorbs | geo_coast.py:164-171 | a round that absorbed another line deletes a row and hands on the next query's answer on the table it leaves, or the fact that no row there is in range |
| Connector.Advance | geo_coast.py:162-171 | one pass of the inner loop keeps its progress invariant and either deletes a row, closes the line or aborts |
| Connector.Finished | geo_coast.py:161-171 | when the inner loop stops, the line is present and not absorbed, exactly the absorbed rows are gone, and an open finish means no row is in range |
| Connector.JobsFor | geo_coast.py:151-154 | the worklist holds each selected id once, in increasing order, with its matching rule |
| Connector.ConnectAll | geo_coast.py:151-171 | jobs run in order and a job whose line an earlier job absorbed is skipped; exactly the deleted rows go, no row is added, labels stay, only visited lines change, and a finished run visited or deleted every job; each visit takes the table from one state to the next by a whole inner loop for its line and rule (`Runs`) |
| Connector.Visit | geo_coast.py:160-171 | a visit deletes exactly its absorbed rows, changes only its own line, and its rounds are a whole inner loop that ends closed, aborted or with no row in range |
| Connector.RunsMore | geo_coast.py:157-171 | the visits so far, followed by one more from the last table, are again a chain of whole inner loops |
| Connector.Turn | geo_coast.py:157-171 | the turn of a present line keeps the worklist bookkeeping and adds its visit to the chain |
| Connector.TurnSkips | geo_coast.py:157-159 | a job whose line is already deleted is skipped and the worklist bookkeeping carries on |
| Connector.TurnVisits | geo_coast.py:157-171 | a job whose line is present runs, its absorbed rows join the deleted ones and only its own line changes |
| Coast.PolysHealed | geo_coast.py:56-68 | the polygon healer ends with a non-empty merge whose last piece is longer than EPSB, of some non-empty bag: the bag itself, or fewer lines than its first merge has pieces |
| Coast.PolysFrom | geo_coast.py:58-68 | the rounds after the first, on the first `k` pieces of a merge, end with a non-empty merge of at most `k` lines whose last piece is longer than EPSB |
| Coast.PolysRounds | geo_coast.py:58-68 | the polygon healer round by round: the result is the merge of the bag after the rounds whose last piece was too short, in fewer rounds than the first merge has pieces; a failure is a round whose bag (EmptyList) or merge (NoRow) is empty, in no more rounds than that |
| Coast.PolysFromRounds | geo_coast.py:58-68 | the same account for the rounds after the first, on the first `k` pieces of a merge, in at most `k` rounds |
| Coast.SurvivorsLong | geo_coast.py:62-68 | with the merge sorted by descending length, every surviving piece is longer than EPSB |
| Coast.LastShortest | geo_coast.py:64-66 | the last piece of a sorted merge is the shortest |
| Coast.PolyShrink | geo_coast.py:58-68 | the loop ends with what `PolysHealed` describes |
| Coast.PolysRowsShape | geo_coast.py:70-85 | one piece rewrites the row in place as `nameless` `/COASTLINE/tmp-lake`; several pieces become as many new such rows and the original is deleted; no other row changes |
| Coast.MakeValidPolys | geo_coast.py:56-85 | the table changes as `PolysRowsShape` describes, and the sequence advances by the number of rows inserted |
| Coast.Extracted | geo_coast.py:47-54 | every closed COASTLINE ring covering the inner point becomes `LAKE/name` typed with the height; no other row changes |
| Coast.Relabelled | geo_coast.py:208-211 | after the relabel no closed ring is typed COASTLINE; exactly those rings become type `'0'` |
| Coast.ExtractedLakeSurvives | geo_coast.py:204-211 | an extracted lake survives the final relabel, and its type reads back as its height |
| Coast.MainTrimmed | geo_coast.py:230-234 | the clean-up only deletes rows |
| Coast.MainTrimmedClean | geo_coast.py:230-234 | the main ring is kept, only coast inside a main ring is deleted, and none is left |
| Coast.Run | geo_coast.py:106-239 | a finished run leaves no closed COASTLINE ring and no coast inside the main ring; an empty COASTLINE selection aborts, and so does a coast row that does not heal |
| Coast.Finish | geo_coast.py:173-234 | after the isle heal, the lake polygons, the lake extraction, the relabel and the clean-up, a finished run leaves no closed COASTLINE ring and no coast inside the main ring |
| Rings.RingChain | geo_elevation.py:80-87 | the chain holds every closed contour that covers the top ring, once each, nearest first |
| Rings.LabelsRead | geo_elevation.py:89-94 | when every fixed label reads, the ranks with a height are exactly the types with `00`, and the height is their `int()` |
| Elevation.KeyAt | geo_elevation.py:65 | a capture at a position is a well-formed key, preceded by a character other than 1-9 and followed by `00` |
| Elevation.KeyFrom | geo_elevation.py:65 | `substring` takes the capture at the leftmost matching position, and none only when no position matches |
| Elevation.KeyHeight | geo_elevation.py:154 | a key followed by `00` is a multiple of 500 from 500 to 9500 in canonical decimal: a fixed label with no CONTOURS in it |
| Elevation.KeyOrder | geo_elevation.py:64-69 | `GROUP BY elev` yields each key of a height marker exactly once |
| Elevation.GroupsOf | geo_elevation.py:64-70 | each group holds its key and exactly the points whose key it is |
| Elevation.GroupsShape | geo_elevation.py:64-69 | every group has a well-formed key and a point, and every keyed label has its group |
| Elevation.GroupsExist | geo_elevation.py:64-73 | with no NULL key, there are groups exactly when there are height labels |
| Elevation.SortElevationPts | geo_elevation.py:62-74 | the VALUES list fails exactly when a label has no key or there is no label; otherwise it has one group per key, covering every label |
| Elevation.NearestGroup | geo_elevation.py:153-156 | the group chosen is the nearest one within EPSP, and there is none only when no group is that close |
| Elevation.Matched | geo_elevation.py:150-157 | the matching UPDATE keeps every row and changes at most its type |
| Elevation.MatchedHeights | geo_elevation.py:150-157 | a CONTOURS line near a label takes a fixed height (a multiple of 500 from 500 to 9500); one near no label, and every non-CONTOURS line, stays |
| Elevation.FirstFixed | geo_elevation.py:88-90 | the rank found is the nearest one with a height, and none means no rank has one |
| Elevation.FixPassShape | geo_elevation.py:93-102 | one fixed ring's pass gives each CONTOURS ring of the chain the height `v + 500*(r - c)` and touches nothing else |
| Elevation.FixPassIdle | geo_elevation.py:99-102 | a pass over a chain with no CONTOURS ring left changes nothing |
| Elevation.SecondPassIdle | geo_elevation.py:88-102 | after one full pass, a second fixed ring's pass changes nothing |
| Elevation.FirstFixedWins | geo_elevation.py:88-102 | the nested loops leave what the nearest fixed ring's pass alone leaves, or nothing changed when no ring is fixed |
| Elevation.FirstFixedRows | geo_elevation.py:88-102 | every ring still CONTOURS takes the height counted from the nearest fixed ring; labelled rings, and rows off the chain, never change |
| Elevation.FixRing | geo_elevation.py:93-102 | the inner loop makes exactly one fixed ring's pass |
| Elevation.LabelChain | geo_elevation.py:87-102 | the loops finish exactly when every fixed label reads with `int()`, leaving the labelling `FirstFixedRows` describes; otherwise they abort |
| Elevation.LabelStep | geo_elevation.py:88-102 | one rank of the outer loop: it goes on exactly when its type has no `00` or reads with `int()`, and then leaves `LabelPass` one rank further |
| Elevation.LabelRings | geo_elevation.py:76-102 | `label_rings` labels the chain around the top ring, with the nearest fixed ring winning, and aborts exactly when a fixed label does not read |
| Elevation.MatchLabels | geo_elevation.py:147-157 | the label matching aborts exactly when the VALUES list fails; otherwise it is the matching UPDATE |
| Elevation.LabelTops | geo_elevation.py:194-211 | `label_rings` runs for every top ring, in id order; no row is added or removed |
| Elevation.ConnectHeights | geo_elevation.py:163-187 | the contour connector visits only open contour lines, deletes rows and adds none, keeps labels, changes only the lines it visited, and a finished pass visited or deleted every open contour |
| Elevation.Run | geo_elevation.py:104-211 | the contour run never adds a row; it aborts when a contour does not heal and when the height labels give no VALUES list |
| Lakes.Closest | geo_lakes.py:87-94 | `ORDER BY distance LIMIT 1` returns a nearest row, and none only for an empty selection |
| Lakes.Verdict | geo_lakes.py:105-111 | a lake is `LAKE` exactly when the two heights differ by 500 and `BROKENLAKE` otherwise; a label that is not an integer aborts |
| Lakes.NearestIn | geo_lakes.py:87-94 | a nearest member of the selection, and none only when it is empty |
| Lakes.Neighbours | geo_lakes.py:87-104 | elev1 is a nearest candidate ring, present exactly when there is a candidate; elev2 is a nearest candidate of another type that elev1 does not cover, present exactly when there is one |
| Lakes.Judgement | geo_lakes.py:94-111 | the verdict fails exactly when a query found no row or a type is not an integer (no row gives NoRow); otherwise it is `LAKE` or `BROKENLAKE` |
| Lakes.CandidatesStable | geo_lakes.py:90-91 | marking a lake keeps the candidate rings and their rows, so the height queries may return the same rows |
| Lakes.QueriedStable | geo_lakes.py:84-104 | queries against a table whose candidates are kept answer as against the lines as first read, with the same verdict |
| Lakes.CheckLake | geo_lakes.py:84-111 | checking one lake answers both queries as `Queried` says; it aborts exactly when the verdict fails, with the table unchanged, and otherwise sets the lake's type to the verdict |
| Lakes.LakeStep | geo_lakes.py:84-111 | one more lake keeps the loop invariant: earlier lakes carry their verdicts, later rows are untouched |
| Lakes.CheckLakes | geo_lakes.py:77-111 | every closed LAKES ring with the lake fill is checked in id order against the lines as first read; each checked lake carries its verdict, an abort comes exactly at the first lake whose verdict fails, and no other row or column changes |
| Lakes.LastFixed | geo_lakes.py:24-26 | the rank found is the farthest one with a height, and none means no rank has one |
| Lakes.LakeFixPassShape | geo_lakes.py:29-40 | one pass gives every rank whose queried type was CONTOURS the height `v + 500*(r - c)`, and leaves every other row |
| Lakes.FixPassFrame | geo_lakes.py:29-40 | a whole pass keeps every row and touches only the chain |
| Lakes.LakeLabelPassFrame | geo_lakes.py:24-40 | the nested loops keep every row and touch only the chain |
| Lakes.LastFixedRow | geo_lakes.py:24-40 | after the first n ranks, each ring holds the height from the farthest fixed ring so far when it was CONTOURS |
| Lakes.LastFixedWins | geo_lakes.py:24-40 | every ring whose queried type was CONTOURS takes the height counted from the farthest fixed ring; labelled rings, and rows off the chain, never change |
| Lakes.LakeFixRing | geo_lakes.py:29-40 | the inner loop makes exactly one fixed ring's pass |
| Lakes.LakeLabelChain | geo_lakes.py:23-40 | the loops finish exactly when every fixed label reads, leaving the labelling `LastFixedWins` describes; otherwise they abort |
| Lakes.LakeLabelStep | geo_lakes.py:24-40 | one rank of the outer loop: it goes on exactly when its type has no `00` or reads, and then leaves `LakeLabelPass` one rank further |
| Lakes.LabelRings | geo_lakes.py:12-40 | this `label_rings` labels the chain around the top ring, with the farthest fixed ring winning, and aborts exactly when a fixed label does not read |
| Lakes.LabelTops | geo_lakes.py:113-134 | `label_rings` runs for every lake-free top ring, in id order; no row is added or removed |
| Lakes.Run | geo_lakes.py:42-140 | the lake run never adds a row, and aborts at once when there is no LAKES line |
| Rivers.Cut | geo_rivers.py:96-99 | each retraction step removes one end vertex |
| Rivers.Retracted | geo_rivers.py:75-99 | the vertex-removal loop takes at most as many steps as the line has vertices, and a line it clears keeps a vertex |
| Rivers.RetractedExit | geo_rivers.py:75-99 | the loop stops at the first cut that is clear of the terminal, or that still intersects it with fewer than 3 vertices |
| Rivers.FirstExitUnique | geo_rivers.py:75-99 | that first exit is the only way the loop can end for a given line |
| Rivers.Selected | geo_rivers.py:65-69 | `handle_river` selects only unresolved candidates whose chosen endpoint lies within EPS of the terminal |
| Rivers.MouthShape | geo_rivers.py:100-111 | a Mouth ends on the closest point of the terminal, is never selected again, and is tagged for the next level's terminal |
| Rivers.RiverStepShape | geo_rivers.py:72-113 | one candidate is deleted and at most its Mouth (`-`, `River/{level}/Mouth:{side}`) is added under a fresh id; every other row stays |
| Rivers.RiverPassShape | geo_rivers.py:72-113 | resolving the selected candidates deletes each one and adds only Mouths of this level, under fresh ids; every other row stays |
| Rivers.RiverPassPool | geo_rivers.py:65-113 | the pool of unresolved candidates loses exactly the resolved ones |
| Rivers.RiverPassEvolves | geo_rivers.py:72-113 | resolving candidates never renames or retypes a surviving row, and only adds tracer rows |
| Rivers.Retract | geo_rivers.py:75-99 | the loop leaves the cleared line in the row, or deletes a line that was dropped |
| Rivers.RiverLine | geo_rivers.py:73-113 | one candidate is retracted, then replaced by its Mouth |
| Rivers.RiverLines | geo_rivers.py:72-113 | the loop resolves the selected candidates in order |
| Rivers.HandleRiver | geo_rivers.py:61-114 | `handle_river` resolves every selected candidate in id order and returns their number; the pool shrinks by exactly that many |
| Rivers.Longest | geo_rivers.py:51-52 | `ORDER BY ST_Length DESC LIMIT 1` returns a longest piece |
| Rivers.ClippedShape | geo_rivers.py:41-56 | clipping keeps every row, name and type, and so the pool |
| Rivers.ClippedStep | geo_rivers.py:44-56 | clipping one more Mouth is one more UPDATE of its geometry to its longest piece outside the lake |
| Rivers.ClipInflows | geo_rivers.py:41-56 | the clipping loop finishes exactly when every difference is non-empty, and then each line holds its longest piece; an empty difference aborts |
| Rivers.ClipOne | geo_rivers.py:44-56 | one line is clipped to its longest piece, or the loop stops on an empty difference |
| Rivers.HandleLake | geo_rivers.py:32-59 | the Mouths reaching into the lake are clipped, aborting exactly when one is swallowed whole; the near side traces the Mouths of the clipped table and the far side the Mouths left after it, and the table is those two `RiverPass` traces |
| Rivers.HandleLakes | geo_rivers.py:28-59 | `handle_lakes` never adds to the pool and only adds tracer rows |
| Rivers.AxisCandidates | geo_rivers.py:22-26 | every axis line is inserted as a `candidate` STREAMS row under a fresh id; old rows and the coast stay |
| Rivers.MakeAxis | geo_rivers.py:11-26 | `make_axis` appends the merged medial pieces inside the bound as candidates |
| Rivers.MarkedPool | geo_rivers.py:353-355 | after marking, the pool is the earlier candidates plus the open STREAMS lines not tagged `River/`; the coast is unchanged |
| Rivers.ThinAreas | geo_rivers.py:341-352 | thinning only adds `candidate` STREAMS rows and leaves every old row and the coast as they were |
| Rivers.Round | geo_rivers.py:365-368 | one level traces the starts of the terminal and then the ends, each the selection `Selected` gives, returning their total count; the table evolves from the two `RiverPass` traces and the pool only shrinks |
| Rivers.Run | geo_rivers.py:339-381 | the level loop terminates; a table without coast aborts on the NULL terminal; every row the run adds is an axis candidate or a Mouth |
| Roads.NearestRoad | geo_roads.py:33-41 | the first row of `ORDER BY ST_Distance` is a road within EPS at least distance, and none only when no road is in range |
| Roads.NearestVertex | geo_roads.py:49-52 | the vertex chosen is a nearest one, the first of them on a tie |
| Roads.SnapTouches | geo_roads.py:119-128 | a snapped road passes through the town, with one vertex moved and the rest kept |
| Roads.SnapTown | geo_roads.py:110-133 | the town loop snaps the nearest road when it is in range but not touching, at most once; otherwise nothing changes |
| Roads.SnapTowns | geo_roads.py:105-133 | the town loop is a chain of tables, each town taking one to the next as `TownSnapped` says; only road vertices move, and every name, type, style and vertex count stays |
| Roads.SnappedShape | geo_roads.py:119-128 | a snap keeps every key, name, type, style and vertex count and changes only a road |
| Roads.TownsSnappedMore | geo_roads.py:105-133 | the town chain extends by one town |
| Roads.JoinedShape | geo_roads.py:45-54 | only the chosen endpoint moves, onto a vertex of the other road that is nearest to the old endpoint |
| Roads.Connect | geo_roads.py:31-54 | `connect` acts exactly when another road is in range but not touching; then only the own road's endpoint moves, onto the nearest road's nearest vertex (`EndJoined`) |
| Roads.JoinedRows | geo_roads.py:45-54 | a join keeps every key and every row but the own one, whose ends alone may move |
| Roads.ConnectBoth | geo_roads.py:141-145 | one road is joined at its start and then at its end, through an intermediate table (`RoadJoined`); only that road's two endpoints change |
| Roads.ConnectRoads | geo_roads.py:135-145 | roads are joined in id order as a chain of `RoadJoined` steps with endpoints read before the loop; the loop aborts exactly when some road has no points, at the first such road; only road endpoints move |
| Roads.RoadsJoinedMore | geo_roads.py:135-145 | the road chain extends by one road |
| Roads.Run | geo_roads.py:56-147 | the roads healed are the pruned ROADS rows in id order; the run aborts exactly when one does not heal or a healed road has no points; a finished run is the town chain then the road chain from the healed table, keeps names and types, adds no row, deletes exactly the pathological lines and touches only roads |
| Vegetation.ContainsLike | geo_vegetation.py:58 | a type that contains the class name literally matches its LIKE pattern |
| Vegetation.RawRegion | geo_vegetation.py:55-60 | a class's raw region is the union of the polygons of its lines with more than 3 points, each closed at its start |
| Vegetation.Raws | geo_vegetation.py:53-61 | there is one raw region per class, in priority order |
| Vegetation.UnionOfMembers | geo_vegetation.py:70-71 | a point is in the union exactly when it is in one of the regions |
| Vegetation.ReducedBounds | geo_vegetation.py:63-73 | a reduced region lies inside its raw region and shares no point with a later class's raw region |
| Vegetation.ReducedDisjoint | geo_vegetation.py:63-73 | the reduced regions of two classes never overlap |
| Vegetation.ReducedLast | geo_vegetation.py:66 | the last class is never reduced |
| Vegetation.ReducedCovers | geo_vegetation.py:63-73 | a point ends in the reduced region of the last class that covers it |
| Vegetation.Reduce | geo_vegetation.py:65-73 | the inner loop leaves class i's raw region minus every later raw region |
| Vegetation.PolygonAreasMembers | geo_vegetation.py:82-87 | exactly the polygon pieces of the dump are inserted, each typed `VEG/{class}` |
| Vegetation.OutputAreas | geo_vegetation.py:63-87 | every area inserted is a polygon piece of some class's reduced region, typed with that class |
| Vegetation.NumberedAt | geo_vegetation.py:83-84 | the k-th row inserted has id `serial + k` and name `-` |
| Vegetation.Polys.Append | geo_vegetation.py:82-87 | an INSERT ... SELECT appends its rows after the existing ones |
| Vegetation.CollectRaw | geo_vegetation.py:53-61 | the set-up loop yields each class's raw region and notices a class without lines |
| Vegetation.Normalize | geo_vegetation.py:63-87 | each class is reduced by all later ones and its polygon pieces are inserted with consecutive ids |
| Vegetation.Run | geo_vegetation.py:10-89 | a class without lines aborts before any insert; otherwise the inserted rows are the numbered polygon pieces of the reduced regions |
| SvgTransform.ComposeApply | svg2geo.py:89-94 | the product applies the later matrix first: `(m · m1)(p) == m(m1(p))` |
| SvgTransform.ComposeIdentity | svg2geo.py:89-94 | composing with the identity leaves a matrix unchanged, on either side |
| SvgTransform.Effective | svg2geo.py:53-88 | the operations that take effect are those before the first unknown one |
| SvgTransform.Attr2TransformApplies | svg2geo.py:49-95 | the matrix applies every effective operation to a point, right to left |
| SvgTransform.UnknownStops | svg2geo.py:87-88 | everything from the first unknown operation on is ignored |
| SvgTransform.SingleOps | svg2geo.py:487-499 | `scale(2,3)`, `scale(2)`, `matrix(2 3 4 5 6 7)`, `translate(2 3)`, `translate(2)` and unknown text give the matrices the script's assertions expect |
| SvgTransform.SingleOp | svg2geo.py:49-95 | an attribute of one known operation is that operation's matrix |
| SvgTransform.DigitsScan | svg2geo.py:38 | scanned from the right, a run of decimal digits in front of digits already read adds its place value to them |
| SvgTransform.DigitsNumber | svg2geo.py:38 | a non-empty string of decimal digits matches `NUM1` and reads as its decimal value |
| SvgTransform.LongestSplit | svg2geo.py:38-39 | the split `NUM2` matches with leaves a number on both sides |
| SvgTransform.LongestSplitLongest | svg2geo.py:38-39 | no first number longer than the one `NUM2` matches leaves a second number after it, as the backtracking of `re.match` tries longer first numbers first |
| SvgTransform.AsWrittenReads | svg2geo.py:61-77 | the script reads two numbers exactly when the argument splits into two, and one number exactly when it does not split but is one number |
| SvgTransform.IntendedReads | svg2geo.py:61-77 | as SVG means it, the argument reads as one number exactly when it is one number, as `NUM2` splits it otherwise, and fails exactly where the script's reading fails |
| SvgTransform.SplitsBeforeLast | svg2geo.py:38-39 | an argument of two or more digits does not split after its last digit and does split before it |
| SvgTransform.AsWrittenSplitsDigits | svg2geo.py:61-63 | the script splits every argument of two or more digits before its last digit |
| SvgTransform.ReadDigits | svg2geo.py:61-67 | a digit string reads as one number, and `translate` of it moves the origin by that number along x |
| SvgTransform.TranslateTen | svg2geo.py:61-63 | `translate(10)` is `[1, 0, 0, 1, 1, 0]` as the script reads it and `[1, 0, 0, 1, 10, 0]` as meant |
| SvgTransform.ScaleTen | svg2geo.py:71-73 | `scale(10)` is `scale(1, 0)` as the script reads it, which flattens every point, and `[10, 0, 0, 1, 0, 0]` as meant |
| SvgTransform.TranslateTwelveHalf | svg2geo.py:61-63 | `translate(12.5)` reads as `(12, 0.5)` in the script and as one number `12.5` as meant |
| Svg.GetDataName | svg2geo.py:103-105 | the name is `data-name` when present, else the `id`, else `-` |
| Svg.GetHref | svg2geo.py:97-101 | a known linked symbol's name replaces the type; otherwise the type stays |
| Svg.Writer.constructor | svg2geo.py:17-19 | the counter starts with nothing written |
| Svg.Writer.IncSid | svg2geo.py:20-23 | `inc_sid` adds one to the counter and writes nothing |
| Svg.Writer.IdsIncrease | svg2geo.py:20-27 | ids are strictly increasing in write order, so none is reused |
| Svg.Writer.WriteLine | svg2geo.py:324-329 | a line record gets the next id, above every earlier one |
| Svg.Writer.WritePolygon | svg2geo.py:348-351 | a polygon record gets the next id, above every earlier one |
| Svg.Writer.WritePoint | svg2geo.py:135-139 | a point record gets the next id, above every earlier one |
| Svg.PairsShape | svg2geo.py:339-344 | coordinates are read in pairs, the k-th point from tokens 2k and 2k+1; an odd last token is ignored; the list reads exactly when those tokens are numbers |
| Svg.PairUp | svg2geo.py:339-344 | the pair loop reads what `PairsShape` describes |
| Svg.ParsePolygon | svg2geo.py:331-353 | a polygon is written only with at least 2 points, placed by the element's matrix; a missing or non-numeric list aborts, and so does a ring of fewer than 4 coordinates once closed (`ShortRing`, shapely's ValueError) |
| Svg.RingSize | svg2geo.py:345-346 | closing the ring adds the first point again unless the last point already equals it |
| Svg.RingSmall | svg2geo.py:345-346 | 2 points never make a ring; 3 points make one exactly when the first and last differ; 4 or more always do |
| Svg.ReadPoints | svg2geo.py:363-379 | a polyline's pairs, or a line's two ends, placed by the element's matrix |
| Svg.ParseLine | svg2geo.py:355-390 | a line is written only with at least 2 points, with its class's style; an unknown class or a bad coordinate aborts |
| Svg.WalkShape | svg2geo.py:167-175 | a relative command moves the current point by the sum of its offsets and appends one point per offset |
| Svg.PathCommands | svg2geo.py:153-204 | `M` sets the current point and the subpath start; `Z` appends the start, hands the line over and starts a new one; `L`, `H` and `V` append the new point |
| Svg.RelativeCommands | svg2geo.py:167-199 | `l`, `h` and `v` add their offsets to the current point, one vertex per offset |
| Svg.XOffsetsStayLevel | svg2geo.py:193-199 | `h` moves only along x |
| Svg.FoldKeepsClosed | svg2geo.py:151-204 | the dispatch only adds lines after those already handed over |
| Svg.LongMembers | svg2geo.py:322 | `out_line` keeps exactly the lines with at least 2 points |
| Svg.LineRecsAt | svg2geo.py:322-329 | the k-th line written carries the k-th long line, its length and the k-th next id |
| Svg.OutLine | svg2geo.py:320-329 | a line of at least 2 points is written with its class's style, an unknown class aborts, and a shorter line is dropped |
| Svg.WalkBy | svg2geo.py:167-175 | the `l` loop appends each offset's point |
| Svg.WalkH | svg2geo.py:193-199 | the `h` loop moves only x |
| Svg.WalkV | svg2geo.py:181-187 | the `v` loop moves only y |
| Svg.Exec | svg2geo.py:153-199 | one command updates the path variables as the dispatch says |
| Svg.HandOver | svg2geo.py:200-204 | handing over one more line writes it when it is long; an unknown class aborts at the first long line |
| Svg.Dispatch | svg2geo.py:151-318 | every `Z` and the end of the path hand a line to `out_line`, in order |
| Svg.ParsePath | svg2geo.py:141-318 | exactly the long lines of the path are written, in order, with consecutive ids; a missing `d` or an unknown class aborts |
| Styles.Key | svg2geo.py:408 | a key is its token without one trailing comma; an empty token raises |
| Styles.KeysOfShape | svg2geo.py:408 | the keys read exactly when no token is empty, and the k-th key comes from the k-th token |
| Styles.KeysExample | svg2geo.py:407-408 | `.a, .b {` names the classes `.a` and `.b` |
| Styles.Extend | svg2geo.py:417-420 | a value is appended to the style of the key's class, which is created when new; other classes stay |
| Styles.StoreExtends | svg2geo.py:416-420 | storing a value adds the keys' classes and only lengthens styles; classes not named stay |
| Styles.StoreOnce | svg2geo.py:417-420 | a class named once gets the value appended once |
| Styles.ParseLineGrows | svg2geo.py:403-420 | one line only adds classes or appends to styles |
| Styles.ParseLinesGrows | svg2geo.py:400-420 | the style text only adds classes and appends to styles, whether or not a line fails |
| Styles.NoKeysNoChange | svg2geo.py:413-420 | a value line before any `.` line changes nothing |
| Styles.StyleSheet.constructor | svg2geo.py:29 | the table starts with `-` mapped to `-` |
| Styles.StyleSheet.StoreValue | svg2geo.py:416-420 | the value loop appends the line to each current key's class |
| Styles.StyleSheet.ParseStyle | svg2geo.py:400-420 | `parse_style` leaves the table the line loop computes, only ever grown; an empty class token aborts |
| Styles.StyleSheet.ParseStep | svg2geo.py:403-420 | one line of the loop does to the keys and the table what `ParseLine` says; a failing line leaves the table as it was |

## Left out

- The PostGIS and SFCGAL calls are fields of `Engine`, not implementations. Every property that needs more than their types names its assumption as a precondition (`MergeSettles`, `MergeSorted`, `MergeIdempotent`, `LineDistNonNegative`, `VertexOnLine`, `RemoveRepeatedKeepsPoints`). The healers' termination rests on `MergeSettles`. It lets a first merge split crossing lines into more pieces than its bag had, but a merge whose kept pieces split again on the next round is outside the model.
- The database connection, argument parsing, SQL text assembly, `print` output, the count queries and the commit are I/O and are not modelled.
- An `Abort` leaves the table as the statements before the exception left it. The rollback of the uncommitted transaction that follows in the database is not modelled.
- The `errorneous fix` warning of both `label_rings` (geo_elevation.py:97-98, geo_lakes.py:31-33) is a print and is not modelled. The rows it reports on are proved unchanged.
- A selection without `ORDER BY` is scanned in id order. Ties in `ORDER BY … LIMIT 1` go to the first row in scan order. PostgreSQL leaves both unspecified.
- Elevation.Matched: when several label groups lie within EPSP of a contour, `UPDATE … FROM` uses an unspecified one of the joined rows; the model takes the nearest.
- Hard-coded geography is an input of the runs:
  - the Melderyn Isle ring and the lake-boundary bag (geo_coast.py:174-202);
  - the named lakes and their inner points (geo_coast.py:204-205);
  - the main-Harn ring (geo_coast.py:215-228).
- Input tables the scripts read are parameters, not modelled queries:
  - the town, mine and city points that `_pts` selects (geo_roads.py:100-103) are the `towns` of `Roads.Run`;
  - the contour script's points table is the `pts` of `Elevation.Run`.
- Text.ParseInt: reads only an optional sign and ASCII digits. Python's `int()` also accepts surrounding whitespace, `_` between digits and non-ASCII decimal digits; a label written that way aborts in the model where the script reads it.
- The river test fixture and its checks (geo_rivers.py:147-331, 386-413) depend on real geometry and are not modelled.
- geo_vegetation.py's commit is commented out (geo_vegetation.py:89), so its inserts are rolled back when the session ends. The model shows the rows the session inserts. Regions are point sets, and `ST_MakeValid(ST_MakePolygon(…))` is the engine's `region`.
- The projection in `transform` (svg2geo.py:43-47) is floating-point arithmetic over the map's extent and is left out. Points are placed by the affine matrix alone.
- `rotate` is given by the cosine and sine of its angle. Computing them, and the rotate assertions (svg2geo.py:500-512), need floating point and are left out.
- The regular expressions are modelled only for the argument of `translate(…)` and `scale(…)` (`SvgTransform.Num1`, `SvgTransform.ReadArgs`), whose decimal text is read as an exact real, without `float`'s rounding. Elsewhere:
  - a `transform` attribute is given as its sequence of operations. Splitting the attribute into operations, the `\s*` and `re.sub` that drop each one, and the arguments of `matrix(…)` (`NUM6`) and `rotate(…)` are not modelled. Its `Translate` and `Scale` operations carry what `ReadArgs` reads;
  - a path's `d` is the sequence of commands it holds;
  - `float()` is a parameter `num` that may fail.
- The Bézier flattening of `c`, `s`, `C`, `q` and `t` (svg2geo.py:205-314) is floating point. A curve command carries its flattened points, its end point and its reflection point as given.
- The copy-symbol special path (svg2geo.py:206-218) is left out.
- `parse_point`, `parse_symbol`, `parse` and `main` of svg2geo.py are not part of this model. The `SYMBOLS` table is a parameter.
- `text.splitlines()` is modelled as a split on `\n` only.
- The three output files are one log of records, written in order; each file is the records of its kind.
- Elevation.ConnectHeights: states which open contours are visited or deleted, that only those rows change and that labels stay. It does not compose the joins made for each contour; `Connector.ConnectAll` states those visit by visit (`Runs`).
- Elevation.LabelTops: states which top rings are visited and that no row is added or removed, not the labels left; `Elevation.LabelRings` states those for each pass.
- Lakes.LabelTops: states which top rings are visited and that no row is added or removed, not the labels left; `Lakes.LabelRings` states those for each pass.
- Elevation.Run: states only that no row is added and two abort cases (a contour that does not heal, labels that give no VALUES list). It does not compose the steps into one end-to-end contract; each step's own contract states that step.
- Lakes.Run: states only that no row is added and when the run aborts at once; each step's own contract states the rest.
- Coast.Run: states the end state of the relabel and the clean-up and two abort cases. It does not compose the healing, connecting and lake-extraction steps into one end-to-end contract; `Healer.ValidateAll`, `Connector.ConnectAll` and `Coast.PolyShrink` state those steps separately.
- Rivers.HandleLakes: states that the pool never grows and that only tracer rows are added, not the per-lake effect, which `Rivers.HandleLake` states.
- Rivers.Run: states termination, the abort on a missing coast and the kind of every added row. It does not compose the levels into one trace; `Rivers.Round` states each level as two `RiverPass` traces, and `Rivers.HandleLake` states each lake.

## Findings

| source | as written | input that shows it | evidently intended | confidence | as-written member | corrected member |
|---|---|---|---|---|---|---|
| svg2geo.py:61-73 | `translate(…)` and `scale(…)` try the two-number pattern `NUM2` first. Every separator of `NUM1` (svg2geo.py:38) is optional, so a one-number argument of two or more characters splits into two numbers | `translate(10)` reads as `(1, 0)`; `scale(10)` reads as `(1, 0)`, which flattens every point onto the x axis; `translate(12.5)` reads as `(12, .5)` | one number is `tx` with `ty` 0, or `sx` with `sy` 1, as the script's own `translate(2)` and `scale(2)` assertions (svg2geo.py:490, 499) expect | not executed | SvgTransform.ReadArgsAsWritten, SvgTransform.TranslateTen | SvgTransform.ReadArgs, SvgTransform.ReadDigits |

The `Translate` and `Scale` operations the rest of the model takes are those `ReadArgs` reads.
