# Bang! Howdy board, action scheduler and rank tables in Dafny

This project models the core of the game logic and client display of
*Bang! Howdy*, a turn-based western strategy game: its board, how the
client schedules animations, how the server computes player ranks, and
two piece types plus the render queue they pass through on screen.

- **Board** (`BangBoard`) holds the board as mutable state. That state is:
  - a heightfield;
  - terrain, shadow and tile-state grids;
  - the play area.

  Heights, terrain and shadows are read and written with the byte clamping
  and `(byte)` narrowing of Java. Pieces are shadowed onto the tile grid.
  Moves are computed by a cost-bounded flood fill, attacks by distance
  rings, and the predominant terrain by a tally. The flood-fill theory
  (termination, one step of spreading, proof that it reaches exactly the
  tiles a walk within budget can reach) is in module **Flood**.
- **BoardActions** is the client's board-action scheduler. It covers:
  - action bounds and reserved units;
  - the pending and executing queues;
  - submission, dispatch, completion and stuck detection;
  - the resolving queue.

  The lemmas prove:
  - no running action shares a unit or overlaps the bounds of another;
  - actions that conflict run in submission order;
  - each action completes at most once.
- **Ratings** is the server's rank computation. It covers:
  - the rank thresholds;
  - the sparse histogram of ratings and its dense and compacted forms;
  - the cumulative percentile scan that fixes each rank's minimum rating;
  - loading stored rank rows grouped per scenario.
- **Props** is the prop piece. It covers:
  - fine positioning: the tile from the fine coordinate, and the byte offset within it;
  - elevation clamped to a byte;
  - the six-byte persistence format, with its round trip;
  - the rewrite of legacy type names;
  - scenario filtering.
- **Tracks** is train-track connectivity for each track type, and the overlap rules.
- **RenderQueues** is the render queue's buckets. It covers:
  - the growable scene-element list with its insertion sort;
  - bucket routing and swapping;
  - the orthographic comparator, including its overflow.
- **JavaValues** gives Java's `int`, `byte` and truncating division and
  remainder on unbounded integers. **AwtRect** gives `java.awt.Rectangle`
  intersection, and **Pieces** gives the parts of a piece that the core reads.

State the source changes in place is kept in classes with `modifies` frames:

- `BangBoard`;
- `BoardView` and `BoardAction`;
- `Prop`;
- `SparseHistogram` and `RankLevels`;
- `SceneElementList` and `RenderQueue`.

Code that is an expression is kept as functions and lemmas.

Abbreviations in the table:

- BB is `src/java/com/threerings/bang/game/data/BangBoard.java`.
- BV is `src/java/com/threerings/bang/game/client/BoardView.java`.
- RR is `src/java/com/threerings/bang/server/persist/RatingRepository.java`.
- PR is `src/java/com/threerings/bang/game/data/piece/Prop.java`.
- TR is `src/java/com/threerings/bang/game/data/piece/Track.java`.
- RQ is `jme/src/main/java/com/jme/renderer/RenderQueue.java`.

The source column always gives the full path.

## Model

| member | source | states |
|---|---|---|
| JavaValues.ClampByte | src/java/com/threerings/bang/game/data/piece/Prop.java:207-211 | the result lies in the byte range; it equals the input when the input fits, and equals the nearer bound otherwise |
| JavaValues.ToByte | src/java/com/threerings/bang/game/data/piece/Prop.java:199-202 | a `(byte)` cast: the result is a byte congruent to the input modulo 256, and equal to it when it fits |
| JavaValues.Wrap32 | jme/src/main/java/com/jme/renderer/RenderQueue.java:429-431 | Java `int` arithmetic: the result is in the 32-bit range, congruent modulo 2^32, and unchanged when in range |
| JavaValues.JavaDiv | src/java/com/threerings/bang/game/data/piece/Prop.java:197-202 | Java `/`: the quotient truncates toward zero, so its product with the divisor is within one divisor of the dividend without exceeding it in size; it is non-negative when the operands agree in sign and non-positive otherwise, its size is the quotient of the sizes, and on non-negative operands it is ordinary division |
| JavaValues.JavaRem | src/java/com/threerings/bang/game/data/piece/Prop.java:197-202 | Java `%`: recombines with JavaDiv to the dividend, is smaller than the divisor in size, and a non-zero remainder has the sign of the dividend |
| AwtRect.IntersectsIffSharedTile | src/java/com/threerings/bang/game/client/BoardView.java:158-163 | two rectangles intersect exactly when some tile lies in both |
| AwtRect.IntersectsSymmetric | src/java/com/threerings/bang/game/client/BoardView.java:158-163 | intersection does not depend on argument order |
| AwtRect.Contains | src/java/com/threerings/bang/game/data/BangBoard.java:744 | an empty rectangle contains no tile |
| AwtRect.Intersects | src/java/com/threerings/bang/game/client/BoardView.java:158-163 | intersecting rectangles share the tile at the larger of their left edges and the larger of their top edges |
| Tracks.ComputeOrientation | src/java/com/threerings/bang/game/data/piece/Track.java:114-119 | a track keeps its orientation wherever it is placed |
| Tracks.ConnectedDirections | src/java/com/threerings/bang/game/data/piece/Track.java:77-97 | every direction a track connects in is one of the four compass directions |
| Tracks.ConnectedOnlyToNeighbours | src/java/com/threerings/bang/game/data/piece/Track.java:77-112 | a track is connected only to tiles at distance one |
| Tracks.ConnectedNeighbours | src/java/com/threerings/bang/game/data/piece/Track.java:77-112 | a track connects to its neighbour in a direction exactly when the direction is listed for its type: none for a singleton or unknown type; its orientation for a terminal; that and the opposite for a straight; all but its orientation for a T-junction; all four for an X-junction; its orientation and the next for a turn |
| Tracks.ConnectionCounts | src/java/com/threerings/bang/game/data/piece/Track.java:79-96 | singleton, terminal, straight, T, X and turn tracks have 0, 1, 2, 3, 4 and 2 connections |
| Tracks.StraightIgnoresFacing | src/java/com/threerings/bang/game/data/piece/Track.java:85-87 | a straight track connects to the same tiles whichever of its two opposite orientations it has |
| Tracks.OverlapRules | src/java/com/threerings/bang/game/data/piece/Track.java:56-70 | trains and airborne pieces are never blocked by track; any other piece is blocked exactly by singleton and terminal track |
| Props.Encode | src/java/com/threerings/bang/game/data/piece/Prop.java:92-103 | the fine fields take exactly six bytes |
| Props.Decode | src/java/com/threerings/bang/game/data/piece/Prop.java:105-116 | decoding succeeds exactly when six bytes remain at the read position |
| Props.DecodeEncode | src/java/com/threerings/bang/game/data/piece/Prop.java:92-116 | the fine fields written after any prefix read back unchanged, whatever follows |
| Props.EncodeDecode | src/java/com/threerings/bang/game/data/piece/Prop.java:92-116 | any six bytes decode to fields that encode back to the same bytes |
| Props.FineSplit | src/java/com/threerings/bang/game/data/piece/Prop.java:197-202 | a non-negative fine coordinate splits into a tile and a signed byte offset that recombine to it |
| Props.NegativeFineWraps | src/java/com/threerings/bang/game/data/piece/Prop.java:197-202 | at coordinate -1, Java's truncation gives tile 0 and offset 127, which recombine to 255, not -1 |
| Props.FineTile | src/java/com/threerings/bang/game/data/piece/Prop.java:199 | the truncating quotient by 256: ordinary division for non-negative coordinates, and 256 times it is within 256 of the coordinate without exceeding it in size |
| Props.FineOffset | src/java/com/threerings/bang/game/data/piece/Prop.java:200-201 | for a non-negative coordinate, the remainder modulo 256 less 128 |
| Props.LegacyTypeRewrite | src/java/com/threerings/bang/game/data/piece/Prop.java:49-55 | a building type outside the frontier and indian directories moves under `buildings/frontier_town/`, and dropping that directory gives it back; any other type is unchanged |
| Props.LegacyTypeIdempotent | src/java/com/threerings/bang/game/data/piece/Prop.java:49-55 | rewriting an already rewritten type changes nothing |
| Props.Prop.constructor | src/java/com/threerings/bang/game/data/piece/Prop.java:223-230 | a new prop has its config, no position and all fine fields zero |
| Props.Prop.UpdatePosition | src/java/com/threerings/bang/game/data/piece/Prop.java:213-218 | sets the tile and clears the fine x, y and elevation; the other fine fields are unchanged |
| Props.Prop.PositionFine | src/java/com/threerings/bang/game/data/piece/Prop.java:193-202 | the tile and offset are split from the fine coordinates and recombine to them when non-negative; elevation is cleared and the rotation is kept |
| Props.Prop.Elevate | src/java/com/threerings/bang/game/data/piece/Prop.java:204-211 | the fine elevation becomes the byte clamp of the Java int sum, which is the plain sum clamped when no overflow occurs |
| Props.Prop.Rotate | src/java/com/threerings/bang/game/data/piece/Prop.java:185-191 | a rotation always succeeds and clears the fine orientation, pitch and roll |
| Props.Prop.PersistTo | src/java/com/threerings/bang/game/data/piece/Prop.java:92-103 | appends the six-byte encoding of the fine fields, and that encoding reads back unchanged |
| Props.Prop.UnpersistFrom | src/java/com/threerings/bang/game/data/piece/Prop.java:105-116 | succeeds exactly when six bytes remain, and then reads the fine fields and moves past them; on a short stream the fields read so far are assigned and the rest keep their old values |
| Props.ValidScenarios | src/java/com/threerings/bang/game/data/piece/Prop.java:163-171 | a prop with a scenario is valid exactly in that scenario and in the tutorial |
| Props.GetProp | src/java/com/threerings/bang/game/data/piece/Prop.java:44-76 | null exactly when the rewritten type has no config; otherwise a fresh prop with that config and zero fine fields |
| RenderQueues.OrthoCompareIntended | jme/src/main/java/com/jme/renderer/RenderQueue.java:427-431 | negative exactly when the first element has the higher Z order, positive exactly when it has the lower |
| RenderQueues.OrthoCompare | jme/src/main/java/com/jme/renderer/RenderQueue.java:429-431 | the Z-order difference wrapped to a Java int: equal to it when it fits, and congruent to it modulo 2^32 always |
| RenderQueues.OrthoCompareAgrees | jme/src/main/java/com/jme/renderer/RenderQueue.java:427-431 | when the Z-order difference fits in an int, the comparison as written has the intended sign |
| RenderQueues.OrthoCompareOverflows | jme/src/main/java/com/jme/renderer/RenderQueue.java:427-431 | for Z orders Integer.MIN_VALUE and 0, the comparison as written says each element comes before the other |
| RenderQueues.OrthoKeyMatchesIntended | jme/src/main/java/com/jme/renderer/RenderQueue.java:427-431 | the key ordering the sort uses for the ortho bucket agrees with the intended comparison for all pairs |
| RenderQueues.OrthoSortedAsWritten | jme/src/main/java/com/jme/renderer/RenderQueue.java:427-431 | when all Z-order differences of a bucket fit in an int, sorted by the ortho key exactly when the comparator as written is at most zero on every earlier-later pair |
| RenderQueues.Insert | jme/src/main/java/com/jme/renderer/RenderQueue.java:340-354 | inserting into a sorted list keeps it sorted and adds exactly that element |
| RenderQueues.SortByKey | jme/src/main/java/com/jme/renderer/RenderQueue.java:340-354 | the result is sorted by the bucket's intended order and is a permutation of the input |
| RenderQueues.SceneElementList.constructor | jme/src/main/java/com/jme/renderer/RenderQueue.java:308-312 | a new list is empty, with a backing array of 32 slots |
| RenderQueues.SceneElementList.Grow | jme/src/main/java/com/jme/renderer/RenderQueue.java:320-325 | the backing array doubles and the contents are unchanged |
| RenderQueues.SceneElementList.Add | jme/src/main/java/com/jme/renderer/RenderQueue.java:314-327 | the element is appended to the contents, growing the array when it is full |
| RenderQueues.SceneElementList.Clear | jme/src/main/java/com/jme/renderer/RenderQueue.java:329-338 | every used slot is nulled and the list becomes empty |
| RenderQueues.SceneElementList.CopyToTemp | jme/src/main/java/com/jme/renderer/RenderQueue.java:345-350 | the scratch array holds the contents, and is reallocated when its length differs from the list's |
| RenderQueues.SceneElementList.WriteBack | jme/src/main/java/com/jme/renderer/RenderQueue.java:351-352 | the list's array takes the given sorted elements |
| RenderQueues.SceneElementList.Sort | jme/src/main/java/com/jme/renderer/RenderQueue.java:340-354 | afterwards the contents are sorted by the bucket's intended order and are a permutation of the old contents; a list of at most one element is unchanged |
| RenderQueues.RenderQueue.constructor | jme/src/main/java/com/jme/renderer/RenderQueue.java:127-137 | all six buckets start empty |
| RenderQueues.RenderQueue.AddToQueue | jme/src/main/java/com/jme/renderer/RenderQueue.java:139-167 | succeeds exactly when the bucket type routes to a bucket, and then appends the element to that front bucket only; otherwise nothing changes |
| RenderQueues.RenderQueue.ClearBuckets | jme/src/main/java/com/jme/renderer/RenderQueue.java:193-200 | the three front buckets become empty and the back ones are kept |
| RenderQueues.RenderQueue.SwapBuckets | jme/src/main/java/com/jme/renderer/RenderQueue.java:202-217 | each front bucket trades places with its back bucket |
| RenderQueues.Route | jme/src/main/java/com/jme/renderer/RenderQueue.java:153-167 | opaque, transparent and ortho types go to their own bucket; skip and inherit put nothing anywhere |
| RenderQueues.Swapped | jme/src/main/java/com/jme/renderer/RenderQueue.java:205-217 | the buckets after a front/back swap |
| RenderQueues.SwapInvolution | jme/src/main/java/com/jme/renderer/RenderQueue.java:205-217 | swapping twice restores every bucket |
| RenderQueues.AddTouchesFrontOnly | jme/src/main/java/com/jme/renderer/RenderQueue.java:153-167 | adding an element never changes a back bucket |
| Ratings.RankPercentagesIncrease | src/java/com/threerings/bang/server/persist/RatingRepository.java:643-648 | the seven rank percentages increase strictly and stay below 100 |
| Ratings.CountAtMost | src/java/com/threerings/bang/server/persist/RatingRepository.java:49-56 | the number of thresholds a rating reaches, which is at most the number of thresholds |
| Ratings.CountSplit | src/java/com/threerings/bang/server/persist/RatingRepository.java:49-56 | in sorted thresholds, the count is the index of the first threshold above the rating |
| Ratings.CountMonotone | src/java/com/threerings/bang/server/persist/RatingRepository.java:49-56 | a higher rating never gets a lower count |
| Ratings.RankLevels.constructor | src/java/com/threerings/bang/server/persist/RatingRepository.java:44-61 | a scenario with a fresh array of seven levels, all zero |
| Ratings.RankLevels.GetRank | src/java/com/threerings/bang/server/persist/RatingRepository.java:49-56 | the rank is the highest one whose threshold the rating reaches with no higher threshold reached; for nondecreasing thresholds it is the number of thresholds reached |
| Ratings.InsertTuple | src/java/com/threerings/bang/server/persist/RatingRepository.java:619-628 | inserting into a strictly ascending list keeps it ascending and adds exactly that tuple |
| Ratings.SortTuples | src/java/com/threerings/bang/server/persist/RatingRepository.java:619-628 | the tuples come out strictly ascending by rating, as a permutation with the same total count |
| Ratings.IncrementCounts | src/java/com/threerings/bang/server/persist/RatingRepository.java:588-591 | adding a value raises its count by one and leaves every other count alone |
| Ratings.WidenRange | src/java/com/threerings/bang/server/persist/RatingRepository.java:593-598 | after widening with a new value, the min and max still bound all values |
| Ratings.BucketsCount | src/java/com/threerings/bang/server/persist/RatingRepository.java:588-591 | the bucket map built by adding the values holds exactly each value's count |
| Ratings.RangeOf | src/java/com/threerings/bang/server/persist/RatingRepository.java:576-598 | the running min and max are the least and greatest value added |
| Ratings.SparseHistogram.constructor | src/java/com/threerings/bang/server/persist/RatingRepository.java:574-583 | a new histogram holds no values |
| Ratings.SparseHistogram.AddValue | src/java/com/threerings/bang/server/persist/RatingRepository.java:585-599 | the value is counted, the total grows by one, and the min and max take it in |
| Ratings.SparseHistogram.GetBuckets | src/java/com/threerings/bang/server/persist/RatingRepository.java:601-612 | the dense array has the Java-int length max-min+1, and None when that length is negative; each slot holds the count of its value; an empty histogram gives [0, 0] |
| Ratings.SparseHistogram.CollectBuckets | src/java/com/threerings/bang/server/persist/RatingRepository.java:621-625 | the tuples collected are exactly the values present, each with its count |
| Ratings.SparseHistogram.GetFilledBuckets | src/java/com/threerings/bang/server/persist/RatingRepository.java:614-628 | strictly ascending tuples, one for each value present, each with its positive count, summing to the total; the result is the reference filled table of the values added |
| Ratings.Filled | src/java/com/threerings/bang/server/persist/RatingRepository.java:614-628 | the reference filled table, built one value at a time, is strictly ascending by value |
| Ratings.FilledTabulates | src/java/com/threerings/bang/server/persist/RatingRepository.java:614-628 | the reference table lists each value added exactly once, with the number of times it was added |
| Ratings.AscendingUnique | src/java/com/threerings/bang/server/persist/RatingRepository.java:614-628 | two strictly ascending tables holding the same tuples are the same list |
| Ratings.TabulatesUnique | src/java/com/threerings/bang/server/persist/RatingRepository.java:614-628 | a strictly ascending table of the values with their counts is unique |
| Ratings.IsFilled | src/java/com/threerings/bang/server/persist/RatingRepository.java:614-628 | any strictly ascending list of each value present with its count is the reference filled table |
| Ratings.FirstReaching | src/java/com/threerings/bang/server/persist/RatingRepository.java:338-347 | the first bucket whose cumulative count reaches the rank's percentage |
| Ratings.FirstReachingOrdered | src/java/com/threerings/bang/server/persist/RatingRepository.java:338-347 | a higher rank is first reached at the same bucket or a later one |
| Ratings.AllRanksReached | src/java/com/threerings/bang/server/persist/RatingRepository.java:338-347 | with positive counts summing to the user total, every rank is reached at some bucket |
| Ratings.WholeIsHundredPercent | src/java/com/threerings/bang/server/persist/RatingRepository.java:341 | the full user count is 100 percent of the users |
| Ratings.Pct | src/java/com/threerings/bang/server/persist/RatingRepository.java:341 | with players and a non-negative sum, the truncated percentage times the player count lies within one player count below a hundred times the sum; with no players, the extreme or zero value has the sign of the sum |
| Ratings.ComputeLevels | src/java/com/threerings/bang/server/persist/RatingRepository.java:329-347 | each rank's level is one more than the rating of its first reaching bucket, with that bucket's cumulative count, and zero when no bucket reaches it |
| Ratings.CalculateRanks | src/java/com/threerings/bang/server/persist/RatingRepository.java:301-347 | each of the seven levels is one above the first rating, in ascending order of the filled table, at which the running share of players reaches the rank's percentage, with the running count there as its total; a rank nothing reaches stays zero; with players every rank is reached, at a level one above a rating present and a positive running count; with none all levels are zero; the levels never decrease |
| Ratings.ScanOfFilled | src/java/com/threerings/bang/server/persist/RatingRepository.java:329-347 | levels chosen by the scan over the filled histogram are each one above a rating present, with positive running counts, all zero with no users, and never decreasing |
| Ratings.ReachedLevels | src/java/com/threerings/bang/server/persist/RatingRepository.java:338-347 | when every rank is reached, each level is one above a rating present, each running count is positive and the levels never fall |
| Ratings.AddRow | src/java/com/threerings/bang/server/persist/RatingRepository.java:259-264 | after one stored row the last group is the row's scenario; the earlier groups are kept, and the last one is continued when the scenario repeats |
| Ratings.GroupedUpTo | src/java/com/threerings/bang/server/persist/RatingRepository.java:254-265 | the groups built from a prefix of the rows, empty exactly for no rows |
| Ratings.GroupCount | src/java/com/threerings/bang/server/persist/RatingRepository.java:254-265 | there is one group per row whose scenario differs from the row before it, and the last group is the last row's scenario |
| Ratings.GroupsAlternate | src/java/com/threerings/bang/server/persist/RatingRepository.java:254-265 | adjacent entries never share a scenario |
| Ratings.StartLevels | src/java/com/threerings/bang/server/persist/RatingRepository.java:259-263 | appends a fresh entry for a new scenario and keeps the entries before it |
| Ratings.SetLevel | src/java/com/threerings/bang/server/persist/RatingRepository.java:264 | the entries hold the grouped levels with this row's rank set in the current scenario |
| Ratings.AddRowTo | src/java/com/threerings/bang/server/persist/RatingRepository.java:255-265 | the loaded list follows the grouped levels one row further |
| Ratings.LoadRanks | src/java/com/threerings/bang/server/persist/RatingRepository.java:239-270 | succeeds exactly when every row's rank is in range, and then the fresh entries hold the rows grouped by runs of a scenario |
| Board.Fill | src/java/com/threerings/bang/game/data/BangBoard.java:203-206 | every cell of the array holds the value |
| Board.ShadowByte | src/java/com/threerings/bang/game/data/BangBoard.java:216-231 | a shadow stored as its value less 128, narrowed to a byte, reads back as the value modulo 256 |
| Board.ShadowOnOwnTile | src/java/com/threerings/bang/game/data/BangBoard.java:592-628 | a piece that is not big changes only its own tile and nothing off the play area; there a bonus frees the tile, a train or unowned piece makes it a prop, and a unit marks it with its owner |
| Board.ClearUndoesShadow | src/java/com/threerings/bang/game/data/BangBoard.java:583-628 | a piece that is neither big nor blocking track leaves the base state and elevation alone, so clearing its shadow restores the tile |
| Board.OwnersPassThrough | src/java/com/threerings/bang/game/data/BangBoard.java:755-770 | on a tile a unit shadows, a piece passes on the ground exactly when it has that owner and the ground is flat; any piece passes a free flat tile |
| Board.RingSides | src/java/com/threerings/bang/game/data/BangBoard.java:853-878 | the four sides of the distance ring together are exactly the tiles at that distance |
| Board.BangBoard.constructor | src/java/com/threerings/bang/game/data/BangBoard.java:64-102 | the grids have the board sizes and the heightfield one vertex per sub-tile plus one, all zero; the water level is -128; the play area is inset by eight tiles on each side |
| Board.BangBoard.HeightfieldValue | src/java/com/threerings/bang/game/data/BangBoard.java:134-143 | inside the heightfield, the stored height; outside, the least height on the edge |
| Board.BangBoard.UpdateMinEdgeHeight | src/java/com/threerings/bang/game/data/BangBoard.java:149-162 | records the least height on the heightfield's edge |
| Board.BangBoard.SetHeightfieldValue | src/java/com/threerings/bang/game/data/BangBoard.java:167-170 | sets one vertex and nothing else |
| Board.BangBoard.AddHeightfieldValue | src/java/com/threerings/bang/game/data/BangBoard.java:174-179 | the vertex becomes the byte clamp of its height plus the delta, and nothing else changes |
| Board.BangBoard.TerrainValueClamps | src/java/com/threerings/bang/game/data/BangBoard.java:188-194 | inside the grid the lookup reads the sample; beyond one edge it reads the nearest edge sample; below both axes, the corner |
| Board.BangBoard.SetTerrainValue | src/java/com/threerings/bang/game/data/BangBoard.java:197-200 | sets one terrain sample and nothing else |
| Board.BangBoard.FillTerrain | src/java/com/threerings/bang/game/data/BangBoard.java:203-206 | every terrain sample takes the byte narrowing of the code |
| Board.BangBoard.ShadowValue | src/java/com/threerings/bang/game/data/BangBoard.java:216-224 | the stored byte read as unsigned, in 0 to 255; outside the grid, 0 |
| Board.BangBoard.SetShadowValue | src/java/com/threerings/bang/game/data/BangBoard.java:228-231 | the sample reads back as the value modulo 256, the value itself when it fits, and nothing else changes |
| Board.BangBoard.FillShadows | src/java/com/threerings/bang/game/data/BangBoard.java:234-237 | every shadow sample reads back as the value modulo 256 |
| Board.BangBoard.DeepWaterIsWater | src/java/com/threerings/bang/game/data/BangBoard.java:712-726 | a tile under water at a larger depth offset is under water at a smaller one |
| Board.BangBoard.IsUnderWaterLevel | src/java/com/threerings/bang/game/data/BangBoard.java:712-726 | true exactly when some vertex of the tile, edges included, lies below the water level less the offset |
| Board.BangBoard.IsUnderWater | src/java/com/threerings/bang/game/data/BangBoard.java:694-697 | true exactly when some vertex of the tile lies below the water level |
| Board.BangBoard.IsUnderDeepWater | src/java/com/threerings/bang/game/data/BangBoard.java:703-706 | true exactly when some vertex of the tile lies below the water level less the deep-water allowance |
| Board.BangBoard.ExceedsMaxHeightDelta | src/java/com/threerings/bang/game/data/BangBoard.java:668-688 | true exactly when some vertex of the tile differs by more than the allowed delta from its right, lower or diagonal neighbour |
| Board.BangBoard.OccupancyRelations | src/java/com/threerings/bang/game/data/BangBoard.java:742-794 | nothing outside the play area is occupiable; an occupiable tile can be occupied by any piece; flyers and trains can occupy exactly the play area; a tile under a prop is not occupiable, and of the player pieces only flyers and trains enter it; ground occupiable without rough ground implies occupiable with it |
| Board.BangBoard.IsGroundOccupiable | src/java/com/threerings/bang/game/data/BangBoard.java:742-750 | a ground-occupiable tile is on the board and its ground is flat or rough |
| Board.BangBoard.CanOccupy | src/java/com/threerings/bang/game/data/BangBoard.java:755-770 | a piece only occupies tiles on the board, and any piece can occupy an occupiable tile |
| Board.BangBoard.IsOccupiable | src/java/com/threerings/bang/game/data/BangBoard.java:776-782 | an occupiable tile is on the board and free |
| Board.BangBoard.IsUnderProp | src/java/com/threerings/bang/game/data/BangBoard.java:788-794 | a tile under a prop is on the board and is not occupiable |
| Board.BangBoard.CoverRow | src/java/com/threerings/bang/game/data/BangBoard.java:594-606 | marks one row of a big piece's bounds as a prop at elevation 2; other tiles are unchanged |
| Board.BangBoard.ShadowPiece | src/java/com/threerings/bang/game/data/BangBoard.java:592-628 | each tile's state, base state and elevation become those of the piece's shadow rule applied to the old values: big-piece bounds, track, bonus, train or unowned, owner |
| Board.BangBoard.ClearShadow | src/java/com/threerings/bang/game/data/BangBoard.java:583-587 | the piece's tile goes back to its base state and nothing else changes |
| Board.BangBoard.ShadeRow | src/java/com/threerings/bang/game/data/BangBoard.java:558-572 | one row of tiles takes its terrain's state in the tile and base grids |
| Board.BangBoard.SetBoth | src/java/com/threerings/bang/game/data/BangBoard.java:568-570 | one tile's state and base state take the value |
| Board.BangBoard.ShadowPieces | src/java/com/threerings/bang/game/data/BangBoard.java:555-577 | each tile ends as its terrain state folded through every piece's shadow, in order |
| Board.BangBoard.ConsiderMoving | src/java/com/threerings/bang/game/data/BangBoard.java:969-996 | one step of the flood: reachable neighbours gain the budget left, and the plan only grows |
| Board.BangBoard.ExpandNeighbours | src/java/com/threerings/bang/game/data/BangBoard.java:992-995 | after all four neighbours are considered the tile is closed: no neighbour can gain budget from it |
| Board.BangBoard.ConsiderFiring | src/java/com/threerings/bang/game/data/BangBoard.java:999-1028 | the plan only gains marks, and every new attack is an unmarked play-area tile within the fire range left from the tile |
| Board.BangBoard.ComputeMoves | src/java/com/threerings/bang/game/data/BangBoard.java:803-847 | the moves are exactly the tiles other than the start that hold no piece and are reachable within the move budget; there are no attacks unless asked for; each attack is a play-area tile, neither a move nor the start, within fire range of the start or a move |
| Board.BangBoard.SpreadMoves | src/java/com/threerings/bang/game/data/BangBoard.java:805-822 | the tiles found are exactly those other than the start that a walk within the move budget reaches, each marked in the plan |
| Board.BangBoard.ClearPath | src/java/com/threerings/bang/game/data/BangBoard.java:806 | the plan grid is zeroed |
| Board.BangBoard.MovesExact | src/java/com/threerings/bang/game/data/BangBoard.java:824-835 | the tiles the flood marks are exactly those reachable within budget |
| Board.BangBoard.PruneMoves | src/java/com/threerings/bang/game/data/BangBoard.java:824-835 | the moves are the found tiles holding no piece, and tiles holding a piece are unmarked in the plan |
| Board.BangBoard.FireFromAll | src/java/com/threerings/bang/game/data/BangBoard.java:837-846 | attacks come only from unmarked play-area tiles within fire range of the start or of a move |
| Board.BangBoard.ComputeAttacks | src/java/com/threerings/bang/game/data/BangBoard.java:853-878 | adds exactly the play-area tiles whose distance lies between the minimum and maximum fire distance, which excludes the piece's own tile |
| Board.BangBoard.AddRing | src/java/com/threerings/bang/game/data/BangBoard.java:856-877 | adds exactly the play-area tiles at the given distance |
| Board.BangBoard.TallyTile | src/java/com/threerings/bang/game/data/BangBoard.java:946-955 | the tally holds exactly the terrain samples under the tile |
| Board.BangBoard.TallyRow | src/java/com/threerings/bang/game/data/BangBoard.java:952-954 | adds the samples of one row to the tally |
| Board.BangBoard.ComputePredominantTerrain | src/java/com/threerings/bang/game/data/BangBoard.java:944-966 | the chosen code is among the tile's samples, and no code there is counted more often |
| Board.BangBoard.UpdatePredominantTerrainIn | src/java/com/threerings/bang/game/data/BangBoard.java:924-931 | every tile of the rectangle inside the board gets its predominant terrain, and the others are unchanged |
| Board.BangBoard.UpdatePredominantRow | src/java/com/threerings/bang/game/data/BangBoard.java:927-929 | one row of the rectangle gets its predominant terrain |
| Board.BangBoard.UpdatePredominantTerrain | src/java/com/threerings/bang/game/data/BangBoard.java:915-918 | every tile of the board gets its predominant terrain |
| Board.BangBoard.HeightfieldElevation | src/java/com/threerings/bang/game/data/BangBoard.java:643-649 | the height at the tile's centre vertex |
| Board.BangBoard.PieceElevation | src/java/com/threerings/bang/game/data/BangBoard.java:655-662 | a whole number of tile elevation units: the tile's elevation state, and 0 off the board |
| Board.BangBoard.Elevation | src/java/com/threerings/bang/game/data/BangBoard.java:634-637 | on the board, the height at the tile's centre vertex plus the tile's elevation state in elevation units; off it, only the heightfield height at the centre vertex, which off the grid is the minimum edge height |
| Flood.SpreadChain | src/java/com/threerings/bang/game/data/BangBoard.java:969-996 | successive spreading steps compose into one |
| Flood.RaiseThenSpread | src/java/com/threerings/bang/game/data/BangBoard.java:969-996 | raising one tile and then spreading from it is a spreading step |
| Flood.NeighboursClose | src/java/com/threerings/bang/game/data/BangBoard.java:969-996 | after every neighbour of the tile is considered, the tile is closed |
| Flood.PotentialGrowth | src/java/com/threerings/bang/game/data/BangBoard.java:969-996 | every raise strictly lowers the bounded potential, so the flood terminates |
| Flood.ClosedGridBoundsWalks | src/java/com/threerings/bang/game/data/BangBoard.java:969-996 | on a closed grid, every walk within budget ends at a tile marked at least its remaining budget |
| Flood.ReachedRaise | src/java/com/threerings/bang/game/data/BangBoard.java:969-996 | every value the flood writes is the budget left by some walk |
| Flood.FloodComplete | src/java/com/threerings/bang/game/data/BangBoard.java:969-996 | a closed flood marks every tile reachable within budget |
| Flood.FloodExact | src/java/com/threerings/bang/game/data/BangBoard.java:803-822 | after the flood, a tile is marked exactly when some walk within budget reaches it |
| Flood.MarkedPut | src/java/com/threerings/bang/game/data/BangBoard.java:1014-1018 | marking an unmarked tile as an attack keeps every earlier mark |
| BoardActions.BoardAction.constructor | src/java/com/threerings/bang/game/client/BoardView.java:119-141 | a custom action with the given piece, waiter and move ids and bounds, not yet started |
| BoardActions.BoardAction.Created | src/java/com/threerings/bang/game/client/BoardView.java:1646-1653 | a creation action reserves the new piece and bounds its tile |
| BoardActions.BoardAction.Updated | src/java/com/threerings/bang/game/client/BoardView.java:1668-1675 | an update action reserves the piece and has no bounds |
| BoardActions.BoardAction.Removed | src/java/com/threerings/bang/game/client/BoardView.java:1701-1708 | a removal action reserves the piece and bounds its tile |
| BoardActions.BoardAction.CanExecute | src/java/com/threerings/bang/game/client/BoardView.java:143-166 | true exactly when none of its pieces is reserved and its bounds meet no reserved rectangle |
| BoardActions.BlockedUnion | src/java/com/threerings/bang/game/client/BoardView.java:145-166 | an action is blocked by a union of reservations exactly when it is blocked by one of them |
| BoardActions.BumpCount | src/java/com/threerings/bang/game/client/BoardView.java:1591-1595 | each id's count changes by the delta times its multiplicity among the positive ids; an id is a key afterwards exactly when it was one or is a positive id given |
| BoardActions.IndexOf | src/java/com/threerings/bang/game/client/BoardView.java:730-736 | the first position of an element, or none when it is absent |
| BoardActions.RemoveOneBag | src/java/com/threerings/bang/game/client/BoardView.java:730-736 | removing one copy removes exactly one from the bag of contents |
| BoardActions.RemoveCopiesBag | src/java/com/threerings/bang/game/client/BoardView.java:1596-1604 | removing n copies of a rectangle lowers its multiplicity by n, not below zero, and leaves the others alone |
| BoardActions.ShiftBag | src/java/com/threerings/bang/game/client/BoardView.java:1596-1604 | shifting a rectangle by a delta changes its multiplicity by that delta, not below zero, and leaves the others alone |
| BoardActions.RepeatBag | src/java/com/threerings/bang/game/client/BoardView.java:1596-1604 | a rectangle repeated n times has multiplicity n and nothing else occurs |
| BoardActions.ExecutingRoundTrip | src/java/com/threerings/bang/game/client/BoardView.java:1589-1605 | noting an action as executing and then as no longer executing restores the unit counts and the bag of executing rectangles |
| BoardActions.RunningUnitsMember | src/java/com/threerings/bang/game/client/BoardView.java:1128-1135 | a unit is reserved by the running actions exactly when some running action holds it |
| BoardActions.DispatchRule | src/java/com/threerings/bang/game/client/BoardView.java:1142-1153 | a waiting action starts exactly when neither what is reserved nor any action ahead of it in the queue blocks it |
| BoardActions.PickPartition | src/java/com/threerings/bang/game/client/BoardView.java:1142-1153 | the actions started and the actions kept waiting together make up the queue |
| BoardActions.ApartFromRunning | src/java/com/threerings/bang/game/client/BoardView.java:1142-1153 | an action that starts shares no unit or bounds with any running action |
| BoardActions.DispatchKeepsCore | src/java/com/threerings/bang/game/client/BoardView.java:1159-1169 | starting an action apart from every running one keeps the counts and rectangles accurate and the running actions exclusive |
| BoardActions.CompleteKeepsCore | src/java/com/threerings/bang/game/client/BoardView.java:730-743 | removing a running action and releasing its counts and rectangles keeps them accurate and the rest exclusive |
| BoardActions.CompleteKeepsCovered | src/java/com/threerings/bang/game/client/BoardView.java:730-743 | after that release, what runs and what waits is still reserved |
| BoardActions.CompletedOnce | src/java/com/threerings/bang/game/client/BoardView.java:730-743 | a completed action is no longer running |
| BoardActions.SubmitKeepsInv | src/java/com/threerings/bang/game/client/BoardView.java:697-710 | submitting an action keeps the scheduler invariant |
| BoardActions.SubmitNoOvertaking | src/java/com/threerings/bang/game/client/BoardView.java:697-710 | an action blocked by a waiting action is queued behind it and does not start |
| BoardActions.IdleMeans | src/java/com/threerings/bang/game/client/BoardView.java:1110-1121 | with accurate counts, no actions remain exactly when nothing waits and no running action holds a piece |
| BoardActions.ReportStuck | src/java/com/threerings/bang/game/client/BoardView.java:712-722 | reports exactly the actions running longer than the timeout, and resets their start times to 0 |
| BoardActions.BoardView.constructor | src/java/com/threerings/bang/game/client/BoardView.java:1771-1776 | a new view has no running, waiting or posted actions, no reservations and nothing resolving |
| BoardActions.BoardView.NotePending | src/java/com/threerings/bang/game/client/BoardView.java:1576-1586 | the action's units and bounds are added to the pending reservations |
| BoardActions.BoardView.NoteExecuting | src/java/com/threerings/bang/game/client/BoardView.java:1589-1605 | the executing counts of the action's pieces and the executing rectangles shift by the delta |
| BoardActions.BoardView.ProcessAction | src/java/com/threerings/bang/game/client/BoardView.java:1159-1169 | the action counts as executing, runs and is posted |
| BoardActions.BoardView.RebuildPending | src/java/com/threerings/bang/game/client/BoardView.java:1128-1140 | the reservations are reset to what the executing actions hold |
| BoardActions.BoardView.ScanPending | src/java/com/threerings/bang/game/client/BoardView.java:1142-1153 | the queue is scanned: the actions the dispatch rule picks start, the rest keep waiting, and all are reserved |
| BoardActions.BoardView.ScanOne | src/java/com/threerings/bang/game/client/BoardView.java:1142-1153 | one scan step leaves the state that submitting one more queued action gives |
| BoardActions.BoardView.ProcessActions | src/java/com/threerings/bang/game/client/BoardView.java:1126-1154 | reservations are rebuilt from what executes and the queue is scanned; the invariant holds afterwards |
| BoardActions.BoardView.ExecuteAction | src/java/com/threerings/bang/game/client/BoardView.java:697-723 | the action is submitted: started when nothing blocks it, queued otherwise, and reserved; the actions running longer than the timeout are reported and reset |
| BoardActions.BoardView.Submit | src/java/com/threerings/bang/game/client/BoardView.java:697-710 | the action is started when nothing blocks it, queued otherwise, and reserved |
| BoardActions.BoardView.ActionCompleted | src/java/com/threerings/bang/game/client/BoardView.java:730-743 | reports a repeated completion exactly when the action is not running; otherwise it is removed, released and the queue rescanned, keeping the invariant |
| BoardActions.BoardView.RunPosted | src/java/com/threerings/bang/game/client/BoardView.java:1170-1193 | the first posted action starts now; it stays running when its execute result says it waits, and completes otherwise; the invariant holds |
| BoardActions.BoardView.NoActions | src/java/com/threerings/bang/game/client/BoardView.java:1110-1121 | true exactly when nothing waits and no running action holds a piece |
| BoardActions.BoardView.AddResolving | src/java/com/threerings/bang/game/client/BoardView.java:401-405 | the resolving and to-load counts both grow by one |
| BoardActions.BoardView.ClearResolving | src/java/com/threerings/bang/game/client/BoardView.java:410-431 | resolving drops by one and loaded grows by one; when nothing is left resolving, the queued observers are returned and the queue emptied |
| BoardActions.BoardView.AddResolutionObserver | src/java/com/threerings/bang/game/client/BoardView.java:985-992 | an observer is notified at once when nothing is resolving, otherwise queued |
| BoardActions.SubmitAllKeepsInv | src/java/com/threerings/bang/game/client/BoardView.java:1142-1153 | submitting a list of actions keeps the invariant |
| BoardActions.SubmitAllReserves | src/java/com/threerings/bang/game/client/BoardView.java:1142-1153 | submitting a list reserves exactly what its actions reserve, on top of what was reserved |
| BoardActions.SubmitAllStarts | src/java/com/threerings/bang/game/client/BoardView.java:1142-1153 | submitting a list starts and posts the actions the dispatch rule picks, in order, and queues the rest |
| BoardActions.SubmitAllCounts | src/java/com/threerings/bang/game/client/BoardView.java:1142-1153 | submitting a list adds exactly the started actions to the executing counts and rectangles |
| BoardActions.ScanStep | src/java/com/threerings/bang/game/client/BoardView.java:1142-1153 | one scan step either removes the next queued action and starts it, or steps past it, as submitting it would |
| BoardActions.ScanIsSubmitAll | src/java/com/threerings/bang/game/client/BoardView.java:1126-1154 | scanning the queue is the same as submitting its actions afresh, one by one |

## Left out

- Index preconditions: the board setters, `ComputeMoves` and the grid readers require in-range coordinates. Out of range, Java either throws `ArrayIndexOutOfBoundsException` or, because it indexes flat arrays as `y*width+x`, reads or writes a cell of another row. Both cases are excluded by the requires.
- Board.BangBoard.ConsiderFiring: states soundness only, namely that each attack is unmarked, in the play area and within range. That every such tile is found is not claimed.
- Board.BangBoard.FireFromAll: states soundness only, for the reason given for `ConsiderFiring`, whose results it collects. That every attackable tile is found is not claimed.
- Board.BangBoard.ComputeMoves: the caller's `moves` and `attacks` point sets are taken as empty and fresh sets are returned. Iteration order over them is not modelled.
- Board.BangBoard.ComputeMoves: requires a move distance of at most 12 and terrain costs in 0..127, so the byte wrap of the remaining budget cannot occur. The source does not exclude the wrap.
- Board.BangBoard.ComputePredominantTerrain: states only that the chosen code has maximal count. The tie-break by iteration order of the hash map is not modelled.
- Board.BangBoard.UpdatePredominantTerrainIn: each tile gets a code of maximal count; the hash-map tie-break of `ComputePredominantTerrain` is not modelled.
- Board.BangBoard.UpdatePredominantRow: the same gap, for one row.
- Board.BangBoard.UpdatePredominantTerrain: the same gap, for the whole board.
- Board.BangBoard.TerrainValueClamps: of the four corners beyond the grid, states only the one below both axes.
- `IntIntMap` is held as a multiset or a map. An increment on an absent key starts from 0, as in the source.
- BangBoard's `computePath` (A* search), `getOccupiableSpots`, `dumpOccupiability`, `readObject` and `toString` are not modelled. Neither are the float getters and setters for water, light, sky and wind: floating point is out of scope.
- RenderQueues.RenderQueue: the six buckets are held as values (sequences). The aliasing and identity of the swapped bucket objects are not captured.
- RenderQueues.Key: float distances are replaced by an integer queue distance. The GL-state comparison of the opaque comparator, `distanceToCam`, rendering itself and two-pass transparency are not modelled.
- RenderQueues.SortByKey: the ortho bucket is ordered by the intended higher-Z-first key, not by `OrthoComp` as written. The two agree whenever the Z-order differences fit in an int (`OrthoCompareAgrees`, `OrthoSortedAsWritten`); with an overflowing difference, such as Z orders Integer.MIN_VALUE and 0, Java's merge sort may keep the lower Z order first.
- RenderQueues.SceneElementList.Sort: orders the ortho bucket by the intended key, for the same reason as `RenderQueues.SortByKey`; the order `SortUtil.msort` produces under the overflowing comparator is not modelled.
- RenderQueues.SortByKey: stability is not stated. `SortUtil.msort` is not part of this model and is specified only by its result.
- The `Renderer.QUEUE_*` constants come from a file that is not part of this model; the jME values 2, 3 and 4 are used.
- Ratings.ComputeLevels: the level `value + 1` and the running sum of counts are unbounded integers. Java `int` wrap-around is not modelled, since ratings and player counts stay far below 2^31.
- Ratings.Pct: the float percentage is approximated by an exact truncating integer quotient.
- SQL I/O is out of scope: stored rating rows and ratings are given as sequences.
- Ratings.LoadRanks: on a bad rank the source throws. The model reports failure and does not state the partial list.
- `Piece.java` is not part of this model. Its accessors are fields, its direction tables are a `Compass` parameter, and its `persistTo` prefix is the byte sequence given.
- Props.Prop.PositionFine: assumes that `Piece.position` always moves the piece through `updatePosition`, which zeroes the fine offsets and `felev`. `Piece.java` is not part of this model, so the `felev == 0` clause rests on that assumption.
- Props.Prop.Rotate: the orientation change of `super.rotate` and `rotateFine` (from `PieceUtil`, not part of this model) are not modelled.
- Props.GetProp: reflective instantiation of the prop class and the config lookup are held as a map from type to config. The source catches any exception from instantiation or `init` and then returns null or a prop without its config; that failure path is not modelled, and the model returns null only when no config exists.
- BoardView parts not modelled: the `ACTION_DEBUG` logging and the loading marquee.
- BoardView's sprite bodies of `execute()` are not modelled: their result is a parameter, and a throw counts as `false`.
- BoardView's `mediaResolved` callbacks are returned as a list to notify. `postRunnable` is the posted list, stepped by `RunPosted`.
- BoardView's clock is a parameter (`now`).
- The `Math.abs(Integer.MIN_VALUE)` edge in `noteExecuting` is not modelled.
- BoardActions.BoardView.ExecuteAction: does not state `Valid()` itself; that submission preserves the invariant is the lemma `SubmitKeepsInv`.
- BoardActions.BoardView.Submit: does not state `Valid()` itself, for the same reason.
- A second completion of the same action is detected by its absence from the running list.

## Findings

| source | as written | input that shows it | evidently intended | confidence | as-written member | corrected member |
|---|---|---|---|---|---|---|
| jme/src/main/java/com/jme/renderer/RenderQueue.java:429-431 | the ortho comparator returns `o2.getZOrder() - o1.getZOrder()`, which can overflow a Java int | Z orders Integer.MIN_VALUE and 0: each element compares as before the other | the sign of the Z-order comparison, higher Z first | not executed | RenderQueues.OrthoCompareOverflows | RenderQueues.OrthoKeyMatchesIntended |
