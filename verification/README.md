# Verified model of the point-cloud core

This project models, in Dafny, the parts of the repository that decide where points go and what stays on disk, and
proves what they promise. Nothing in it runs the original program.

- **The adaptive point-budget tiler** plans a quadtree twice: `InMemoryPlanner` partitions a point list, and
  `StreamingPlanner` reads a point stream twice and keeps only sorted Morton codes with prefix sums. Both are proved
  against one specification, the tree of `Quadtree`, for every rule of splitting a box side that is deterministic and
  stays inside the side, rounded or not; `PlanGeometry` says by coordinates and counts which places become tiles, with
  which boxes and counts, and `PlanSplits` what is counted as a split. `Router` rebuilds the root box from the tiles alone and sends every planned point to the
  tile that counted it, and `RouterTheorems` says where every other position goes. `TilePlan`, `TilePlanBuilder`,
  `TilePlanTheorems` and `AcceptedPlans` turn tiles into a checked tree.
- **COPC**: `CopcPages` walks pages over arbitrary bytes, cycles included, and `CopcLayout` writes them;
  `CopcHierarchy` and `CopcPlan` make nodes and the tile plan, with exact conditions of success, which `CopcEntries`
  says again of the entries; `CopcTheorems` goes from bytes to plan; `CopcStream` pulls points.
- **The spill path**: `SpoolFormat`, `SpoolOutcome` and `Spool` are the tile spool down to its bytes, with exact
  conditions for the round trip and for the detection of truncation. `TileSpooling`, `StreamSpooling`, `Columns` and
  `Authoring` route a stream to one spool per tile within a memory limit and rebuild each tile's columns;
  `PointChunks` makes chunks that list what data has; `AuthoringTheorems` and `AdaptiveConversion` join all this with
  the planner and the router.
- **Publication**: `FileSystem`, `Generations`, `Publication` and `PublicationTheorems` model payload generations, and
  `Transaction` and `TransactionTheorems` the converter's transaction, as steps on a disk, with `PathTheorems` on
  paths. Every state a step leaves is on record, so a statement about all recorded states is a statement about a crash
  after any step.
- **Streams, names and keys**: `LazReading` over `ChunkedDecoding` (chunk independence), `ExtraByteNames` and
  `NameTheorems` (unique names), `CacheKey`, `CacheLayout` and `CacheFields` (an encoding with a decoder, the keys
  built on it, and which descriptors share them).

## What the code does that its description does not say

- The in-memory planner leaves `pointCount` behind in the plan when it refuses a non-finite position; the streaming
  planner leaves an empty plan. The two agree in everything else (`PlannersAgree`).
- The streaming planner compares its two passes by their number of points only; a second pass with other points is
  planned without notice, also outside the root box (`ChangedPassGoesUnnoticed`, exactly when: `PassesCompared`).
- A spool loses the tile's `z`, and a schema with a longer name or more attributes than the reader takes is written
  but never read (`SpoolRoundTrip`). A cut spool passes for complete in exactly one way (`TruncationDetected`), which
  happens (`TruncationMissed`).
- A stream whose chunks list one colour without the others, or so with return numbers or waveform columns, passes all
  checks on its chunks and is refused only after it was spooled (`RedAloneRefused`, exactly when: `AuthorFromStream`).
- `CommitAs` does not check that the declared payloads were written. If one was not, a usable generation of that name
  is taken for damaged and removed before it is replaced (exactly when this matters: `CommitAs`).
- The state file holds the payload directory as it is. A name with a line break, or with a carriage return at its end,
  is not read back, and recovery then leaves the payloads (`LineBreakLeavesPayloads`, exactly when: `RecordedExactly`
  and `RecoveryClears`).
- A state file that was cut inside its path can name another directory, and recovery then acts on that one
  (`TornStateAccepted`, exactly when: `TornStateRefused`).
- Cleanup passes over removals that fail; taking back a published root layer can then leave the root layer without its
  manifest and payloads (`CleanupCanBreak`, exactly when not: `CleanupKeepsUsable`).

## What is taken as given

- Coordinates of the planner are reals, and `finite` marks the positions whose x or y is an infinity or a NaN.
  Positions and attribute values in the spill path are the bytes they occupy; the host is little-endian, as the file
  format is.
- Containers keyed by the text of a tile identity are keyed by the identity itself.
- `std::sort` is an insertion sort; where elements with equal keys could differ, uniqueness of keys is proved.
- Decoders, the coordinate transformation, point conversion and hashes are parameters. The hash of contents and of
  cache arguments is taken to have no collisions. Cancellation, failing files and names drawn at random are chosen
  freely; what the system refused or stopped is kept in a flag, so that every other failure has to have its reason.
- Damage to a published generation is a missing file or a file of another size.

## Model

| member | source | states |
|---|---|---|
| PlanTheorems.PlannersAgree | libs/usd-pointcloud-tiling/src/Tiling.cpp:509-901 | For every configuration, splitting rule and points, and every way of cutting the two passes into chunks, the streaming planner gives the same verdict as the in-memory planner, and the same plan too (tiles, their order, all counters) exactly when the configuration is invalid or all positions are finite |
| PlanTheorems.PlanLaws | libs/usd-pointcloud-tiling/src/Tiling.cpp:548-647 | Every plan of a non-empty finite input: no tile lies above another, every tile is non-empty, within the depth limit, and at least the minimum unless it is the root; each counts exactly the points that halve their way to it, and its box holds them; counts add up to the points, and the average is their quotient; the depth counted is that of the deepest tile; splits + 1 <= tiles <= 3 * splits + 1; the extremes are attained; the verdict is true exactly when every tile is within the budget |
| PlanGeometry.PlanDetermined | libs/usd-pointcloud-tiling/src/Tiling.cpp:564-632 | Every plan of a non-empty finite input, said in grid places, intervals and counts alone: its tiles are exactly the places that hold points, are not to be divided, and whose every place above is, each once. A place is to be divided when more points than the budget lie in it, it is above the greatest depth and has an extent in x and in y, and of the quarters at least two hold points and none holds some but fewer than the minimum. A tile has the box of its place, each level halving the one before by the splitting rule, and counts the points that lie in it |
| PlanSplits.SplitsCounted | libs/usd-pointcloud-tiling/src/Tiling.cpp:604-632 | A plan counts as many splits as there are different places above its tiles |
| PlanTheorems.PlannedExactly | libs/usd-pointcloud-tiling/src/Tiling.cpp:509-531 | Refused are exactly a budget of zero, a minimum above it, a depth outside 0 to 31 and positions that are not finite; nothing else but the empty point list gives no tiles |
| PlanTheorems.PassesCompared | libs/usd-pointcloud-tiling/src/Tiling.cpp:719-785 | For all configurations and passes, the first non-empty and finite: a second pass is refused exactly when its number of points differs; otherwise the tiles count its points, and hold the points they count exactly when all of these are finite and lie in the box around the first pass |
| PlanTheorems.ChangedPassGoesUnnoticed | libs/usd-pointcloud-tiling/src/Tiling.cpp:781-785 | A concrete pair of passes: the second, with another point, is accepted, and the tile does not hold the point it counts |
| PlanRecording.PlanRecorder.RecordLeaf | libs/usd-pointcloud-tiling/src/Tiling.cpp:549-563 | Adds one tile at the end and keeps count, minimum and maximum in agreement with all recorded tiles; nothing else changes |
| PlanRecording.SplitIsWorthwhile | libs/usd-pointcloud-tiling/src/Tiling.cpp:594-603 | True exactly when at least two children have points and none of these is below the minimum |
| InMemoryPlanner.Partition | libs/usd-pointcloud-tiling/src/Tiling.cpp:583-593 | The four index lists select, in order, exactly the points of each quadrant |
| InMemoryPlanner.Visit | libs/usd-pointcloud-tiling/src/Tiling.cpp:564-632 | Recursion records exactly the grown tree of its points on top of what was recorded, tiles in depth-first order |
| InMemoryPlanner.MakeBounds | libs/usd-pointcloud-tiling/src/Tiling.cpp:533-546 | The smallest box around the points |
| InMemoryPlanner.BuildPointBudgetPlan | libs/usd-pointcloud-tiling/src/Tiling.cpp:509-648 | Plan and verdict are those of the specification tree, whose tiles `PlanGeometry.PlanDetermined` determines, with every error path |
| Morton.EncodeMortonPrefix | libs/usd-pointcloud-tiling/src/Tiling.cpp:39-49 | The loop over bits interleaves x and y as the recursive code does |
| Morton.CodesFit | libs/usd-pointcloud-tiling/src/Tiling.cpp:797-801 | At every depth a plan may have, no code and no shifted range end leaves 62 bits, so the shifts lose nothing |
| Morton.RangeBelow | libs/usd-pointcloud-tiling/src/Tiling.cpp:797-812 | A terminal code lies in the range of a prefix exactly when its ancestor at that level has this prefix as code |
| Morton.CodeInjective | libs/usd-pointcloud-tiling/src/Tiling.cpp:39-49 | Tiles of one level below the root have different codes |
| StreamingPlanner.ScanBounds | libs/usd-pointcloud-tiling/src/Tiling.cpp:671-717 | The first pass succeeds exactly when the stream does, fits the size type and is finite; it finds the count and the smallest box over all chunks |
| StreamingPlanner.CountTerminals | libs/usd-pointcloud-tiling/src/Tiling.cpp:719-780 | The second pass counts how many points have each terminal code, for every chunking |
| StreamingPlanner.BuildIndex | libs/usd-pointcloud-tiling/src/Tiling.cpp:787-793 | Ascending codes with prefix sums from which the count below any value can be read |
| StreamingPlanner.LowerBound | libs/usd-pointcloud-tiling/src/Tiling.cpp:802-805 | The first place whose code is not below the value |
| StreamingPlanner.CountFor | libs/usd-pointcloud-tiling/src/Tiling.cpp:797-812 | Two searches in the index count exactly the points that halve their way to the tile |
| StreamingPlanner.InRangeIsPassing | libs/usd-pointcloud-tiling/src/Tiling.cpp:751-812 | A point's terminal code lies in a tile's range exactly when the point passes through the tile |
| StreamingPlanner.RangeCountsArrivals | libs/usd-pointcloud-tiling/src/Tiling.cpp:797-812 | The difference of two prefix counts is the number of points that arrive at the tile |
| StreamingPlanner.Visit | libs/usd-pointcloud-tiling/src/Tiling.cpp:827-889 | Recursion by counts alone records the same tree as recursion by points |
| StreamingPlanner.BuildPointBudgetPlan | libs/usd-pointcloud-tiling/src/Tiling.cpp:650-901 | Plan and verdict are those of the specification tree for the delivered points, whose tiles `PlanGeometry.PlanDetermined` determines, with every error path of both passes |
| QuadtreeLaws.GrowConserves | libs/usd-pointcloud-tiling/src/Tiling.cpp:587-631 | The tiles' counts add up to the points |
| QuadtreeLaws.GrowPrefixFree | libs/usd-pointcloud-tiling/src/Tiling.cpp:587-631 | No tile of a grown tree is or lies above another |
| QuadtreeLaws.CellPoints | libs/usd-pointcloud-tiling/src/Tiling.cpp:583-631 | A tile's points are, in order, the points that halve their way to it from the root |
| QuadtreeLaws.CellBox | libs/usd-pointcloud-tiling/src/Tiling.cpp:583-631 | A tile's box lies in the box the tree starts from, is valid, and holds those of the tile's points that this box holds |
| QuadtreeLaws.CellMinimum | libs/usd-pointcloud-tiling/src/Tiling.cpp:594-608 | Every tile below the root has at least the minimum number of points |
| QuadtreeLaws.TileCountBounds | libs/usd-pointcloud-tiling/src/Tiling.cpp:604-631 | Splits + 1 <= tiles <= 3 * splits + 1 |
| Router.PointBudgetTileRouter.FromBudgetPlan | libs/usd-pointcloud-tiling/src/Tiling.cpp:923-941 | The router keeps the tiles in ascending order and rebuilds the box around them |
| Router.PointBudgetTileRouter.FromTilePlan | libs/usd-pointcloud-tiling/src/Tiling.cpp:943-972 | The same from the leaf nodes of a tile plan that are valid and within the size type |
| Router.PointBudgetTileRouter.FindTile | libs/usd-pointcloud-tiling/src/Tiling.cpp:986-996 | The binary search finds an identity exactly when a tile has it |
| Router.PointBudgetTileRouter.GetTileId | libs/usd-pointcloud-tiling/src/Tiling.cpp:974-1025 | The loop that narrows the box returns what the recursive descent returns |
| Router.RootBoxRebuilt | libs/usd-pointcloud-tiling/src/Tiling.cpp:923-941 | The box rebuilt from the non-empty tiles alone is the planner's root box |
| Router.PointsRoutedHome | libs/usd-pointcloud-tiling/src/Tiling.cpp:974-1025 | Every planned point is sent to the tile that counted it |
| Router.RoutedPointsAreCounted | libs/usd-pointcloud-tiling/src/Tiling.cpp:974-1025 | The points sent to a tile are exactly, and in order, the points the planner put there, so their number is the tile's count |
| Router.RouteFromSound | libs/usd-pointcloud-tiling/src/Tiling.cpp:1003-1024 | Any answer is a tile of the router which the position halves its way to, or no tile |
| RouterTheorems.RoutedWhereItLies | libs/usd-pointcloud-tiling/src/Tiling.cpp:974-1025 | For any position, planned or not: it is sent to a tile of the plan exactly when it is finite, in the box around the planned points and lies in that tile; otherwise to none |
| RouterTheorems.RoutedExactly | libs/usd-pointcloud-tiling/src/Tiling.cpp:923-1001 | A router of any tiles sends nothing anywhere without tiles or with a tile that is not usable; otherwise it sends finite positions in the box around the tiles down from that box, and no others |
| TilePlan.CheckNodes | libs/usd-pointcloud-tiling/src/Tiling.cpp:261-335 | The nested loops succeed exactly when identities are unique and every node agrees with its parent and children |
| TilePlan.ValidateTilePlan | libs/usd-pointcloud-tiling/src/Tiling.cpp:241-375 | Accepts exactly the plans that pass the local checks: for these, the depth-first search ends, meets no cycle, visits each node once and leaves none out |
| TilePlan.AcceptedPlanIsTree | libs/usd-pointcloud-tiling/src/Tiling.cpp:241-375 | An accepted non-empty plan is a rooted tree: one root, every node reaches it in level difference many parent steps, every other node is listed by exactly one node, its parent |
| AcceptedPlans.AcceptedExactly | libs/usd-pointcloud-tiling/src/Tiling.cpp:241-375 | And conversely: accepted are exactly the plans without nodes and those whose nodes are one tree, with every parent and child named by the other, every leaf without and every other node with children, all fields in order, and a planner named in one line with a version above zero |
| TilePlanBuilder.AddLeaf | libs/usd-pointcloud-tiling/src/Tiling.cpp:410-431 | Walking one leaf's path changes exactly the nodes on it, each by one count, box and child |
| TilePlanBuilder.CountLaw | libs/usd-pointcloud-tiling/src/Tiling.cpp:419-423 | A node counts the points of all leaves at or below it |
| TilePlanBuilder.ShapeLaws | libs/usd-pointcloud-tiling/src/Tiling.cpp:424-431 | Leaf mark, parent and bounds of a node follow from the leaves |
| TilePlanBuilder.ChildLaws | libs/usd-pointcloud-tiling/src/Tiling.cpp:395-428 | The children are, each once, the nodes one step further on the way to some leaf |
| TilePlanBuilder.BoundsLaws | libs/usd-pointcloud-tiling/src/Tiling.cpp:422-423 | A node's horizontal bounds are the hull of its leaves' boxes |
| TilePlanTheorems.BuildTilePlan | libs/usd-pointcloud-tiling/src/Tiling.cpp:377-443 | Succeeds exactly when all tiles are valid, none lies above another and all have one top; the nodes are then exactly the ancestors-or-self of the tiles, ascending |
| TilePlanTheorems.InnerCountIsChildSum | libs/usd-pointcloud-tiling/src/Tiling.cpp:419-428 | Every inner node counts the sum of its children's counts |
| TilePlanTheorems.ParentInNumbers | libs/usd-pointcloud-tiling/src/Tiling.cpp:395-428 | A node's parent is one level up at half of each coordinate, cut off toward zero; the root's is no tile |
| TilePlanTheorems.NodesInOrder | libs/usd-pointcloud-tiling/src/Tiling.cpp:433-440 | Nodes come by level, then x, then y, then z |
| TilePlanTheorems.SameRouting | libs/usd-pointcloud-tiling/src/Tiling.cpp:923-972 | The router built from the tile plan equals the router built from the budget plan |
| TilePlanTheorems.PlannedTilesBuild | libs/usd-pointcloud-tiling/src/Tiling.cpp:377-443 | Every plan the planner makes of a non-empty finite input can be built, with the same router |
| CopcPages.CopcReader.ReadPage | libs/usd-copc/src/Copc.cpp:774-881 | Walks one page: on success the visited offsets, total and entries grow by exactly what the page holds; on failure no walk of this page exists. The measure is the file size less the pages visited |
| CopcPages.ReadHierarchy | libs/usd-copc/src/Copc.cpp:774-881 | Ends for every content and succeeds exactly when the bytes hold a complete walk, which is a hierarchy laid out as in `CopcLayout`: no page twice, running total within the header count and equal to it at the end |
| CopcPages.WalkUnique | libs/usd-copc/src/Copc.cpp:774-881 | The bytes determine the walk |
| CopcPages.WalkedEntriesInFile | libs/usd-copc/src/Copc.cpp:820-862 | Every entry is valid, and every data range and page range lies in the file |
| CopcPages.WalkIsShort | libs/usd-copc/src/Copc.cpp:774-881 | A walk visits at most as many pages as the file has bytes |
| CopcLayout.EntryRoundTrip | libs/usd-copc/src/Copc.cpp:803-818 | An entry is read at a place exactly when its bytes stand there: level, x, y and z in four bytes each, offset in eight, byte size in four and point count in four, lowest byte first; and then its fields fit these |
| CopcLayout.HierarchyIsLayout | libs/usd-copc/src/Copc.cpp:774-881 | A file holds a hierarchy for the reader exactly when a writer, defined for itself, has laid it out there: every page at its place, byte for byte, with entries that are data in the file, pages in the file or empty |
| CopcLayout.ReadLaidOut | libs/usd-copc/src/Copc.cpp:774-881 | Every hierarchy that was laid out is read back: exactly its entries, each page's after the entry that names it |
| CopcLayout.ReadSinglePage | libs/usd-copc/src/Copc.cpp:774-881 | A root page written from data entries and empty ones, which add up to the header's points, is read back as exactly these entries |
| CopcHierarchy.CollectNodes | libs/usd-copc/src/Copc.cpp:904-935 | Makes one node for each entry; fails exactly for an unusable cell or a repeated key |
| CopcHierarchy.HandToParents | libs/usd-copc/src/Copc.cpp:937-948 | Every node is handed to its parent's list, in the order of the entries |
| CopcHierarchy.BuildHierarchy | libs/usd-copc/src/Copc.cpp:883-957 | Succeeds exactly for usable, distinct cells that make a valid hierarchy, which it returns |
| CopcEntries.ModelExactly | libs/usd-copc/src/Copc.cpp:883-957 | The same said of the entries: one for the root, keys in the grid and different, and cells that are boxes within the hierarchy's |
| CopcPlan.FindRequired | libs/usd-copc/src/Copc.cpp:330-348 | Marks exactly the ancestors-or-self of data nodes; fails exactly when an ancestor is missing |
| CopcPlan.PointsBelowByChildren | libs/usd-copc/src/Copc.cpp:375-398 | The data at or below a node is its own and that of its required children |
| CopcPlan.SumAll | libs/usd-copc/src/Copc.cpp:357-398 | Summing deepest first gives every required node the data count of its whole subtree; fails exactly when one leaves 64 bits |
| CopcPlan.CollectPlan | libs/usd-copc/src/Copc.cpp:400-443 | Exactly the required nodes are planned, once each, in ascending order, each with its subtree count and its own byte range |
| CopcPlan.PlannedChecked | libs/usd-copc/src/Copc.cpp:412-448 | The planned nodes pass validation exactly when all data lies under the root and the byte ranges fit |
| CopcPlan.BuildTilePlan | libs/usd-copc/src/Copc.cpp:308-449 | Succeeds exactly for valid hierarchies whose data nodes have all ancestors up to the root, whose total fits 64 bits and whose ranges fit |
| CopcTheorems.ReadHierarchyPlans | libs/usd-copc/src/Copc.cpp:308-449 | For entries that were read, planning succeeds exactly when all ancestors of data nodes are present and there is a data node; the root then counts the header's points |
| CopcEntries.PlannedExactly | libs/usd-copc/src/Copc.cpp:308-449 | The same said of the entries: planned exactly when some entry has data and every entry with data has an entry at each place above it |
| CopcEntries.PlanOfEntries | libs/usd-copc/src/Copc.cpp:400-443 | The plan has one node for each entry with data at or below it: with its key, the parent's key, the sum of the points of all entries at or below it, the byte range from its own offset over its own size if it has data, and as children the entries one level down that have data at or below |
| CopcStream.CopcPointStream.ReadNext | libs/usd-copc/src/Copc.cpp:475-605 | Every chunk is non-empty and within the limit; the end is reported only when everything was passed on; after end or error there is only the end |
| CopcStream.Pull | libs/usd-copc/src/Copc.cpp:475-605 | The chunks up to the end concatenate to the filtered points of all data entries, in order; an error means a decoder failed or the read was stopped |
| CopcStream.RestNext | libs/usd-copc/src/Copc.cpp:537-570 | Taking one answer of a decoder changes nothing about the points still to come |
| SpoolFormat.AttributesRoundTrip | libs/usd-pointcloud-tiling/src/Spool.cpp:288-295 | Attributes written anywhere in a file are read back exactly when all names are within the reader's limit |
| SpoolFormat.HeadRoundTrip | libs/usd-pointcloud-tiling/src/Spool.cpp:277-295 | Whatever follows a written head, it is read back, but for the tile's z, exactly when the schema is within the reader's limits |
| SpoolFormat.ParsedHeadBytes | libs/usd-pointcloud-tiling/src/Spool.cpp:436-466 | A head that is accepted stands in the file as it would be written: it has one encoding only |
| SpoolOutcome.RecordRoundTrip | libs/usd-pointcloud-tiling/src/Spool.cpp:339-355 | A record written anywhere is read back |
| SpoolOutcome.ReadConforms | libs/usd-pointcloud-tiling/src/Spool.cpp:498-557 | Whatever is delivered from any file has the types of its schema |
| SpoolOutcome.SpoolRoundTrip | libs/usd-pointcloud-tiling/src/Spool.cpp:244-557 | Reading a closed spool delivers the schema, the tile without z and all points in order, completely, exactly when the schema is within the reader's limits |
| SpoolOutcome.TruncationDetected | libs/usd-pointcloud-tiling/src/Spool.cpp:468-530 | A proper prefix of a closed spool passes for complete exactly when it is cut sixteen bytes into a record that begins like the footer of the records before it |
| SpoolOutcome.TruncationMissed | libs/usd-pointcloud-tiling/src/Spool.cpp:468-530 | A family of such spools: a first point whose source position begins with the bytes of an empty footer, so that the cut spool passes for a complete one without points |
| SpoolOutcome.CutDeliversPrefix | libs/usd-pointcloud-tiling/src/Spool.cpp:468-557 | A cut spool delivers a proper prefix of the points, under the right schema, and nothing else |
| Spool.TileSpoolWriter.Open | libs/usd-pointcloud-tiling/src/Spool.cpp:244-303 | Succeeds exactly when tile, schema and limit are valid, the file can be created and written and the names fit; the file is then the head |
| Spool.TileSpoolWriter.Append | libs/usd-pointcloud-tiling/src/Spool.cpp:305-330 | A point that does not match the schema changes nothing; otherwise the contents grow by the point, and the buffer is below the limit afterwards |
| Spool.TileSpoolWriter.Flush | libs/usd-pointcloud-tiling/src/Spool.cpp:332-373 | Empties the buffer into the file, keeping the contents, unless a write fails |
| Spool.TileSpoolWriter.Close | libs/usd-pointcloud-tiling/src/Spool.cpp:375-399 | The file is then exactly the closed spool of the contents, and the bytes written are its length |
| Spool.TileSpoolReader.Open | libs/usd-pointcloud-tiling/src/Spool.cpp:416-496 | Succeeds exactly for files that have a valid head and whole records before the place of the footer |
| Spool.TileSpoolReader.ReadNext | libs/usd-pointcloud-tiling/src/Spool.cpp:498-557 | Delivers the next point while there is one; then, and for ever after, nothing; complete exactly when the footer counts the points delivered, and then all bytes of the file were read |
| Spool.ReadAll | libs/usd-pointcloud-authoring/src/PointCloudStreaming.cpp:504-550 | Reading until nothing comes delivers the outcome of the file |
| SpoolTheorems.WriteAndReadBack | libs/usd-pointcloud-tiling/src/Spool.cpp:244-557 | For any interleaving of appending and flushing under any limit: writing succeeds, unless the system fails, exactly when tile and schema can be written and all points match; then bytes written = bytes read = file length and the points come back, exactly when the schema is within the reader's limits |
| SpoolTheorems.SpoolMarks | libs/usd-pointcloud-tiling/src/Spool.cpp:277-399 | The bytes of a closed spool: name, version, coordinate space, level, x, y and number of attributes at their places in front, mark and number of points at the end |
| SpoolTheorems.LimitsInNumbers | libs/usd-pointcloud-tiling/src/Spool.cpp:66-242 | What can be written, and what of it is read, in numbers: level not negative, version 2, source coordinates, names not empty, the ten types and their sizes; at most 100000 attributes with names of at most 1048576 bytes |
| TileSpooling.TileSpools.AddTo | libs/usd-pointcloud-authoring/src/PointCloudStreaming.cpp:433-446 | The account of buffered bytes stays the sum of all writers' buffers, whether the writer flushed itself or not; only this tile's contents grow |
| TileSpooling.TileSpools.FlushSpools | libs/usd-pointcloud-authoring/src/PointCloudStreaming.cpp:329-335 | Empties every buffer and keeps every tile's contents |
| TileSpooling.TileSpools.FindOrOpen | libs/usd-pointcloud-authoring/src/PointCloudStreaming.cpp:397-411 | Finds the spool of a tile, or opens one, and keeps every other; unless the file system fails, it cannot be opened only for an invalid tile or schema |
| TileSpooling.TileSpools.AddPoint | libs/usd-pointcloud-authoring/src/PointCloudStreaming.cpp:433-451 | After every point each tile has exactly, and in order, the points routed to it, and the buffered bytes are below the limit; in between they are at most the limit less one plus one record |
| Columns.ReadAttributeValue | libs/usd-pointcloud-authoring/src/PointCloudStreaming.cpp:59-114 | Takes the value from a built-in column, or from the components of the extra bytes whose normalized name matches |
| Columns.AppendedColumns | libs/usd-pointcloud-authoring/src/PointCloudStreaming.cpp:127-180 | Appending a value makes its column longer by the value's components and changes no other |
| Columns.AppendedExactly | libs/usd-pointcloud-authoring/src/PointCloudStreaming.cpp:127-180 | A value can be appended exactly when it has the type of its column and the column has just the entries of the points before it; extra bytes take doubles by one, two or three |
| Columns.PrepareData | libs/usd-pointcloud-authoring/src/PointCloudStreaming.cpp:182-210 | Fails exactly for an attribute that is neither built in nor made of doubles; otherwise there is one empty column for each that is not built in |
| Columns.AppendPoint | libs/usd-pointcloud-authoring/src/PointCloudStreaming.cpp:534-544 | Rebuilt data of some points becomes rebuilt data of these points and one more; it cannot fail when the types agree |
| Columns.RebuiltValues | libs/usd-pointcloud-authoring/src/PointCloudStreaming.cpp:59-210 | From rebuilt data every attribute of every point can be read again as it was, also through the renaming of extra bytes |
| Columns.RebuiltValid | libs/usd-pointcloud-core/src/PointCloud.cpp:86-154 | Rebuilt data is valid exactly when its attributes name the columns that belong together (return numbers, colours, waveform) only together |
| StreamSpooling.SpoolStream | libs/usd-pointcloud-authoring/src/PointCloudStreaming.cpp:339-453 | On success the spools hold the points of all chunks in order, each with all values its chunk gives it, and every name can be read again; a good stream is spooled unless the system fails |
| Authoring.CloseSpools | libs/usd-pointcloud-authoring/src/PointCloudStreaming.cpp:454-465 | Every file is then the closed spool of the points routed to its tile |
| Authoring.RebuildTile | libs/usd-pointcloud-authoring/src/PointCloudStreaming.cpp:504-567 | Accepts a spool only when it is complete, not empty, of the expected tile and schema, and the data rebuilt from its points is valid; unless stopped, it accepts every such spool whose columns can be rebuilt and whose attributes name what belongs together |
| Authoring.AuthorFromStream | libs/usd-pointcloud-authoring/src/PointCloudStreaming.cpp:339-605 | On success each tile holds the stable subsequence of the stream routed to it, position by position and attribute by attribute, as valid data; the tiles are distinct and cover the stream; the manifest counts them; every report of buffered bytes was within the bound. A well-formed stream, unless the system fails or the run is stopped, is authored exactly when its attributes name the columns that belong together only together |
| AuthoringTheorems.ManifestConserves | libs/usd-pointcloud-authoring/src/PointCloudStreaming.cpp:552-598 | The manifest's counts add up to the points streamed |
| AuthoringTheorems.ManifestIsPlan | libs/usd-pointcloud-authoring/src/PointCloudStreaming.cpp:339-598 | With the point-budget router of a plan for the same points, the manifest's identities and counts are exactly those of the plan's leaves |
| AuthoringTheorems.RouteFits | libs/usd-pointcloud-tiling/src/Tiling.cpp:974-1025 | Whatever the point-budget router returns fits the widths a spool writes |
| AuthoringTheorems.ListedStreamTogether | libs/usd-pointcloud-core/src/PointCloud.cpp:277-343 | They do in every stream whose chunks list the columns they have, as chunks made from their data do |
| AuthoringTheorems.RedAloneRefused | libs/usd-pointcloud-authoring/src/PointCloudStreaming.cpp:562-568 | A chunk that lists red alone of three colours is good in every other way, so its stream is spooled and then refused |
| PointChunks.MakePointChunk | libs/usd-pointcloud-core/src/PointCloud.cpp:277-343 | The loops list exactly the built-in columns with entries, in the order of the table, and the extra bytes with entries, under their normalized names and with the type of their number of components |
| PointChunks.ListedReadable | libs/usd-pointcloud-core/src/PointCloud.cpp:277-343 | Every attribute that a chunk made from valid data lists has, for every point, a value of the type it is listed with, through `ReadAttributeValue`'s own table |
| PointChunks.MadeChunkValid | libs/usd-pointcloud-core/src/PointCloud.cpp:277-343 | A chunk made from valid data is valid and lists exactly the columns that have entries |
| PointChunks.MadeStreamGood | libs/usd-pointcloud-core/src/PointCloud.cpp:277-343 | So a stream of made chunks that list the same attributes is good and names together what belongs together |
| AdaptiveConversion.PlanAndAuthor | tools/usd-pointcloud-convert/main.cpp:905-1126 | Planning a stream, making the tile plan, routing by it and authoring, all by the models of the code: on success the manifest has exactly the plan's tiles with the plan's counts, each within the budget, adding up to the points; and each tile holds the points and attributes routed to it. A good stream that the planner accepts is converted, unless the system fails, exactly when its attributes name the columns that belong together only together |
| AdaptiveConversion.PassDelivers | tools/usd-pointcloud-convert/main.cpp:907-925 | What the planner sees of a stream is the positions of the points that are authored |
| Authoring.StreamOnce | libs/usd-pointcloud-authoring/src/PointCloudStreaming.cpp:339-453 | A stream has one sequence of points, so what is authored from it is determined |
| ExtraByteNames.NormalizeExtraByteName | libs/usd-pointcloud-core/src/PointCloud.cpp:56-71 | The loop replaces what no identifier may have and puts a sign before a digit |
| ExtraByteNames.TriesAreBounded | libs/usd-pointcloud-core/src/PointCloud.cpp:352-356 | The names tried in vain are as many as the tries, all in use: so a search ends within as many tries as names in use |
| ExtraByteNames.NormalizeExtraByteNames | libs/usd-pointcloud-core/src/PointCloud.cpp:345-360 | As many names as given, each the first candidate that is neither reserved nor taken before |
| ExtraByteNames.NormalizedUsable | libs/usd-pointcloud-core/src/PointCloud.cpp:345-360 | The names are valid identifiers, pairwise different and not reserved |
| ExtraByteNames.NormalizingIsIdempotent | libs/usd-pointcloud-core/src/PointCloud.cpp:345-360 | Normalizing twice is normalizing once |
| ExtraByteNames.NoSuffixWhenFree | libs/usd-pointcloud-core/src/PointCloud.cpp:350-358 | A name stays without suffix exactly when its normal form is neither reserved nor taken before |
| NameTheorems.NormalNameExactly | libs/usd-pointcloud-core/src/PointCloud.cpp:56-71 | Every character that is no letter, digit or underscore becomes an underscore, and one more comes in front of a digit in front; the empty name becomes `extra` |
| NameTheorems.CandidateExactly | libs/usd-pointcloud-core/src/PointCloud.cpp:350-358 | The names tried are the name itself and then the name, an underscore and the numbers from two on, in decimal |
| NameTheorems.ReservedExactly | libs/usd-pointcloud-core/src/PointCloud.cpp:73-84 | Reserved are exactly the names of the listed columns, of the positions and of the waveform file |
| FileSystem.Disk.RemoveAll | libs/usd-pointcloud-authoring/src/PayloadGeneration.cpp:339-348 | Removal goes file by file in any order and may stop anywhere; every state on the way differs only by a partly removed entry |
| Generations.DamagedHarmless | libs/usd-pointcloud-authoring/src/PayloadGeneration.cpp:341-348 | Every state of removing a damaged generation keeps a usable generation if there was one |
| Generations.RemovingBeside | libs/usd-pointcloud-authoring/src/PayloadGeneration.cpp:373-390 | So does every state of removing another generation than a usable one |
| Generations.RemainsShowDamage | libs/usd-pointcloud-authoring/src/PayloadGeneration.cpp:317-336 | What is left of a generation that was being removed is recognised as damaged |
| Publication.Declare | libs/usd-pointcloud-authoring/src/PayloadGeneration.cpp:180-186 | Succeeds exactly for different names that stay inside the directory |
| PathTheorems.SafeExactly | libs/usd-pointcloud-authoring/src/PayloadGeneration.cpp:30-50 | A name is safe exactly when it has no backslash, colon or line break and its parts are a normal path as they are |
| PathTheorems.SafeNameStaysBelow | libs/usd-pointcloud-authoring/src/PayloadGeneration.cpp:30-50 | So under any directory it leads to a place properly below, and different safe names to different places |
| Publication.PayloadGeneration.Begin | libs/usd-pointcloud-authoring/src/PayloadGeneration.cpp:174-259 | Unless the system refuses, succeeds exactly for different safe names and a usable directory without these files; then an empty staging directory is there. On failure, unless a removal failed, nothing has changed but stale staging; every state on the way leaves all generations as they were |
| Publication.PayloadGeneration.WritePayload | libs/usd-pointcloud-authoring/src/PayloadGeneration.cpp:261-267 | Only a declared payload of an active generation is written, only in staging, part by part |
| Publication.PayloadGeneration.IsComplete | libs/usd-pointcloud-authoring/src/PayloadGeneration.cpp:317-336 | True exactly when every payload is there with the size it was staged with |
| Publication.PayloadGeneration.CompleteIsIntact | libs/usd-pointcloud-authoring/src/PayloadGeneration.cpp:349-352 | What has all sizes is the generation itself, given how damage shows |
| Publication.PayloadGeneration.MoveInPlace | libs/usd-pointcloud-authoring/src/PayloadGeneration.cpp:338-366 | Puts the staged contents in place by one rename, or finds them there; every state on the way keeps a usable generation if there was one, exactly when all declared payloads are staged or the generation of that name is not the one usable one |
| Publication.PayloadGeneration.RemoveSuperseded | libs/usd-pointcloud-authoring/src/PayloadGeneration.cpp:373-390 | Removes exactly the other generations, of any age; the published one is usable in every state on the way |
| Publication.PayloadGeneration.Publish | libs/usd-pointcloud-authoring/src/PayloadGeneration.cpp:338-392 | The published generation has exactly the staged contents; the staging directory and every other generation are gone, and all else is as it was, by name and kind of entry as in `PublicationTheorems.PublishedOnly`; a failure changes at most a generation of that name; a usable generation stays in every state under the condition of `MoveInPlace` |
| Publication.PayloadGeneration.Commit | libs/usd-pointcloud-authoring/src/PayloadGeneration.cpp:280-303 | Unless the system refuses, succeeds exactly when every declared payload was written; it publishes exactly the staged contents under the name of their hash |
| Publication.PayloadGeneration.CommitAs | libs/usd-pointcloud-authoring/src/PayloadGeneration.cpp:305-315 | The same under a given name, whether or not all declared payloads were written, and nothing at all for an invalid request; with a payload that was not written, the one usable generation of that name is removed before it is replaced |
| Publication.PayloadGeneration.Rollback | libs/usd-pointcloud-authoring/src/PayloadGeneration.cpp:394-420 | Undoes the generation: when no removal fails, the state is the one before it but for stale staging; no generation is changed in any state on the way |
| PublicationTheorems.PublishedOnly | libs/usd-pointcloud-authoring/src/PayloadGeneration.cpp:338-392 | Whenever a publication meets the contract of `Publish`, the directory has beside the published generation exactly the entries it had before, unchanged, that are no folders of any age named `g-` or `c-` without a slash, and no stale folders named `.tmp-` |
| PublicationTheorems.Generate | libs/usd-pointcloud-authoring/src/PayloadGeneration.cpp:174-420 | A whole run keeps a usable generation in every state if there was one; it publishes exactly the given payloads, or restores the state before; when it publishes and no removal fails, the directory of the owner has beside the published generation exactly the entries it had before, unchanged, that are no folders of any age named `g-` or `c-` without a slash, and no stale folders named `.tmp-`; unless the system refuses, it publishes exactly when the request can begin |
| PublicationTheorems.Runs | libs/usd-pointcloud-authoring/src/PayloadGeneration.cpp:174-420 | After any number of runs, each ended after any step, the owner has a usable generation if it ever had one, other owners' directories are unchanged, and publishing is possible |
| Transaction.TornRecords | tools/usd-pointcloud-convert/main.cpp:291-325 | What a state file that was cut after any number of characters is read as, for every absolute path: nothing within the prefix, and else the first line of the part of the path it has, without a carriage return at its end |
| Transaction.RecordedExactly | tools/usd-pointcloud-convert/main.cpp:275-325 | A state file gives its path back exactly when the path has no line break and no carriage return at its end |
| Transaction.PlainRecoverable | tools/usd-pointcloud-convert/main.cpp:275-325 | Every path that the state file gives back is recoverable |
| Transaction.Conversion.RecoverIncompleteTransaction | tools/usd-pointcloud-convert/main.cpp:343-425 | From any state: unless the system fails, it refuses exactly a root layer without manifest under a marker, and a state file that it does not accept; what is left is exactly what is not in the recorded directory, and nothing at all in a consistent state; even when it fails it takes nothing from outside that directory; a refusal makes no step; every state on the way stays consistent if it was, and a published root layer usable |
| Transaction.Conversion.BeginTransaction | tools/usd-pointcloud-convert/main.cpp:985-998 | Marker and state file come step by step, through every torn state file |
| Transaction.Conversion.Publish | tools/usd-pointcloud-convert/main.cpp:1049-1256 | Manifest first, then root layer, each by one step; a failure or an interruption before the end clears everything of this conversion, unless a removal fails, or the files come from the cache and the manifest cannot be put in place |
| Transaction.Conversion.Cleanup | tools/usd-pointcloud-convert/main.cpp:1012-1027 | Leaves exactly what the removals that were done leave, in the source's order; nothing of this conversion when all were done; a root layer is left unusable only by `CleanupCanBreak`'s combination of removals |
| Transaction.Conversion.Convert | tools/usd-pointcloud-convert/main.cpp:840-1256 | One conversion from any state, with any absolute payload directory: success means a root layer with its manifest and all its payloads where none was, beside exactly the payloads that recovery left; unless the system refuses, it succeeds exactly when recovery does and leaves nothing in the way, which in a consistent state means no root layer and no state file that is refused; every state on the way is consistent, for recoverable directories, until a removal of the cleanup fails, and usable until the cleanup exposes a root layer |
| TransactionTheorems.History | tools/usd-pointcloud-convert/main.cpp:840-1256 | Over any number of conversions with any absolute payload directories, each ended after any step, within recovery and cleanup too: a published root layer has its manifest and complete payloads in every state, until a cleanup fails to remove a published root layer and takes its manifest or payloads away; and without a marker there is all or nothing, when the removals of cleanups succeed and every directory is recoverable |
| TransactionTheorems.RecoveryClears | tools/usd-pointcloud-convert/main.cpp:343-425 | Recovery that is not refused clears an interrupted conversion away exactly when its directory is recoverable; otherwise it drops the marker and leaves the payloads |
| TransactionTheorems.RecoveryRemoves | tools/usd-pointcloud-convert/main.cpp:291-400 | Recovery of an interrupted conversion goes on exactly when the directory it takes, that of the state file or the current one without a state file, comes to the current payload directory or to the output's directory with at least one more name |
| TransactionTheorems.RecoveryLeaves | tools/usd-pointcloud-convert/main.cpp:401-425 | When it comes to its end, the payloads in that directory and in all that extend it are gone, and all others are as they were |
| TransactionTheorems.OutputDirectoryKept | tools/usd-pointcloud-convert/main.cpp:326-337 | A state file that names the output's own directory, or one above it, while that is not the current payload directory, is refused |
| TransactionTheorems.FreeExactly | tools/usd-pointcloud-convert/main.cpp:848-854 | A conversion begins only without root layer, manifest and marker, and with nothing at its directory or extending it |
| PathTheorems.PathsNormalize | tools/usd-pointcloud-convert/main.cpp:326-341 | Empty parts and single dots say nothing, two dots take back the part before them, and at the top nothing |
| PathTheorems.WithinExtends | tools/usd-pointcloud-convert/main.cpp:326-337 | A normal path is within another exactly when it extends it by at least one name |
| TransactionTheorems.LineBreakLeavesPayloads | tools/usd-pointcloud-convert/main.cpp:283-325 | A concrete payload directory with a line break in its name, whose payloads recovery leaves behind without a marker |
| TransactionTheorems.TornStateRefused | tools/usd-pointcloud-convert/main.cpp:291-400 | A state file cut anywhere is refused exactly when its part of the path is empty, or is read neither as the current payload directory nor as one that extends the output's directory |
| TransactionTheorems.TornStateAccepted | tools/usd-pointcloud-convert/main.cpp:291-400 | A concrete cut state file that names another directory and is accepted |
| TransactionTheorems.CleanupKeepsUsable | tools/usd-pointcloud-convert/main.cpp:1012-1027 | Taking back a published root layer keeps the promise exactly when the root layer goes, or else manifest and payloads stay |
| TransactionTheorems.CleanupCanBreak | tools/usd-pointcloud-convert/main.cpp:1012-1027 | A concrete failed removal after which a root layer is published without manifest and payloads |
| ChunkedDecoding.CutIsClean | libs/usd-laz/src/Laz.cpp:126-164 | However points are cut into chunks within the limit, the checks pass and the points come out |
| ChunkedDecoding.CleanIsCut | libs/usd-laz/src/Laz.cpp:126-164 | Only decoders that cut so many points into chunks within the limit pass the checks |
| ChunkedDecoding.WantedNext | libs/usd-laz/src/Laz.cpp:165-181 | Selecting range and filter chunk by chunk is selecting them from all points |
| LazReading.LazPointStream.ReadNext | libs/usd-laz/src/Laz.cpp:117-216 | Chunks are non-empty and within the limit; the end comes exactly after all selected points; after end or error there is only the end |
| LazReading.PullAll | libs/usd-laz/src/Laz.cpp:226-268 | For every decoder, chunk size and budget: success delivers filter(points[first..end]) in order; failure means an invalid request, a decoder that does not behave, or a stop |
| LazReading.Read | libs/usd-laz/src/Laz.cpp:309-412 | The pushing reader delivers the same, under the same conditions |
| LazReading.WantedExactly | libs/usd-laz/src/Laz.cpp:238-248 | A range is taken exactly when its end is within the points, where a count of zero stands for all that follow; what is wanted of them is then what the range selects |
| LazReading.LimitExactly | libs/usd-laz/src/Laz.cpp:254-262 | A chunk may have any number of points up to the caller's limit whose bytes fit the budget |
| CacheKey.EncodingRoundTrip | libs/usd-geo-core/src/CacheKey.cpp:43-48 | The length-prefixed encoding has a decoder: what was written is read back |
| CacheKey.SortedOnce | libs/usd-geo-core/src/CacheKey.cpp:41 | Arguments have one sorted order only |
| CacheKey.NormalizeCacheArguments | libs/usd-geo-core/src/CacheKey.cpp:34-49 | The loops compute the encoding of the sorted, trimmed and lower-cased arguments |
| CacheKey.NormalFormsAgree | libs/usd-geo-core/src/CacheKey.cpp:34-49 | Two lists of arguments have one normal form exactly when their normalized pairs are the same multiset |
| CacheFields.HashedInOrder | libs/usd-geo-core/src/CacheKey.cpp:34-49 | What is hashed decodes to the normalized arguments in dictionary order of names, then of values |
| CacheFields.TrimMeans | libs/usd-geo-core/src/CacheKey.cpp:12-21 | Trimming takes spaces, tabs and line breaks off both ends, and leaves none there |
| CacheLayout.GenerationNames | libs/usd-geo-cache/src/Cache.cpp:348-361 | No normalized name of the generation half is one of the identity half |
| CacheLayout.IdentityNames | libs/usd-geo-cache/src/Cache.cpp:367-375 | Every normalized name of the identity half is recognisable as such |
| CacheLayout.FlatKeyAgrees | libs/usd-geo-cache/src/Cache.cpp:379-414 | Valid descriptors share the flat key exactly when they share both the generation key and the identity key (which fields these come from: `CacheFields.DescriptorsAgree`) |
| CacheLayout.LayoutByFlatKey | libs/usd-geo-cache/src/Cache.cpp:387-421 | Valid descriptors share the cache entry exactly when they share the flat key, so exactly when the fields of `CacheFields.DescriptorsAgree` agree |
| CacheFields.DescriptorsAgree | libs/usd-geo-cache/src/Cache.cpp:340-421 | For any hash without collisions that is never empty, valid descriptors share the flat key, and the layout, exactly when their fields agree: identifier or else canonical path; plugin, parser and OpenUSD version; size; time of modification; token or else content identity, all trimmed; and each of the five lists of arguments as a multiset of trimmed lower-case names with trimmed values |
| CacheFields.RevisionsSideBySide | libs/usd-geo-cache/src/Cache.cpp:345-421 | The directory of the layout is shared exactly when identifier, the three versions, attributes, tiling and downsampling agree, whatever the source contains; the entry in it exactly when size, time of modification, token or content identity, transform and derived arguments do, whatever was asked for |
| CacheFields.ValidExactly | libs/usd-geo-cache/src/Cache.cpp:206-219 | A descriptor has a key, and a layout, exactly when its source is named and has a token or an identity, the three versions are there, and no argument has a blank name |

## Left out

- CopcPlan.BuildTilePlan: the widths of the fields (`WidthsOk`) are asked of the hierarchy, as the types of the source give them.
- TilePlanTheorems.BuildTilePlan: node counts are not wrapped at 64 bits; the planner's own plans stay below (`SIZE_MAX`).
- CopcStream.Pull: what a decoder delivers is not compared with the entry's point count, as in the source.
- CopcHierarchy.BuildHierarchy: node boxes and spacings come from a parameter; only containment and order of checks are modelled.
- Publication.PayloadGeneration.MoveInPlace: a concurrent process that publishes the same generation first is not modelled, nor are two processes of one owner.
- Publication.PayloadGeneration.CommitAs: the caller's promise that the staged content belongs to the given name is a precondition; that the payloads were written is not.
- Transaction.Conversion.Publish: filling the cache entry itself is not modelled.
- Transaction.Conversion.RecoverIncompleteTransaction: a payload directory that contains the output, and what foreign files a directory holds, are not modelled; a trailing slash does not tell paths apart.
- Spool.TileSpoolWriter.Append: the buffer's byte count is not wrapped at the size type; the counter of written bytes is kept for one writer, where the source adds to one shared counter.
- Authoring.AuthorFromStream: tiles are listed in the order of their first points, where the source lists them by the text of their identities; stage and layer authoring, which only the system can refuse, bounds, which are valid because the transformation takes finite positions only, level-of-detail items, the colour bit depth, the waveform file name and the spool directory's own marker are not modelled.
- Floating-point overflow of a box's width, and boxes that are not finite.
- The fixed-grid router, point tile manifests, tile plan cache arguments, cache lookup and statistics, and the COPC reader's bounds filter on entries: they would add easy members only.
- LAS, LAZ and PLY decoding, point record fields, coordinate reference systems, OpenUSD stages and plugins, diagnostics text, file handles and the command line.
- The LAS pull stream with filters, whose cursor advances by kept points.
