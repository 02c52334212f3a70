/** The planner that reads a point stream twice and keeps only sorted terminal codes with prefix sums. */
module StreamingPlanner {
  import opened Seqs
  import opened TileIds
  import opened Quadtree
  import opened QuadtreeLaws
  import opened PlanRecording
  import opened Morton

  /** One answer of a point stream before it ends; `Failed` stands for an error status and for
      a chunk that is not valid. */
  datatype StreamEvent = Chunk(positions: seq<Position>) | Failed

  /** What the stream factory hands out for one pass. */
  datatype Pass = NotOpened | Opened(events: seq<StreamEvent>)

  predicate Clean(events: seq<StreamEvent>)
  {
    forall e :: e in events ==> e.Chunk?
  }

  /** All positions the chunks deliver. */
  function Delivered(events: seq<StreamEvent>): seq<Position>
  {
    if events == [] then []
    else
      var last := events[|events| - 1];
      Delivered(events[..|events| - 1]) + if last.Chunk? then last.positions else []
  }

  lemma {:induction false} DeliveredPrefix(events: seq<StreamEvent>, k: nat)
    requires k <= |events|
    ensures |Delivered(events[..k])| <= |Delivered(events)|
    decreases |events|
  {
    if k < |events| {
      assert events[..|events| - 1][..k] == events[..k];
      DeliveredPrefix(events[..|events| - 1], k);
    } else {
      assert events[..k] == events;
    }
  }

  /** Delivering one event more. */
  lemma DeliveredNext(events: seq<StreamEvent>, k: nat)
    requires k < |events| && events[k].Chunk?
    ensures Delivered(events[..k + 1]) == Delivered(events[..k]) + events[k].positions
    ensures |Delivered(events[..k + 1])| <= |Delivered(events)|
  {
    assert events[..k + 1][..k] == events[..k];
    DeliveredPrefix(events, k + 1);
  }

  /** A pass the planner can use: no failure, and no more points than the size type counts. */
  predicate Usable(pass: Pass)
  {
    pass.Opened? && Clean(pass.events) && |Delivered(pass.events)| <= SIZE_MAX
  }

  /** What planning over two passes comes to. */
  ghost function StreamOutcome(s: Split, cfg: PointBudgetConfig, first: Pass, second: Pass): (PointBudgetPlan, bool)
  {
    if !cfg.IsValid() || !Usable(first) || !AllFinite(Delivered(first.events)) then (EMPTY_PLAN, false)
    else
      var points := Delivered(first.events);
      if points == [] then (EMPTY_PLAN, true)
      else if !Usable(second) || |Delivered(second.events)| != |points| then (EMPTY_PLAN, false)
      else
        var plan := PlanFor(s, cfg, Delivered(second.events), Hull(points));
        (plan, WithinBudget(cfg, plan.tiles))
  }

  // ----- Pass one: the root box

  /** Takes one chunk's positions into the root box. */
  method ScanChunk(ghost before: seq<Position>, positions: seq<Position>, hasBoundsBefore: bool, boxBefore: Box)
    returns (ok: bool, hasBounds: bool, box: Box)
    requires hasBoundsBefore == (before != []) && (hasBoundsBefore ==> boxBefore == Hull(before))
    ensures ok == AllFinite(positions)
    ensures ok ==> hasBounds == (before + positions != [])
    ensures ok && hasBounds ==> box == Hull(before + positions)
  {
    hasBounds, box := hasBoundsBefore, boxBefore;
    var j := 0;
    assert before + positions[..0] == before;
    while j < |positions|
      invariant 0 <= j <= |positions| && AllFinite(positions[..j])
      invariant hasBounds == (|before| + j > 0)
      invariant hasBounds ==> box == Hull(before + positions[..j])
    {
      ghost var taken := before + positions[..j];
      assert before + positions[..j + 1] == taken + [positions[j]];
      HullNext(taken, positions[j]);
      if !positions[j].finite {
        assert positions[j] in positions;
        return false, hasBounds, box;
      }
      if !hasBounds {
        box, hasBounds := PointBox(positions[j]), true;
      } else {
        box := Expand(box, positions[j]);
      }
      j := j + 1;
    }
    assert positions[..j] == positions;
    ok := true;
  }

  method ScanBounds(events: seq<StreamEvent>) returns (ok: bool, count: nat, hasBounds: bool, box: Box)
    ensures ok == (Usable(Opened(events)) && AllFinite(Delivered(events)))
    ensures ok ==> count == |Delivered(events)| && hasBounds == (count > 0)
    ensures ok && hasBounds ==> box == Hull(Delivered(events))
  {
    hide Hull;
    count, hasBounds, box := 0, false, Box(0.0, 0.0, 0.0, 0.0);
    var k := 0;
    assert events[..0] == [];
    while k < |events|
      invariant 0 <= k <= |events| && Clean(events[..k])
      invariant count == |Delivered(events[..k])| <= SIZE_MAX
      invariant AllFinite(Delivered(events[..k]))
      invariant hasBounds == (count > 0)
      invariant hasBounds ==> box == Hull(Delivered(events[..k]))
    {
      if events[k].Failed? {
        assert events[k] in events;
        return false, count, hasBounds, box;
      }
      DeliveredNext(events, k);
      var positions := events[k].positions;
      if count > SIZE_MAX - |positions| {
        return false, count, hasBounds, box;
      }
      ghost var before := Delivered(events[..k]);
      count := count + |positions|;
      var finite;
      finite, hasBounds, box := ScanChunk(before, positions, hasBounds, box);
      if !finite {
        var p :| p in positions && !p.finite;
        DeliveredContains(events, k, p);
        return false, count, hasBounds, box;
      }
      assert events[..k + 1] == events[..k] + [events[k]];
      k := k + 1;
    }
    assert events[..k] == events;
    ok := true;
  }

  lemma {:induction false} DeliveredContains(events: seq<StreamEvent>, k: nat, p: Position)
    requires k < |events| && events[k].Chunk? && p in events[k].positions
    ensures p in Delivered(events)
  {
    if k < |events| - 1 {
      DeliveredContains(events[..|events| - 1], k, p);
    }
  }

  // ----- Pass two: how many points end in each terminal tile

  /** The code of the deepest tile that a position halves its way to. */
  function CodeAt(s: Split, root: Place, depth: nat, p: Position): nat
    requires root.id == ROOT
  {
    Code(Descend(s, root, p, depth).id)
  }

  function CodesAt(s: Split, root: Place, depth: nat, points: seq<Position>): (r: seq<nat>)
    requires root.id == ROOT
    ensures |r| == |points|
  {
    if points == [] then []
    else CodesAt(s, root, depth, points[..|points| - 1]) + [CodeAt(s, root, depth, points[|points| - 1])]
  }

  /** `counts` tells how often each code was seen. */
  ghost predicate Counted(seen: seq<nat>, counts: map<nat, nat>)
  {
    forall c :: (c in counts <==> c in seen) && (c in counts ==> counts[c] == multiset(seen)[c])
  }

  method TerminalCode(s: Split, box: Box, maxDepth: nat, position: Position) returns (code: nat)
    ensures code == CodeAt(s, Place(ROOT, box), maxDepth, position)
  {
    var bounds := box;
    var x, y := 0, 0;
    var depth := 0;
    ghost var root := Place(ROOT, box);
    while depth < maxDepth
      invariant 0 <= depth <= maxDepth
      invariant Descend(s, root, position, depth) == Place(TileId(depth, x, y, 0), bounds)
    {
      DescendLast(s, root, position, depth);
      ghost var here := Place(TileId(depth, x, y, 0), bounds);
      var splitX, splitY := s(bounds.minX, bounds.maxX), s(bounds.minY, bounds.maxY);
      var xBit := if position.x >= splitX then 1 else 0;
      var yBit := if position.y >= splitY then 1 else 0;
      x, y := x * 2 + xBit, y * 2 + yBit;
      bounds := if xBit != 0 then bounds.(minX := splitX) else bounds.(maxX := splitX);
      bounds := if yBit != 0 then bounds.(minY := splitY) else bounds.(maxY := splitY);
      assert Step(s, here, position) == Place(TileId(depth + 1, x, y, 0), bounds);
      depth := depth + 1;
    }
    code := EncodeMortonPrefix(x, y, maxDepth);
  }

  lemma CodesNext(s: Split, root: Place, depth: nat, points: seq<Position>, p: Position)
    requires root.id == ROOT
    ensures CodesAt(s, root, depth, points + [p]) == CodesAt(s, root, depth, points) + [CodeAt(s, root, depth, p)]
  {
    assert (points + [p])[..|points|] == points;
  }

  /** Counting one more code. */
  lemma CountedNext(seen: seq<nat>, code: nat, counts: map<nat, nat>)
    requires Counted(seen, counts)
    ensures Counted(seen + [code], counts[code := (if code in counts then counts[code] else 0) + 1])
  {
  }

  /** Takes one chunk's positions into the terminal counts. */
  method CountChunk(s: Split, box: Box, maxDepth: nat, ghost before: seq<Position>, positions: seq<Position>,
                    countsBefore: map<nat, nat>) returns (counts: map<nat, nat>)
    requires Counted(CodesAt(s, Place(ROOT, box), maxDepth, before), countsBefore)
    ensures Counted(CodesAt(s, Place(ROOT, box), maxDepth, before + positions), counts)
  {
    hide CodesAt, CodeAt, Counted;
    counts := countsBefore;
    ghost var root := Place(ROOT, box);
    var j := 0;
    assert before + positions[..0] == before;
    while j < |positions|
      invariant 0 <= j <= |positions|
      invariant Counted(CodesAt(s, root, maxDepth, before + positions[..j]), counts)
    {
      ghost var taken := before + positions[..j];
      assert before + positions[..j + 1] == taken + [positions[j]];
      CodesNext(s, root, maxDepth, taken, positions[j]);
      ghost var was := counts;
      var code := TerminalCode(s, box, maxDepth, positions[j]);
      counts := counts[code := (if code in counts then counts[code] else 0) + 1];
      CountedNext(CodesAt(s, root, maxDepth, taken), code, was);
      j := j + 1;
    }
    assert positions[..j] == positions;
  }

  lemma NothingCounted(s: Split, root: Place, maxDepth: nat)
    requires root.id == ROOT
    ensures Counted(CodesAt(s, root, maxDepth, []), map[])
  {
  }

  method CountTerminals(s: Split, box: Box, maxDepth: nat, events: seq<StreamEvent>)
    returns (ok: bool, count: nat, counts: map<nat, nat>)
    ensures ok == Usable(Opened(events))
    ensures ok ==> count == |Delivered(events)|
    ensures ok ==> Counted(CodesAt(s, Place(ROOT, box), maxDepth, Delivered(events)), counts)
  {
    hide CodesAt, Counted, CodeAt;
    counts, count := map[], 0;
    NothingCounted(s, Place(ROOT, box), maxDepth);
    var k := 0;
    assert events[..0] == [];
    while k < |events|
      invariant 0 <= k <= |events| && Clean(events[..k])
      invariant count == |Delivered(events[..k])| <= SIZE_MAX
      invariant Counted(CodesAt(s, Place(ROOT, box), maxDepth, Delivered(events[..k])), counts)
    {
      if events[k].Failed? {
        assert events[k] in events;
        return false, count, counts;
      }
      DeliveredNext(events, k);
      var positions := events[k].positions;
      if count > SIZE_MAX - |positions| {
        return false, count, counts;
      }
      count := count + |positions|;
      counts := CountChunk(s, box, maxDepth, Delivered(events[..k]), positions, counts);
      k := k + 1;
    }
    assert events[..k] == events;
    ok := true;
  }

  // ----- The search index: ascending codes and prefix sums

  ghost predicate Ascending(codes: seq<nat>)
  {
    forall i, j :: 0 <= i < j < |codes| ==> codes[i] < codes[j]
  }

  function CountIn(seen: seq<nat>, codes: seq<nat>): nat
  {
    if seen == [] then 0
    else CountIn(seen[..|seen| - 1], codes) + if seen[|seen| - 1] in codes then 1 else 0
  }

  function CountBelow(seen: seq<nat>, value: nat): nat
  {
    if seen == [] then 0
    else CountBelow(seen[..|seen| - 1], value) + if seen[|seen| - 1] < value then 1 else 0
  }

  lemma {:induction false} CountInNone(seen: seq<nat>)
    ensures CountIn(seen, []) == 0
  {
    if seen != [] {
      CountInNone(seen[..|seen| - 1]);
    }
  }

  lemma {:induction false} CountInNext(seen: seq<nat>, codes: seq<nat>, code: nat)
    requires code !in codes
    ensures CountIn(seen, codes + [code]) == CountIn(seen, codes) + multiset(seen)[code]
  {
    if seen != [] {
      assert seen == seen[..|seen| - 1] + [seen[|seen| - 1]];
      CountInNext(seen[..|seen| - 1], codes, code);
    }
  }

  lemma {:induction false} CountInBelow(seen: seq<nat>, codes: seq<nat>, value: nat)
    requires forall c :: c in seen ==> (c in codes <==> c < value)
    ensures CountIn(seen, codes) == CountBelow(seen, value)
  {
    if seen != [] {
      CountInBelow(seen[..|seen| - 1], codes, value);
    }
  }

  /** `codes` lists every code seen, and `prefix[i]` is how often the first `i` of them were seen. */
  ghost predicate Indexed(seen: seq<nat>, codes: seq<nat>, prefix: seq<nat>)
  {
    && Ascending(codes)
    && (forall c :: c in seen ==> c in codes)
    && PrefixSums(seen, codes, prefix)
  }

  ghost predicate PrefixSums(seen: seq<nat>, codes: seq<nat>, prefix: seq<nat>)
  {
    |prefix| == |codes| + 1 && forall i :: 0 <= i <= |codes| ==> prefix[i] == CountIn(seen, codes[..i])
  }

  lemma PrefixNext(seen: seq<nat>, codes: seq<nat>, prefix: seq<nat>, code: nat, count: nat)
    requires PrefixSums(seen, codes, prefix) && code !in codes && count == multiset(seen)[code]
    ensures PrefixSums(seen, codes + [code], prefix + [prefix[|codes|] + count])
  {
    hide CountIn;
    var next := codes + [code];
    assert codes[..|codes|] == codes && next[..|next|] == next;
    CountInNext(seen, codes, code);
    assert forall i :: 0 <= i <= |codes| ==> next[..i] == codes[..i];
  }

  lemma {:induction false} LeastExists(codes: set<nat>) returns (least: nat)
    requires codes != {}
    ensures least in codes && forall c :: c in codes ==> least <= c
    decreases |codes|
  {
    var c :| c in codes;
    if codes == {c} {
      least := c;
    } else {
      assert codes - {c} != {};
      var rest := LeastExists(codes - {c});
      assert forall d :: d in codes ==> d == c || d in codes - {c};
      least := if c < rest then c else rest;
    }
  }

  /** Lists an ordered map: its keys in ascending order, and the running totals of its values. */
  method BuildIndex(ghost seen: seq<nat>, counts: map<nat, nat>) returns (codes: seq<nat>, prefix: seq<nat>)
    requires Counted(seen, counts)
    ensures Indexed(seen, codes, prefix)
  {
    codes, prefix := [], [0];
    var rest := counts.Keys;
    CountInNone(seen);
    hide CountIn;
    while rest != {}
      invariant rest <= counts.Keys
      invariant forall c :: c in counts ==> (c in codes <==> c !in rest)
      invariant Ascending(codes)
      invariant forall c, r :: c in codes && r in rest ==> c < r
      invariant PrefixSums(seen, codes, prefix)
      decreases rest
    {
      ghost var least := LeastExists(rest);
      var code: nat :| code in rest && forall c :: c in rest ==> code <= c;
      PrefixNext(seen, codes, prefix, code, counts[code]);
      assert forall i :: 0 <= i < |codes| ==> codes[i] in codes;
      prefix := prefix + [prefix[|prefix| - 1] + counts[code]];
      codes := codes + [code];
      rest := rest - {code};
    }
  }

  /** The first position whose code is not below `value`. */
  method LowerBound(codes: seq<nat>, value: nat) returns (k: nat)
    requires Ascending(codes)
    ensures k <= |codes|
    ensures forall i :: 0 <= i < k ==> codes[i] < value
    ensures forall i :: k <= i < |codes| ==> value <= codes[i]
  {
    var lo, hi := 0, |codes|;
    while lo < hi
      invariant 0 <= lo <= hi <= |codes|
      invariant forall i :: 0 <= i < lo ==> codes[i] < value
      invariant forall i :: hi <= i < |codes| ==> value <= codes[i]
    {
      var mid := (lo + hi) / 2;
      if codes[mid] < value { lo := mid + 1; } else { hi := mid; }
    }
    k := lo;
  }

  /** How many codes were seen below `value`: one binary search and one lookup. */
  method PrefixAt(ghost seen: seq<nat>, codes: seq<nat>, prefix: seq<nat>, value: nat) returns (count: nat)
    requires Indexed(seen, codes, prefix)
    ensures count == CountBelow(seen, value)
  {
    var k := LowerBound(codes, value);
    CountInBelow(seen, codes[..k], value);
    count := prefix[k];
  }

  // ----- Code ranges are tiles

  /** The place is the only one with its identity that points can reach. */
  ghost predicate Genuine(s: Split, root: Place, at: Place)
  {
    && Planar(at.id) && Above(root.id, at.id)
    && forall p: Position :: Passes(s, root, p, at.id) ==> Reaches(s, root, p, at)
  }

  ghost predicate Passes(s: Split, root: Place, p: Position, id: TileId)
    requires root.id.level <= id.level
  {
    Descend(s, root, p, id.level - root.id.level).id == id
  }

  lemma GenuineChild(s: Split, root: Place, at: Place, c: nat)
    requires root.id == ROOT && Genuine(s, root, at) && c < 4
    ensures Genuine(s, root, Child(s, at, c))
  {
    ParentOfChild(at.id, c);
    AboveTransitive(ROOT, at.id, ChildId(at.id, c));
    forall p: Position | Passes(s, root, p, ChildId(at.id, c)) ensures Reaches(s, root, p, Child(s, at, c)) {
      PassesToChild(s, root, at, p, c);
    }
  }

  lemma PassesToChild(s: Split, root: Place, at: Place, p: Position, c: nat)
    requires root.id == ROOT && Genuine(s, root, at) && c < 4
    requires Passes(s, root, p, ChildId(at.id, c))
    ensures Reaches(s, root, p, Child(s, at, c))
  {
    hide Up, Descend, Quadrant, Above;
    var above := Descend(s, root, p, at.id.level);
    DescendLast(s, root, p, at.id.level);
    UpAfterDescend(s, root, p, at.id.level);
    var d := Quadrant(s, above.box, p);
    ParentOfChild(above.id, d);
    ParentOfChild(at.id, c);
    assert above.id == at.id;
    assert Passes(s, root, p, at.id);
    ChildIdsDiffer(at.id, c, d);
  }

  lemma GenuineRoot(s: Split, root: Place)
    requires root.id == ROOT
    ensures Genuine(s, root, root)
  {
  }

  /** Halving from the root stays below the root. */
  lemma DescendPlanar(s: Split, root: Place, p: Position, n: nat)
    requires root.id == ROOT
    ensures Planar(Descend(s, root, p, n).id) && Above(ROOT, Descend(s, root, p, n).id)
  {
    hide Up, Descend;
    UpAfterDescend(s, root, p, n);
  }

  /** The terminal tile of a position lies below every tile the position passes through. */
  lemma TerminalBelow(s: Split, root: Place, depth: nat, p: Position, level: nat)
    requires root.id == ROOT && level <= depth
    ensures Up(Descend(s, root, p, depth).id, depth - level) == Descend(s, root, p, level).id
  {
    hide Up, Descend;
    DescendPlanar(s, root, p, level);
    DescendFurther(s, root, p, level, depth - level);
    UpAfterDescend(s, Descend(s, root, p, level), p, depth - level);
  }

  /** A terminal code lies in a tile's range exactly when the position passes through the tile. */
  lemma InRangeIsPassing(s: Split, root: Place, depth: nat, p: Position, id: TileId)
    requires root.id == ROOT && Planar(id) && Above(ROOT, id) && id.level <= depth
    ensures RangeStart(id, depth) <= CodeAt(s, root, depth, p) < RangeEnd(id, depth) <==> Passes(s, root, p, id)
  {
    hide Up, Descend, Code;
    var terminal, passing := Descend(s, root, p, depth).id, Descend(s, root, p, id.level).id;
    DescendPlanar(s, root, p, depth);
    DescendPlanar(s, root, p, id.level);
    RangeOfTerminal(s, root, depth, p, id);
    if Code(passing) == Code(id) {
      CodeInjective(passing, id);
    }
  }

  lemma RangeOfTerminal(s: Split, root: Place, depth: nat, p: Position, id: TileId)
    requires root.id == ROOT && 0 <= id.level <= depth
    ensures RangeStart(id, depth) <= CodeAt(s, root, depth, p) < RangeEnd(id, depth)
        <==> Code(Descend(s, root, p, id.level).id) == Code(id)
  {
    hide Up, Descend, Code, Pow4;
    DescendPlanar(s, root, p, depth);
    TerminalBelow(s, root, depth, p, id.level);
    RangeBelow(Descend(s, root, p, depth).id, Code(id), depth - id.level);
  }

  lemma InRangeIsReaching(s: Split, root: Place, depth: nat, p: Position, at: Place)
    requires root.id == ROOT && Genuine(s, root, at) && at.id.level <= depth
    ensures RangeStart(at.id, depth) <= CodeAt(s, root, depth, p) < RangeEnd(at.id, depth)
        <==> Reaches(s, root, p, at)
  {
    hide Up, Descend, Code, CodeAt;
    InRangeIsPassing(s, root, depth, p, at.id);
  }

  /** The terminal codes below a tile run from `RangeStart` up to, but not including, `RangeEnd`. */
  function RangeStart(id: TileId, depth: nat): nat
    requires 0 <= id.level <= depth
  {
    Code(id) * Pow4(depth - id.level)
  }

  function RangeEnd(id: TileId, depth: nat): nat
    requires 0 <= id.level <= depth
  {
    (Code(id) + 1) * Pow4(depth - id.level)
  }

  /** The difference of the two prefix counts. */
  ghost function CountBetween(seen: seq<nat>, id: TileId, depth: nat): int
    requires 0 <= id.level <= depth
  {
    CountBelow(seen, RangeEnd(id, depth)) - CountBelow(seen, RangeStart(id, depth))
  }

  lemma CountBetweenNext(s: Split, root: Place, depth: nat, seen: seq<nat>, p: Position, at: Place)
    requires root.id == ROOT && Genuine(s, root, at) && at.id.level <= depth
    ensures CountBetween(seen + [CodeAt(s, root, depth, p)], at.id, depth)
         == CountBetween(seen, at.id, depth) + if Reaches(s, root, p, at) then 1 else 0
  {
    hide Up, Descend, Code, Pow4, CodeAt, CountBelow;
    InRangeIsReaching(s, root, depth, p, at);
    MulMonotone(Code(at.id), Code(at.id) + 1, Pow4(depth - at.id.level));
    CountBelowNext(seen, CodeAt(s, root, depth, p), RangeStart(at.id, depth));
    CountBelowNext(seen, CodeAt(s, root, depth, p), RangeEnd(at.id, depth));
  }

  lemma ArrivalsNext(s: Split, root: Place, points: seq<Position>, p: Position, at: Place)
    ensures |Arrivals(s, root, points + [p], at)| == |Arrivals(s, root, points, at)| + if Reaches(s, root, p, at) then 1 else 0
  {
    hide Reaches;
    FilterAppend((p: Position) => Reaches(s, root, p, at), points, p);
  }

  lemma GenuineLevel(s: Split, root: Place, at: Place)
    requires Genuine(s, root, at)
    ensures at.id.level >= 0
  {
  }

  lemma NothingArrives(s: Split, root: Place, depth: nat, at: Place)
    requires root.id == ROOT && 0 <= at.id.level <= depth
    ensures CountBetween(CodesAt(s, root, depth, []), at.id, depth) == |Arrivals(s, root, [], at)| == 0
  {
  }

  lemma {:induction false} RangeCountsArrivals(s: Split, root: Place, depth: nat, points: seq<Position>, at: Place)
    requires root.id == ROOT && Genuine(s, root, at) && at.id.level <= depth
    ensures CountBetween(CodesAt(s, root, depth, points), at.id, depth) == |Arrivals(s, root, points, at)|
    decreases points
  {
    hide *;
    GenuineLevel(s, root, at);
    if points == [] {
      NothingArrives(s, root, depth, at);
    } else {
      var m := |points| - 1;
      RangeCountsArrivals(s, root, depth, points[..m], at);
      CodesNext(s, root, depth, points[..m], points[m]);
      CountBetweenNext(s, root, depth, CodesAt(s, root, depth, points[..m]), points[m], at);
      ArrivalsNext(s, root, points[..m], points[m], at);
      assert points == points[..m] + [points[m]];
    }
  }

  lemma CountBelowNext(seen: seq<nat>, code: nat, value: nat)
    ensures CountBelow(seen + [code], value) == CountBelow(seen, value) + if code < value then 1 else 0
  {
    assert (seen + [code])[..|seen|] == seen;
  }

  /** Counts a tile's points with two binary searches. */
  method CountFor(s: Split, ghost root: Place, maxDepth: nat, ghost points: seq<Position>,
                  codes: seq<nat>, prefix: seq<nat>, at: Place) returns (count: nat)
    requires root.id == ROOT && Genuine(s, root, at) && at.id.level <= maxDepth
    requires Indexed(CodesAt(s, root, maxDepth, points), codes, prefix)
    ensures count == |Arrivals(s, root, points, at)|
  {
    hide Up, Descend, Pow4, CodesAt, CountBelow, Arrivals, Interleave;
    var remaining := maxDepth - at.id.level;
    var code := EncodeMortonPrefix(at.id.x, at.id.y, at.id.level);
    var firstCode, lastCode := code * Pow4(remaining), (code + 1) * Pow4(remaining);
    assert firstCode == RangeStart(at.id, maxDepth) && lastCode == RangeEnd(at.id, maxDepth);
    var upToLast := PrefixAt(CodesAt(s, root, maxDepth, points), codes, prefix, lastCode);
    var upToFirst := PrefixAt(CodesAt(s, root, maxDepth, points), codes, prefix, firstCode);
    RangeCountsArrivals(s, root, maxDepth, points, at);
    count := upToLast - upToFirst;
  }

  /** Descending one level sorts the arrivals into the four parts. */
  lemma ArrivalsAtChild(s: Split, root: Place, points: seq<Position>, at: Place, c: nat)
    requires root.id == ROOT && Genuine(s, root, at) && c < 4
    ensures Part(s, at.box, Arrivals(s, root, points, at), c) == Arrivals(s, root, points, Child(s, at, c))
  {
    hide Up, Descend;
    var here := (p: Position) => Reaches(s, root, p, at);
    var inPart := (p: Position) => Quadrant(s, at.box, p) == c;
    var there := (p: Position) => Reaches(s, root, p, Child(s, at, c));
    forall p | p in points ensures there(p) == (here(p) && inPart(p)) {
      ReachesChild(s, root, at, p, c);
    }
    FilterTwice(inPart, here, there, points);
  }

  lemma ReachesChild(s: Split, root: Place, at: Place, p: Position, c: nat)
    requires root.id == ROOT && Genuine(s, root, at) && c < 4
    ensures Reaches(s, root, p, Child(s, at, c)) <==> Reaches(s, root, p, at) && Quadrant(s, at.box, p) == c
  {
    hide Up, Descend;
    DescendLast(s, root, p, at.id.level);
    if Reaches(s, root, p, Child(s, at, c)) {
      var above := Descend(s, root, p, at.id.level);
      DescendPlanar(s, root, p, at.id.level);
      ParentOfChild(above.id, Quadrant(s, above.box, p));
      ParentOfChild(at.id, c);
      assert Passes(s, root, p, at.id);
      ChildIdsDiffer(at.id, c, Quadrant(s, above.box, p));
    }
  }

  method ChildCounts(s: Split, ghost root: Place, maxDepth: nat, ghost points: seq<Position>,
                     codes: seq<nat>, prefix: seq<nat>, at: Place) returns (counts: seq<nat>)
    requires root.id == ROOT && Genuine(s, root, at) && at.id.level < maxDepth
    requires Indexed(CodesAt(s, root, maxDepth, points), codes, prefix)
    ensures counts == PartCounts(s, at.box, Arrivals(s, root, points, at))
  {
    hide Up, Descend, Arrivals, Part, Indexed, CodesAt;
    counts := [];
    var c := 0;
    while c < 4
      invariant 0 <= c <= 4 && |counts| == c
      invariant forall d :: 0 <= d < c ==> counts[d] == |Part(s, at.box, Arrivals(s, root, points, at), d)|
    {
      GenuineChild(s, root, at, c);
      ArrivalsAtChild(s, root, points, at, c);
      var count := CountFor(s, root, maxDepth, points, codes, prefix, Child(s, at, c));
      counts := counts + [count];
      c := c + 1;
    }
  }

  method Visit(s: Split, cfg: PointBudgetConfig, ghost root: Place, ghost points: seq<Position>,
               codes: seq<nat>, prefix: seq<nat>, at: Place, r: PlanRecorder)
    requires root.id == ROOT && cfg.IsValid() && Genuine(s, root, at) && at.id.level <= cfg.maxDepth
    requires Indexed(CodesAt(s, root, cfg.maxDepth, points), codes, prefix)
    requires Arrivals(s, root, points, at) != []
    requires r.Valid()
    modifies r
    ensures r.Valid() && Recorded(cfg, old(r.State()), r.State(), Grow(s, cfg, Arrivals(s, root, points, at), at))
    decreases cfg.maxDepth - at.id.level, 1
  {
    hide Up, Descend, Arrivals, Part, Indexed, CodesAt, Recorded, Smallest, Largest;
    ghost var here := Arrivals(s, root, points, at);
    ghost var q := Grow(s, cfg, here, at);
    var count := CountFor(s, root, cfg.maxDepth, points, codes, prefix, at);
    r.plan := r.plan.(depth := Max(r.plan.depth, at.id.level));
    if !CanSplit(cfg, count, at.id.level, at.box) {
      r.RecordLeaf(count, at);
      if count > cfg.maxPointsPerTile {
        r.budgetSatisfied := false;
      }
      RecordedLeaf(cfg, old(r.State()), r.State(), Cell(at, here));
      return;
    }
    var counts := ChildCounts(s, root, cfg.maxDepth, points, codes, prefix, at);
    var worthwhile := SplitIsWorthwhile(cfg, counts);
    if !worthwhile {
      r.RecordLeaf(count, at);
      r.budgetSatisfied := false;
      RecordedLeaf(cfg, old(r.State()), r.State(), Cell(at, here));
      return;
    }
    r.plan := r.plan.(splitCount := r.plan.splitCount + 1);
    forall c: nat | c < 4 ensures Kid(q, c) == Grow(s, cfg, Part(s, at.box, here, c), Child(s, at, c)) {
      KidIsGrown(s, cfg, here, at, c);
    }
    VisitChildren(s, cfg, root, points, codes, prefix, counts, at, r, q, old(r.State()));
  }

  /** The loop over the children of a split node. */
  method VisitChildren(s: Split, cfg: PointBudgetConfig, ghost root: Place, ghost points: seq<Position>,
                       codes: seq<nat>, prefix: seq<nat>, counts: seq<nat>, at: Place, r: PlanRecorder,
                       ghost q: Quad, ghost was: Progress)
    requires root.id == ROOT && cfg.IsValid() && Genuine(s, root, at) && at.id.level < cfg.maxDepth
    requires Indexed(CodesAt(s, root, cfg.maxDepth, points), codes, prefix)
    requires q.Node? && counts == PartCounts(s, at.box, Arrivals(s, root, points, at))
    requires forall c: nat :: c < 4 ==>
      Kid(q, c) == Grow(s, cfg, Part(s, at.box, Arrivals(s, root, points, at), c), Child(s, at, c))
    requires r.Valid() && RecordedKids(cfg, was, r.State(), q, 0)
    modifies r
    ensures r.Valid() && Recorded(cfg, was, r.State(), q)
    decreases cfg.maxDepth - at.id.level, 0
  {
    hide Up, Descend, Arrivals, Part, Indexed, CodesAt, RecordedKids, Recorded;
    var c := 0;
    while c < 4
      invariant 0 <= c <= 4
      invariant r.Valid() && RecordedKids(cfg, was, r.State(), q, c)
    {
      ghost var before := r.State();
      GenuineChild(s, root, at, c);
      ArrivalsAtChild(s, root, points, at, c);
      assert Kid(q, c) == Grow(s, cfg, Arrivals(s, root, points, Child(s, at, c)), Child(s, at, c));
      if counts[c] != 0 {
        Visit(s, cfg, root, points, codes, prefix, Child(s, at, c), r);
      } else {
        assert Arrivals(s, root, points, Child(s, at, c)) == [];
        RecordedNothing(cfg, before);
      }
      RecordedNext(cfg, was, before, r.State(), q, c);
      c := c + 1;
    }
    RecordedAll(cfg, was, r.State(), q);
  }

  /** Everything arrives at the root. */
  lemma ArrivalsAtRoot(s: Split, root: Place, points: seq<Position>)
    ensures Arrivals(s, root, points, root) == points
  {
    FilterAll((p: Position) => Reaches(s, root, p, root), points);
  }

  method BuildPointBudgetPlan(s: Split, firstPass: Pass, secondPass: Pass, cfg: PointBudgetConfig)
    returns (plan: PointBudgetPlan, satisfied: bool)
    ensures (plan, satisfied) == StreamOutcome(s, cfg, firstPass, secondPass)
  {
    plan := EMPTY_PLAN;
    if !cfg.IsValid() { return plan, false; }
    if firstPass.NotOpened? { return plan, false; }
    var ok, pointCount, hasBounds, box := ScanBounds(firstPass.events);
    if !ok { return plan, false; }
    if !hasBounds { return plan, true; }
    if secondPass.NotOpened? { return plan, false; }
    var secondOk, secondCount, counts := CountTerminals(s, box, cfg.maxDepth, secondPass.events);
    if !secondOk { return plan, false; }
    if secondCount != pointCount { return plan, false; }
    ghost var root := Place(ROOT, box);
    ghost var points := Delivered(secondPass.events);
    var codes, prefix := BuildIndex(CodesAt(s, root, cfg.maxDepth, points), counts);
    plan := plan.(pointCount := pointCount);
    var r := new PlanRecorder(plan);
    GenuineRoot(s, root);
    ArrivalsAtRoot(s, root, points);
    Visit(s, cfg, root, points, codes, prefix, Place(ROOT, box), r);
    plan := WithAverage(r.plan);
    satisfied := r.budgetSatisfied;
    RecordedFromStart(s, cfg, points, box, r.State());
  }
}
