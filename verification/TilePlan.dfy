/** Tile plans: the checks a plan must pass and what passing them means. */
module TilePlan {
  import opened Seqs
  import opened TileIds

  datatype Vec3 = Vec3(x: real, y: real, z: real)

  /** Spatial bounds; `Nowhere` is the empty box that expanding starts from. */
  datatype Bounds = Nowhere | Bounds(minimum: Vec3, maximum: Vec3) {
    predicate IsValid()
    {
      Bounds? && minimum.x <= maximum.x && minimum.y <= maximum.y && minimum.z <= maximum.z
    }

    function Expand(p: Vec3): Bounds
    {
      match this
      case Nowhere => Bounds(p, p)
      case Bounds(a, b) =>
        Bounds(Vec3(if p.x < a.x then p.x else a.x, if p.y < a.y then p.y else a.y, if p.z < a.z then p.z else a.z),
               Vec3(if b.x < p.x then p.x else b.x, if b.y < p.y then p.y else b.y, if b.z < p.z then p.z else b.z))
    }
  }

  const UINT64_MAX: nat := 0xFFFF_FFFF_FFFF_FFFF

  datatype SourceRange = SourceRange(offset: nat, length: nat) {
    predicate IsValid() { length > 0 && offset + length <= UINT64_MAX }
  }

  datatype TilePlanNode = TilePlanNode(
    id: TileId,
    bounds: Bounds,
    pointCount: nat,
    parent: TileId,
    children: seq<TileId>,
    sourceRanges: seq<SourceRange>,
    isLeaf: bool)
  {
    predicate IsValid()
    {
      && id.IsValid() && bounds.IsValid() && pointCount != 0
      && !(isLeaf && children != [])
      && forall r :: r in sourceRanges ==> r.IsValid()
    }
  }

  datatype TilePlan = TilePlan(plannerId: string, plannerVersion: nat, nodes: seq<TilePlanNode>)

  const EMPTY_TILE_PLAN := TilePlan("", 0, [])

  // ----- What the checks say, node by node

  predicate UniqueUpTo(nodes: seq<TilePlanNode>, k: nat)
    requires k <= |nodes|
  {
    forall i, j :: 0 <= i < j < k ==> nodes[i].id != nodes[j].id
  }

  /** The node names a parent one level up that names it back, or the sentinel. */
  predicate ParentOk(nodes: seq<TilePlanNode>, n: TilePlanNode)
  {
    && n.parent.level >= -1
    && (n.parent.level == -1 ==> n.parent == NO_TILE)
    && (n.parent.level >= 0 ==>
          && n.id.level - n.parent.level == 1
          && exists j :: 0 <= j < |nodes| && nodes[j].id == n.parent && n.id in nodes[j].children)
  }

  /** `child` is a node one level down that names `n` as its parent. */
  predicate ChildOk(nodes: seq<TilePlanNode>, n: TilePlanNode, child: TileId)
  {
    && child.level - n.id.level == 1
    && exists j :: 0 <= j < |nodes| && nodes[j].id == child && nodes[j].parent == n.id
  }

  predicate ChildrenOk(nodes: seq<TilePlanNode>, n: TilePlanNode)
  {
    Distinct(n.children) && forall k :: 0 <= k < |n.children| ==> ChildOk(nodes, n, n.children[k])
  }

  predicate NodeOk(nodes: seq<TilePlanNode>, n: TilePlanNode)
  {
    ParentOk(nodes, n) && ChildrenOk(nodes, n) && (!n.isLeaf ==> n.children != [])
  }

  predicate IsRoot(n: TilePlanNode) { n.parent.level == -1 }

  function RootCount(nodes: seq<TilePlanNode>): nat
  {
    if nodes == [] then 0
    else RootCount(nodes[..|nodes| - 1]) + if IsRoot(nodes[|nodes| - 1]) then 1 else 0
  }

  predicate SingleLine(text: string)
  {
    text != "" && '\n' !in text && '\r' !in text
  }

  /** Everything that is checked without walking the tree. */
  predicate LocallyChecked(plan: TilePlan)
  {
    && SingleLine(plan.plannerId) && plan.plannerVersion > 0
    && (forall n :: n in plan.nodes ==> n.IsValid())
    && UniqueUpTo(plan.nodes, |plan.nodes|)
    && (forall n :: n in plan.nodes ==> NodeOk(plan.nodes, n))
    && (plan.nodes != [] ==> RootCount(plan.nodes) == 1)
  }

  // ----- The validator

  /** The index of the first node with the identity, or the number of nodes. */
  method FindNode(nodes: seq<TilePlanNode>, id: TileId) returns (k: nat)
    ensures k <= |nodes| && (k < |nodes| ==> nodes[k].id == id)
    ensures forall j :: 0 <= j < k ==> nodes[j].id != id
  {
    k := 0;
    while k < |nodes| && nodes[k].id != id
      invariant k <= |nodes| && forall j :: 0 <= j < k ==> nodes[j].id != id
    {
      k := k + 1;
    }
  }

  /** With unique identities the first node found is the only one. */
  lemma FirstIsOnly(nodes: seq<TilePlanNode>, k: nat, j: nat)
    requires UniqueUpTo(nodes, |nodes|) && k < |nodes| && j < |nodes| && nodes[k].id == nodes[j].id
    ensures k == j
  {
  }

  method CheckParent(nodes: seq<TilePlanNode>, n: TilePlanNode) returns (ok: bool)
    ensures ok ==> ParentOk(nodes, n)
    ensures !ok && UniqueUpTo(nodes, |nodes|) ==> !ParentOk(nodes, n)
  {
    if n.parent.level == -1 {
      ok := n.parent.x == 0 && n.parent.y == 0 && n.parent.z == 0;
    } else if n.parent.level < -1 {
      ok := false;
    } else if n.id.level - n.parent.level != 1 {
      ok := false;
    } else {
      var k := FindNode(nodes, n.parent);
      ok := k < |nodes| && n.id in nodes[k].children;
    }
  }

  method CheckChildren(nodes: seq<TilePlanNode>, n: TilePlanNode) returns (ok: bool)
    ensures ok ==> ChildrenOk(nodes, n)
    ensures !ok && UniqueUpTo(nodes, |nodes|) ==> !ChildrenOk(nodes, n)
  {
    var c := 0;
    while c < |n.children|
      invariant 0 <= c <= |n.children| && Distinct(n.children[..c])
      invariant forall k :: 0 <= k < c ==> ChildOk(nodes, n, n.children[k])
    {
      var child := n.children[c];
      if child in n.children[..c] {
        return false;
      }
      var k := FindNode(nodes, child);
      if k == |nodes| || child.level - n.id.level != 1 || nodes[k].parent != n.id {
        if UniqueUpTo(nodes, |nodes|) {
          assert !ChildOk(nodes, n, child);
        }
        return false;
      }
      assert ChildOk(nodes, n, child);
      c := c + 1;
    }
    assert n.children[..c] == n.children;
    ok := true;
  }

  method CheckNode(nodes: seq<TilePlanNode>, n: TilePlanNode) returns (ok: bool)
    ensures ok ==> NodeOk(nodes, n)
    ensures !ok && UniqueUpTo(nodes, |nodes|) ==> !NodeOk(nodes, n)
  {
    hide ParentOk, ChildrenOk, UniqueUpTo;
    var parentOk := CheckParent(nodes, n);
    var childrenOk := CheckChildren(nodes, n);
    ok := parentOk && childrenOk && (n.isLeaf || n.children != []);
  }

  lemma UniqueNext(nodes: seq<TilePlanNode>, k: nat)
    requires k < |nodes| && UniqueUpTo(nodes, k) && forall j :: 0 <= j < k ==> nodes[j].id != nodes[k].id
    ensures UniqueUpTo(nodes, k + 1)
  {
  }

  /** The first loop: identities, parents, children and leaves, and the root. */
  method CheckNodes(nodes: seq<TilePlanNode>) returns (ok: bool, rootCount: nat, rootIndex: nat)
    ensures ok <==> UniqueUpTo(nodes, |nodes|) && forall n :: n in nodes ==> NodeOk(nodes, n)
    ensures ok ==> rootCount == RootCount(nodes)
    ensures ok && rootCount > 0 ==> rootIndex < |nodes| && IsRoot(nodes[rootIndex])
  {
    hide NodeOk;
    rootCount, rootIndex := 0, 0;
    var k := 0;
    while k < |nodes|
      invariant 0 <= k <= |nodes| && UniqueUpTo(nodes, k)
      invariant forall j :: 0 <= j < k ==> NodeOk(nodes, nodes[j])
      invariant rootCount == RootCount(nodes[..k])
      invariant rootCount > 0 ==> rootIndex < k && IsRoot(nodes[rootIndex])
    {
      var n := nodes[k];
      var previous := FindNode(nodes, n.id);
      if previous < k {
        return false, rootCount, rootIndex;
      }
      var nodeOk := CheckNode(nodes, n);
      if !nodeOk {
        assert n in nodes;
        return false, rootCount, rootIndex;
      }
      UniqueNext(nodes, k);
      if IsRoot(n) {
        rootCount, rootIndex := rootCount + 1, k;
      }
      assert nodes[..k + 1][..k] == nodes[..k];
      k := k + 1;
    }
    assert nodes[..k] == nodes;
    ok := true;
  }

  // ----- The walk from the root

  /** The nodes pass the first loop. */
  ghost predicate Linked(nodes: seq<TilePlanNode>)
  {
    UniqueUpTo(nodes, |nodes|) && forall i :: 0 <= i < |nodes| ==> nodes[i].id.IsValid() && NodeOk(nodes, nodes[i])
  }

  function TopLevel(nodes: seq<TilePlanNode>): (r: int)
    ensures forall i :: 0 <= i < |nodes| ==> nodes[i].id.level <= r
  {
    if nodes == [] then 0
    else
      var r := TopLevel(nodes[..|nodes| - 1]);
      var l := nodes[|nodes| - 1].id.level;
      assert forall i :: 0 <= i < |nodes| - 1 ==> nodes[i] == nodes[..|nodes| - 1][i];
      if r < l then l else r
  }

  /** Visited nodes have their children visited, except for the nodes still on the stack. */
  ghost predicate ClosedBelow(nodes: seq<TilePlanNode>, state: seq<nat>)
    requires |state| == |nodes|
  {
    forall i, j :: 0 <= i < |nodes| && 0 <= j < |nodes| && state[i] == 2 && nodes[j].id in nodes[i].children
      ==> state[j] == 2
  }

  /** The nodes still on the stack are above `level`. */
  ghost predicate StackAbove(nodes: seq<TilePlanNode>, state: seq<nat>, level: int)
    requires |state| == |nodes|
  {
    forall i :: 0 <= i < |nodes| && state[i] == 1 ==> nodes[i].id.level < level
  }

  /** A node is met only after every node that names it as a child. */
  ghost predicate MetFromAbove(nodes: seq<TilePlanNode>, state: seq<nat>)
    requires |state| == |nodes|
  {
    forall i, j :: 0 <= i < |nodes| && 0 <= j < |nodes| && nodes[j].id in nodes[i].children && state[j] != 0
      ==> state[i] != 0
  }

  /** What a walk below `index` changes: `index` and deeper nodes, from unmet to done. */
  ghost predicate WalkedBelow(nodes: seq<TilePlanNode>, was: seq<nat>, now: seq<nat>, index: nat)
    requires |was| == |now| == |nodes| && index < |nodes|
  {
    forall i :: 0 <= i < |nodes| && now[i] != was[i] ==>
      was[i] == 0 && now[i] == 2 && (i == index || nodes[i].id.level > nodes[index].id.level)
  }

  /** A child's only parent is the node that lists it. */
  lemma OneParent(nodes: seq<TilePlanNode>, i: nat, j: nat, k: nat)
    requires Linked(nodes) && i < |nodes| && j < |nodes| && k < |nodes|
    requires nodes[k].id in nodes[i].children && nodes[k].id in nodes[j].children
    ensures i == j && nodes[k].parent == nodes[i].id && nodes[k].id.level == nodes[i].id.level + 1
  {
    var a :| 0 <= a < |nodes[i].children| && nodes[i].children[a] == nodes[k].id;
    var b :| 0 <= b < |nodes[j].children| && nodes[j].children[b] == nodes[k].id;
    assert ChildOk(nodes, nodes[i], nodes[i].children[a]) && ChildOk(nodes, nodes[j], nodes[j].children[b]);
    var x :| 0 <= x < |nodes| && nodes[x].id == nodes[k].id && nodes[x].parent == nodes[i].id;
    var y :| 0 <= y < |nodes| && nodes[y].id == nodes[k].id && nodes[y].parent == nodes[j].id;
    FirstIsOnly(nodes, x, k);
    FirstIsOnly(nodes, y, k);
    FirstIsOnly(nodes, i, j);
  }

  /** A listed child is a node, one level down, that only this node lists. */
  lemma ChildFound(nodes: seq<TilePlanNode>, index: nat, c: nat, k: nat)
    requires Linked(nodes) && index < |nodes| && c < |nodes[index].children|
    requires k <= |nodes| && (k < |nodes| ==> nodes[k].id == nodes[index].children[c])
    requires forall j :: 0 <= j < k ==> nodes[j].id != nodes[index].children[c]
    ensures k < |nodes| && nodes[k].id.level == nodes[index].id.level + 1
    ensures forall i :: 0 <= i < |nodes| && nodes[k].id in nodes[i].children ==> i == index
  {
    var child := nodes[index].children[c];
    assert ChildOk(nodes, nodes[index], child);
    assert k < |nodes|;
    forall i | 0 <= i < |nodes| && nodes[k].id in nodes[i].children ensures i == index {
      OneParent(nodes, index, i, k);
    }
  }

  /** A walk below one child leaves its siblings and its parent alone. */
  lemma SiblingsUntouched(nodes: seq<TilePlanNode>, was: seq<nat>, now: seq<nat>, index: nat, k: nat)
    requires Linked(nodes) && index < |nodes| && k < |nodes| && |was| == |now| == |nodes|
    requires nodes[k].id in nodes[index].children && WalkedBelow(nodes, was, now, k)
    ensures forall j :: 0 <= j < |nodes| && nodes[j].id in nodes[index].children && j != k ==> now[j] == was[j]
    ensures now[index] == was[index] && WalkedBelow(nodes, was, now, index)
  {
    OneParent(nodes, index, index, k);
    forall j | 0 <= j < |nodes| && nodes[j].id in nodes[index].children && j != k ensures now[j] == was[j] {
      OneParent(nodes, index, index, j);
    }
  }

  lemma DistinctSplit(ids: seq<TileId>, c: nat, id: TileId)
    requires Distinct(ids) && c < |ids|
    ensures id in ids[..c + 1] <==> id in ids[..c] || id == ids[c]
    ensures id in ids[c + 1..] <==> id in ids[c..] && id != ids[c]
  {
    assert ids[..c + 1] == ids[..c] + [ids[c]];
    assert ids[c..] == [ids[c]] + ids[c + 1..];
  }

  /** Putting `index` on the stack. */
  lemma StartWalk(nodes: seq<TilePlanNode>, was: seq<nat>, index: nat)
    requires Linked(nodes) && |was| == |nodes| && index < |nodes| && was[index] == 0
    requires StackAbove(nodes, was, nodes[index].id.level)
    requires ClosedBelow(nodes, was) && MetFromAbove(nodes, was)
    requires forall i :: 0 <= i < |nodes| && nodes[index].id in nodes[i].children ==> was[i] != 0
    ensures var now := was[index := 1];
      && StackAbove(nodes, now, nodes[index].id.level + 1)
      && ClosedBelow(nodes, now) && MetFromAbove(nodes, now)
      && forall j :: 0 <= j < |nodes| && nodes[j].id in nodes[index].children ==> now[j] == 0
  {
    forall j | 0 <= j < |nodes| && nodes[j].id in nodes[index].children ensures j != index && was[j] == 0 {
      OneParent(nodes, index, index, j);
    }
  }

  /** Taking `index` off the stack again. */
  lemma EndWalk(nodes: seq<TilePlanNode>, was: seq<nat>, mid: seq<nat>, index: nat)
    requires |was| == |mid| == |nodes| && index < |nodes| && was[index] == 0 && mid[index] == 1
    requires WalkedBelow(nodes, was[index := 1], mid, index)
    requires ClosedBelow(nodes, mid) && MetFromAbove(nodes, mid)
    requires forall j :: 0 <= j < |nodes| && nodes[j].id in nodes[index].children ==> mid[j] == 2
    ensures var now := mid[index := 2];
      WalkedBelow(nodes, was, now, index) && ClosedBelow(nodes, now) && MetFromAbove(nodes, now)
  {
  }

  /** The walk from `index`. It is only ever started at a node that was not met before, so the tests for
      a cycle and for a node already done never fire, and it always succeeds. */
  method Visit(nodes: seq<TilePlanNode>, state: array<nat>, index: nat) returns (ok: bool)
    requires Linked(nodes) && state.Length == |nodes| && index < |nodes|
    requires state[index] == 0 && StackAbove(nodes, state[..], nodes[index].id.level)
    requires ClosedBelow(nodes, state[..]) && MetFromAbove(nodes, state[..])
    requires forall i :: 0 <= i < |nodes| && nodes[index].id in nodes[i].children ==> state[i] != 0
    modifies state
    ensures ok && state[index] == 2
    ensures WalkedBelow(nodes, old(state[..]), state[..], index)
    ensures ClosedBelow(nodes, state[..]) && MetFromAbove(nodes, state[..])
    decreases TopLevel(nodes) - nodes[index].id.level, 1
  {
    hide Linked, ClosedBelow, MetFromAbove, StackAbove, WalkedBelow, TopLevel;
    if state[index] == 1 {
      ok := false;
    } else if state[index] == 2 {
      ok := true;
    } else {
      StartWalk(nodes, state[..], index);
      state[index] := 1;
      assert state[..] == old(state[..])[index := 1];
      ok := VisitChildren(nodes, state, index);
      if ok {
        ghost var mid := state[..];
        EndWalk(nodes, old(state[..]), mid, index);
        state[index] := 2;
        assert state[..] == mid[index := 2];
      }
    }
  }

  method VisitChildren(nodes: seq<TilePlanNode>, state: array<nat>, index: nat) returns (ok: bool)
    requires Linked(nodes) && state.Length == |nodes| && index < |nodes|
    requires state[index] == 1 && StackAbove(nodes, state[..], nodes[index].id.level + 1)
    requires ClosedBelow(nodes, state[..]) && MetFromAbove(nodes, state[..])
    requires forall j :: 0 <= j < |nodes| && nodes[j].id in nodes[index].children ==> state[j] == 0
    modifies state
    ensures ok && state[index] == 1
    ensures forall j :: 0 <= j < |nodes| && nodes[j].id in nodes[index].children ==> state[j] == 2
    ensures WalkedBelow(nodes, old(state[..]), state[..], index)
    ensures ClosedBelow(nodes, state[..]) && MetFromAbove(nodes, state[..])
    decreases TopLevel(nodes) - nodes[index].id.level, 0
  {
    hide Linked, ClosedBelow, MetFromAbove, TopLevel;
    var children := nodes[index].children;
    var c := 0;
    ok := true;
    while c < |children| && ok
      invariant 0 <= c <= |children| && ok
      invariant state[index] == 1
      invariant WalkedBelow(nodes, old(state[..]), state[..], index)
      invariant StackAbove(nodes, state[..], nodes[index].id.level + 1)
      invariant ClosedBelow(nodes, state[..]) && MetFromAbove(nodes, state[..])
      invariant forall j :: 0 <= j < |nodes| && nodes[j].id in children[..c] ==> state[j] == 2
      invariant forall j :: 0 <= j < |nodes| && nodes[j].id in children[c..] ==> state[j] == 0
    {
      var k := FindNode(nodes, children[c]);
      ChildFound(nodes, index, c, k);
      ok := k < |nodes|;
      if ok {
        ghost var was := state[..];
        LevelsBounded(nodes, index, k);
        ok := Visit(nodes, state, k);
        SiblingsUntouched(nodes, was, state[..], index, k);
        OnlyNode(nodes, k);
        forall id ensures id in children[..c + 1] <==> id in children[..c] || id == children[c]
          ensures id in children[c + 1..] <==> id in children[c..] && id != children[c]
        {
          ChildrenDistinct(nodes, index);
          DistinctSplit(children, c, id);
        }
      }
      c := c + 1;
    }
  }

  lemma OnlyNode(nodes: seq<TilePlanNode>, k: nat)
    requires Linked(nodes) && k < |nodes|
    ensures forall j :: 0 <= j < |nodes| && nodes[j].id == nodes[k].id ==> j == k
  {
  }

  lemma ChildrenDistinct(nodes: seq<TilePlanNode>, index: nat)
    requires Linked(nodes) && index < |nodes|
    ensures Distinct(nodes[index].children)
  {
  }

  lemma LevelsBounded(nodes: seq<TilePlanNode>, i: nat, k: nat)
    requires i < |nodes| && k < |nodes|
    ensures nodes[i].id.level <= TopLevel(nodes) && nodes[k].id.level <= TopLevel(nodes)
  {
  }

  lemma {:induction false} NoRootUnlessCounted(nodes: seq<TilePlanNode>, i: nat)
    requires i < |nodes| && IsRoot(nodes[i])
    ensures RootCount(nodes) > 0
  {
    if i < |nodes| - 1 {
      NoRootUnlessCounted(nodes[..|nodes| - 1], i);
    }
  }

  lemma {:induction false} OneRoot(nodes: seq<TilePlanNode>, i: nat, j: nat)
    requires RootCount(nodes) <= 1 && i < |nodes| && j < |nodes| && IsRoot(nodes[i]) && IsRoot(nodes[j])
    ensures i == j
  {
    var m := |nodes| - 1;
    if i < m && j < m {
      OneRoot(nodes[..m], i, j);
    } else if i < m {
      NoRootUnlessCounted(nodes[..m], i);
    } else if j < m {
      NoRootUnlessCounted(nodes[..m], j);
    }
  }

  lemma {:induction false} RootCountOne(nodes: seq<TilePlanNode>, root: nat)
    requires root < |nodes| && forall j :: 0 <= j < |nodes| ==> (IsRoot(nodes[j]) <==> j == root)
    ensures RootCount(nodes) == 1
  {
    var m := |nodes| - 1;
    if root == m {
      NoRoots(nodes[..m]);
    } else {
      RootCountOne(nodes[..m], root);
    }
  }

  lemma {:induction false} NoRoots(nodes: seq<TilePlanNode>)
    requires forall j :: 0 <= j < |nodes| ==> !IsRoot(nodes[j])
    ensures RootCount(nodes) == 0
  {
    if nodes != [] {
      NoRoots(nodes[..|nodes| - 1]);
    }
  }

  /** A node below the root is listed by its parent, one level up. */
  lemma ParentListed(nodes: seq<TilePlanNode>, j: nat) returns (i: nat)
    requires Linked(nodes) && j < |nodes| && !IsRoot(nodes[j])
    ensures i < |nodes| && nodes[i].id == nodes[j].parent && nodes[j].id in nodes[i].children
    ensures nodes[i].id.level + 1 == nodes[j].id.level
  {
    assert NodeOk(nodes, nodes[j]);
    i :| 0 <= i < |nodes| && nodes[i].id == nodes[j].parent && nodes[j].id in nodes[i].children;
  }

  /** A walk that has finished at the only root has met every node. */
  lemma {:induction false} EveryNodeMet(nodes: seq<TilePlanNode>, state: seq<nat>, root: nat, j: nat)
    requires Linked(nodes) && RootCount(nodes) == 1 && |state| == |nodes|
    requires root < |nodes| && IsRoot(nodes[root]) && state[root] == 2 && ClosedBelow(nodes, state)
    requires j < |nodes|
    ensures state[j] == 2
    decreases nodes[j].id.level
  {
    if IsRoot(nodes[j]) {
      OneRoot(nodes, root, j);
    } else {
      var i := ParentListed(nodes, j);
      EveryNodeMet(nodes, state, root, i);
    }
  }

  lemma LinkedFromChecks(nodes: seq<TilePlanNode>)
    requires UniqueUpTo(nodes, |nodes|) && forall n :: n in nodes ==> n.IsValid() && NodeOk(nodes, n)
    ensures Linked(nodes)
  {
    hide NodeOk;
    forall i | 0 <= i < |nodes| ensures nodes[i].id.IsValid() && NodeOk(nodes, nodes[i]) {
      assert nodes[i] in nodes;
    }
  }

  /** Accepts exactly the plans that pass the local checks: the walk from the root, which follows them,
      turns nothing down. */
  method ValidateTilePlan(plan: TilePlan) returns (accepted: bool)
    ensures accepted <==> LocallyChecked(plan)
  {
    hide NodeOk;
    if !SingleLine(plan.plannerId) || plan.plannerVersion == 0 {
      return false;
    }
    if !(forall n :: n in plan.nodes ==> n.IsValid()) {
      return false;
    }
    var nodes := plan.nodes;
    var nodesOk, rootCount, rootIndex := CheckNodes(nodes);
    if !nodesOk {
      return false;
    }
    if nodes != [] && rootCount != 1 {
      return false;
    }
    accepted := true;
    if nodes != [] {
      var state := new nat[|nodes|](_ => 0);
      LinkedFromChecks(nodes);
      RootUnlisted(nodes, rootIndex);
      accepted := Visit(nodes, state, rootIndex);
      var k := 0;
      while k < |nodes| && accepted
        invariant 0 <= k <= |nodes| && accepted
        invariant state[rootIndex] == 2 && ClosedBelow(nodes, state[..])
      {
        EveryNodeMet(nodes, state[..], rootIndex, k);
        accepted := state[k] != 0;
        k := k + 1;
      }
    }
  }

  /** No node lists the root as a child. */
  lemma RootUnlisted(nodes: seq<TilePlanNode>, root: nat)
    requires Linked(nodes) && root < |nodes| && IsRoot(nodes[root])
    ensures forall i :: 0 <= i < |nodes| ==> nodes[root].id !in nodes[i].children
  {
    forall i | 0 <= i < |nodes| ensures nodes[root].id !in nodes[i].children {
      if nodes[root].id in nodes[i].children {
        assert false;
      }
    }
  }

  // ----- An accepted plan is a tree

  /** The parent that the node with identity `id` names. */
  ghost function ParentOf(nodes: seq<TilePlanNode>, id: TileId): TileId
  {
    if exists j :: 0 <= j < |nodes| && nodes[j].id == id
    then var j :| 0 <= j < |nodes| && nodes[j].id == id; nodes[j].parent
    else NO_TILE
  }

  ghost function Climb(nodes: seq<TilePlanNode>, id: TileId, steps: nat): TileId
    decreases steps
  {
    if steps == 0 then id else Climb(nodes, ParentOf(nodes, id), steps - 1)
  }

  lemma LinkedMeans(nodes: seq<TilePlanNode>, j: nat)
    requires Linked(nodes) && j < |nodes|
    ensures UniqueUpTo(nodes, |nodes|) && nodes[j].id.IsValid()
  {
  }

  lemma {:induction false} ClimbsToRoot(nodes: seq<TilePlanNode>, root: nat, j: nat)
    requires Linked(nodes) && RootCount(nodes) == 1 && root < |nodes| && IsRoot(nodes[root]) && j < |nodes|
    ensures nodes[root].id.level <= nodes[j].id.level
    ensures Climb(nodes, nodes[j].id, nodes[j].id.level - nodes[root].id.level) == nodes[root].id
    decreases nodes[j].id.level
  {
    hide NodeOk, ParentOf, RootCount, Linked;
    assert UniqueUpTo(nodes, |nodes|) && nodes[j].id.IsValid() by { LinkedMeans(nodes, j); }
    if IsRoot(nodes[j]) {
      OneRoot(nodes, root, j);
    } else {
      var i := ParentListed(nodes, j);
      ClimbsToRoot(nodes, root, i);
      ParentOfNode(nodes, j);
    }
  }

  lemma ParentOfNode(nodes: seq<TilePlanNode>, j: nat)
    requires UniqueUpTo(nodes, |nodes|) && j < |nodes|
    ensures ParentOf(nodes, nodes[j].id) == nodes[j].parent
  {
    var k :| 0 <= k < |nodes| && nodes[k].id == nodes[j].id && nodes[k].parent == ParentOf(nodes, nodes[j].id);
    FirstIsOnly(nodes, k, j);
  }

  lemma {:induction false} RootExists(nodes: seq<TilePlanNode>) returns (root: nat)
    requires RootCount(nodes) > 0
    ensures root < |nodes| && IsRoot(nodes[root])
  {
    var m := |nodes| - 1;
    if IsRoot(nodes[m]) {
      root := m;
    } else {
      root := RootExists(nodes[..m]);
    }
  }

  /** The root is the only node with the sentinel parent, and every node climbs to it in as many steps
      as it is levels deeper. */
  ghost predicate Rooted(nodes: seq<TilePlanNode>, root: nat)
    requires root < |nodes|
  {
    forall j :: 0 <= j < |nodes| ==>
      && (IsRoot(nodes[j]) <==> j == root)
      && nodes[root].id.level <= nodes[j].id.level
      && Climb(nodes, nodes[j].id, nodes[j].id.level - nodes[root].id.level) == nodes[root].id
  }

  /** Every node but the root is listed once, by the parent it names; the root is listed by none. */
  ghost predicate ListedOnce(nodes: seq<TilePlanNode>, root: nat)
    requires root < |nodes|
  {
    && (forall i :: 0 <= i < |nodes| ==> nodes[root].id !in nodes[i].children && Distinct(nodes[i].children))
    && (forall j :: 0 <= j < |nodes| && j != root ==> HasOneParent(nodes, j))
  }

  ghost predicate HasOneParent(nodes: seq<TilePlanNode>, j: nat)
    requires j < |nodes|
  {
    exists i :: ListsAlone(nodes, i, j)
  }

  /** Node `i` is the parent that node `j` names, and the only node that lists it. */
  ghost predicate ListsAlone(nodes: seq<TilePlanNode>, i: int, j: nat)
    requires j < |nodes|
  {
    && 0 <= i < |nodes| && nodes[i].id == nodes[j].parent && nodes[j].id in nodes[i].children
    && forall k :: 0 <= k < |nodes| && nodes[j].id in nodes[k].children ==> k == i
  }

  lemma LinkedPlanIsTree(nodes: seq<TilePlanNode>, root: nat)
    requires Linked(nodes) && RootCount(nodes) == 1 && root < |nodes| && IsRoot(nodes[root])
    ensures Rooted(nodes, root) && ListedOnce(nodes, root)
  {
    hide Linked, Climb, RootCount;
    forall j | 0 <= j < |nodes|
      ensures IsRoot(nodes[j]) <==> j == root
      ensures nodes[root].id.level <= nodes[j].id.level
      ensures Climb(nodes, nodes[j].id, nodes[j].id.level - nodes[root].id.level) == nodes[root].id
    {
      ClimbsToRoot(nodes, root, j);
      if IsRoot(nodes[j]) { OneRoot(nodes, root, j); }
    }
    RootUnlisted(nodes, root);
    forall i | 0 <= i < |nodes| ensures Distinct(nodes[i].children) {
      ChildrenDistinct(nodes, i);
    }
    forall j | 0 <= j < |nodes| && j != root ensures HasOneParent(nodes, j) {
      var i := ParentListed(nodes, j);
      forall k | 0 <= k < |nodes| && nodes[j].id in nodes[k].children ensures k == i {
        OneParent(nodes, i, k, j);
      }
      assert ListsAlone(nodes, i, j);
    }
  }

  /** A non-empty plan that is accepted is a tree. */
  lemma AcceptedPlanIsTree(plan: TilePlan) returns (root: nat)
    requires LocallyChecked(plan) && plan.nodes != []
    ensures root < |plan.nodes| && Rooted(plan.nodes, root) && ListedOnce(plan.nodes, root)
  {
    LinkedFromChecks(plan.nodes);
    hide Linked, Rooted, ListedOnce, NodeOk;
    root := RootExists(plan.nodes);
    LinkedPlanIsTree(plan.nodes, root);
  }
}
