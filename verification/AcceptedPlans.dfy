/** Which tile plans are accepted, said over their nodes. */
module AcceptedPlans {
  import opened TileIds
  import opened Seqs
  import opened TilePlan

  /** A text of at least one character, on one line. */
  predicate OneLine(text: string)
  {
    |text| > 0 && forall k :: 0 <= k < |text| ==> text[k] != '\n' && text[k] != '\r'
  }

  predicate FieldsOk(n: TilePlanNode)
  {
    && n.id.level >= 0 && n.pointCount > 0 && (n.isLeaf <==> n.children == [])
    && n.bounds.Bounds?
    && n.bounds.minimum.x <= n.bounds.maximum.x && n.bounds.minimum.y <= n.bounds.maximum.y
    && n.bounds.minimum.z <= n.bounds.maximum.z
    && forall k :: 0 <= k < |n.sourceRanges| ==>
         0 < n.sourceRanges[k].length && n.sourceRanges[k].offset + n.sourceRanges[k].length < 0x1_0000_0000_0000_0000
  }

  predicate HasId(nodes: seq<TilePlanNode>, id: TileId)
  {
    exists k :: 0 <= k < |nodes| && nodes[k].id == id
  }

  /** Nodes list as children, each once, exactly those nodes that name them as parents, which are one level down. */
  predicate ChildrenAreNamed(nodes: seq<TilePlanNode>)
  {
    && (forall i, j :: 0 <= i < |nodes| && 0 <= j < |nodes| ==> NamedAsListed(nodes[i], nodes[j]))
    && (forall n, c :: n in nodes && c in n.children ==> HasId(nodes, c))
    && (forall n :: n in nodes ==> Distinct(n.children))
  }

  predicate NamedAsListed(parent: TilePlanNode, child: TilePlanNode)
  {
    && (child.id in parent.children <==> child.parent == parent.id)
    && (child.parent == parent.id ==> child.id.level == parent.id.level + 1)
  }

  /** One node, and only one, names no parent; the others name nodes. */
  ghost predicate OneTopNode(nodes: seq<TilePlanNode>)
  {
    exists root :: TopNodeAt(nodes, root)
  }

  ghost predicate TopNodeAt(nodes: seq<TilePlanNode>, root: int)
  {
    && 0 <= root < |nodes|
    && forall j :: 0 <= j < |nodes| ==>
         if j == root then nodes[j].parent == TileId(-1, 0, 0, 0) else HasId(nodes, nodes[j].parent)
  }

  ghost predicate IsTreeOfNodes(nodes: seq<TilePlanNode>)
  {
    && (forall i, j :: 0 <= i < j < |nodes| ==> nodes[i].id != nodes[j].id)
    && ChildrenAreNamed(nodes) && (nodes != [] ==> OneTopNode(nodes))
  }

  lemma FieldsExactly(n: TilePlanNode)
    ensures FieldsOk(n) <==> n.IsValid() && (!n.isLeaf ==> n.children != [])
  {
    assert forall k :: 0 <= k < |n.sourceRanges| ==> n.sourceRanges[k] in n.sourceRanges;
  }

  ghost predicate AllFieldsOk(nodes: seq<TilePlanNode>) { forall n :: n in nodes ==> FieldsOk(n) }

  lemma CheckedIsTree(nodes: seq<TilePlanNode>)
    requires AllFieldsOk(nodes) && UniqueUpTo(nodes, |nodes|) && (forall n :: n in nodes ==> NodeOk(nodes, n))
    requires nodes != [] ==> RootCount(nodes) == 1
    ensures IsTreeOfNodes(nodes)
  {
    forall i, j | 0 <= i < |nodes| && 0 <= j < |nodes| ensures NamedAsListed(nodes[i], nodes[j]) {
      ListedIsNamed(nodes, i, j);
    }
    forall n, c | n in nodes && c in n.children ensures HasId(nodes, c) {
      var k :| 0 <= k < |n.children| && n.children[k] == c;
      assert ChildOk(nodes, n, n.children[k]);
    }
    if nodes != [] {
      var root := RootExists(nodes);
      forall j | 0 <= j < |nodes|
        ensures if j == root then nodes[j].parent == TileId(-1, 0, 0, 0) else HasId(nodes, nodes[j].parent)
      {
        assert nodes[j] in nodes && ParentOk(nodes, nodes[j]);
        if j != root && IsRoot(nodes[j]) {
          OneRoot(nodes, root, j);
          assert false;
        }
      }
      assert TopNodeAt(nodes, root);
    }
  }

  lemma ListedIsNamed(nodes: seq<TilePlanNode>, i: nat, j: nat)
    requires AllFieldsOk(nodes) && UniqueUpTo(nodes, |nodes|) && (forall n :: n in nodes ==> NodeOk(nodes, n))
    requires i < |nodes| && j < |nodes|
    ensures NamedAsListed(nodes[i], nodes[j])
  {
    var parent, child := nodes[i], nodes[j];
    assert parent in nodes && child in nodes;
    hide FieldsOk;
    if child.id in parent.children {
      var k :| 0 <= k < |parent.children| && parent.children[k] == child.id;
      assert ChildOk(nodes, parent, parent.children[k]);
      var m :| 0 <= m < |nodes| && nodes[m].id == child.id && nodes[m].parent == parent.id;
      assert m == j;
    }
    if child.parent == parent.id {
      LevelsOk(nodes, parent);
      var m :| 0 <= m < |nodes| && nodes[m].id == child.parent && child.id in nodes[m].children;
      assert m == i;
    }
  }

  lemma LevelsOk(nodes: seq<TilePlanNode>, n: TilePlanNode)
    requires AllFieldsOk(nodes) && n in nodes
    ensures n.id.level >= 0
  {
    assert FieldsOk(n);
  }

  lemma TreeIsChecked(nodes: seq<TilePlanNode>)
    requires AllFieldsOk(nodes) && IsTreeOfNodes(nodes)
    ensures UniqueUpTo(nodes, |nodes|) && (forall n :: n in nodes ==> NodeOk(nodes, n))
    ensures nodes != [] ==> RootCount(nodes) == 1
  {
    if nodes != [] {
      var root :| TopNodeAt(nodes, root);
      forall n | n in nodes ensures NodeOk(nodes, n) {
        var i :| 0 <= i < |nodes| && nodes[i] == n;
        TreeNodeOk(nodes, root, i);
      }
      forall j | 0 <= j < |nodes| ensures IsRoot(nodes[j]) <==> j == root {
        if j != root {
          var k :| 0 <= k < |nodes| && nodes[k].id == nodes[j].parent;
          LevelsOk(nodes, nodes[k]);
        }
      }
      RootCountOne(nodes, root);
    }
  }

  lemma TreeNodeOk(nodes: seq<TilePlanNode>, root: nat, i: nat)
    requires AllFieldsOk(nodes) && IsTreeOfNodes(nodes) && TopNodeAt(nodes, root) && i < |nodes|
    ensures NodeOk(nodes, nodes[i])
  {
    var n := nodes[i];
    assert n in nodes && FieldsOk(n);
    LeafChildren(n);
    TreeParentOk(nodes, root, i);
    hide FieldsOk, TopNodeAt, ParentOk, ChildOk, AllFieldsOk;
    forall k | 0 <= k < |n.children| ensures ChildOk(nodes, n, n.children[k]) {
      assert n.children[k] in n.children;
      TreeChildOk(nodes, n, n.children[k]);
    }
  }

  lemma TreeParentOk(nodes: seq<TilePlanNode>, root: nat, i: nat)
    requires AllFieldsOk(nodes) && ChildrenAreNamed(nodes) && TopNodeAt(nodes, root) && i < |nodes|
    ensures ParentOk(nodes, nodes[i])
  {
    hide FieldsOk;
    if i != root {
      assert HasId(nodes, nodes[i].parent);
      var j :| 0 <= j < |nodes| && nodes[j].id == nodes[i].parent;
      LevelsOk(nodes, nodes[j]);
      assert NamedAsListed(nodes[j], nodes[i]);
    }
  }

  lemma TreeChildOk(nodes: seq<TilePlanNode>, n: TilePlanNode, c: TileId)
    requires ChildrenAreNamed(nodes) && n in nodes && c in n.children
    ensures ChildOk(nodes, n, c)
  {
    assert HasId(nodes, c);
    var j :| 0 <= j < |nodes| && nodes[j].id == c;
    var i :| 0 <= i < |nodes| && nodes[i] == n;
    assert NamedAsListed(nodes[i], nodes[j]);
  }

  lemma LeafChildren(n: TilePlanNode)
    requires FieldsOk(n)
    ensures !n.isLeaf ==> n.children != []
  {
  }

  /** A plan is accepted exactly when its planner's name is one line and its version above zero, all nodes' fields are in
      order, and the nodes are a tree, or there are none. */
  lemma AcceptedExactly(plan: TilePlan)
    ensures LocallyChecked(plan) <==>
      OneLine(plan.plannerId) && plan.plannerVersion >= 1 && AllFieldsOk(plan.nodes) && IsTreeOfNodes(plan.nodes)
  {
    hide NodeOk, FieldsOk, IsTreeOfNodes, RootCount, TilePlanNode.IsValid;
    OneLineExactly(plan.plannerId);
    forall n | n in plan.nodes ensures FieldsOk(n) <==> n.IsValid() && (!n.isLeaf ==> n.children != []) {
      FieldsExactly(n);
    }
    forall n | n in plan.nodes && NodeOk(plan.nodes, n) ensures !n.isLeaf ==> n.children != [] {
      InnerHasChildren(plan.nodes, n);
    }
    if LocallyChecked(plan) {
      CheckedIsTree(plan.nodes);
    }
    if AllFieldsOk(plan.nodes) && IsTreeOfNodes(plan.nodes) {
      TreeIsChecked(plan.nodes);
    }
  }

  lemma InnerHasChildren(nodes: seq<TilePlanNode>, n: TilePlanNode)
    requires NodeOk(nodes, n)
    ensures !n.isLeaf ==> n.children != []
  {
  }

  lemma OneLineExactly(text: string)
    ensures SingleLine(text) <==> OneLine(text)
  {
  }
}
