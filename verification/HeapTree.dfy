/** The allocation tree: the map of parents a collection builds with an explicit stack, and the walk up it. */
module HeapTree {

  /** A node of v8's allocation profile. */
  datatype Node = Node(id: nat, name: string, scriptName: string, line: int, children: seq<Node>)

  /** What the tree map says of one node. */
  datatype Entry = Entry(name: string, scriptName: string, line: int, parentId: nat)

  type TreeMap = map<nat, Entry>

  datatype DfsNode = DfsNode(node: Node, parentId: nat)

  function EntryOf(n: Node, parentId: nat): Entry {
    Entry(n.name, n.scriptName, n.line, parentId)
  }

  /** Every node of a subtree with its entry: `n` under `parentId`, and all descendants under their parents. */
  function Edges(n: Node, parentId: nat): multiset<(nat, Entry)>
    decreases n, 1
  {
    multiset{(n.id, EntryOf(n, parentId))} + ChildEdges(n.children, n.id)
  }

  function ChildEdges(ns: seq<Node>, parentId: nat): multiset<(nat, Entry)>
    decreases ns, 0
  {
    if ns == [] then multiset{} else ChildEdges(ns[..|ns| - 1], parentId) + Edges(ns[|ns| - 1], parentId)
  }

  /** The entries of all nodes below the root. */
  function TreeEdges(root: Node): multiset<(nat, Entry)> {
    ChildEdges(root.children, root.id)
  }

  /** No two nodes share an id, the root included. */
  ghost predicate DistinctIds(root: Node) {
    && (forall x :: x in TreeEdges(root) ==> TreeEdges(root)[x] == 1 && x.0 != root.id)
    && (forall x, y :: x in TreeEdges(root) && y in TreeEdges(root) && x.0 == y.0 ==> x == y)
  }

  /** `m` is the tree map of `root`: one entry for every node below the root, with its true parent. */
  ghost predicate IsTreeMap(m: TreeMap, root: Node) {
    forall id, e :: (id in m && m[id] == e) <==> (id, e) in TreeEdges(root)
  }

  /** The map has the name, script and line of the `i`-th node of a path, under the node before it, the first one under
      the root. */
  ghost predicate TellsNode(m: TreeMap, p: seq<Node>, i: nat, rootId: nat)
    requires i < |p|
  {
    && p[i].id in m
    && var e, n := m[p[i].id], p[i];
       && e.name == n.name && e.scriptName == n.scriptName && e.line == n.line
       && (if i == 0 then e.parentId == rootId else e.parentId == p[i - 1].id)
  }

  ghost predicate TellsPath(m: TreeMap, p: seq<Node>, rootId: nat) {
    forall i :: 0 <= i < |p| ==> TellsNode(m, p, i, rootId)
  }

  /** The map tells the truth about every node on every path down from the root, and knows of no others. */
  ghost predicate TellsTree(m: TreeMap, root: Node) {
    && (forall p: seq<Node> :: Down(p, root.children) ==> TellsPath(m, p, root.id))
    && (forall id :: id in m ==> exists p: seq<Node> :: Down(p, root.children) && p[|p| - 1].id == id)
  }

  // ----- the traversal

  function StackEdges(stack: seq<DfsNode>): multiset<(nat, Entry)> {
    if stack == [] then multiset{}
    else StackEdges(stack[..|stack| - 1]) + Edges(stack[|stack| - 1].node, stack[|stack| - 1].parentId)
  }

  lemma {:induction false} StackPush(stack: seq<DfsNode>, d: DfsNode)
    ensures StackEdges(stack + [d]) == StackEdges(stack) + Edges(d.node, d.parentId)
  {
    assert (stack + [d])[..|stack|] == stack;
  }

  lemma {:induction false} ChildPush(ns: seq<Node>, i: nat, parentId: nat)
    requires i < |ns|
    ensures ChildEdges(ns[..i + 1], parentId) == ChildEdges(ns[..i], parentId) + Edges(ns[i], parentId)
  {
    assert ns[..i + 1][..i] == ns[..i];
  }

  /** Pushes the children of a node. */
  method PushChildren(stack: seq<DfsNode>, children: seq<Node>, parentId: nat) returns (pushed: seq<DfsNode>)
    ensures StackEdges(pushed) == StackEdges(stack) + ChildEdges(children, parentId)
  {
    hide StackEdges, Edges;
    pushed := stack;
    assert children[..0] == [];
    for i := 0 to |children|
      invariant StackEdges(pushed) == StackEdges(stack) + ChildEdges(children[..i], parentId)
    {
      StackPush(pushed, DfsNode(children[i], parentId));
      ChildPush(children, i, parentId);
      pushed := pushed + [DfsNode(children[i], parentId)];
    }
    assert children[..|children|] == children;
  }

  /** The map holds exactly what was put into it, and nothing was put twice under one id. */
  ghost predicate Holds(m: TreeMap, puts: multiset<(nat, Entry)>) {
    && (forall x :: x in puts ==> x.0 in m && m[x.0] == x.1)
    && (forall id :: id in m ==> (id, m[id]) in puts)
  }

  lemma {:induction false} PutKeeps(m: TreeMap, puts: multiset<(nat, Entry)>, root: Node, id: nat, e: Entry,
      todo: multiset<(nat, Entry)>)
    requires DistinctIds(root) && Holds(m, puts) && puts + multiset{(id, e)} + todo == TreeEdges(root)
    ensures Holds(m[id := e], puts + multiset{(id, e)}) && id !in m
  {
    var all, new_ := TreeEdges(root), (id, e);
    assert new_ in all && all[new_] == 1;
    assert new_ !in puts;
    forall x | x in puts ensures x.0 != id {
      assert x in all;
    }
  }

  /** The depth-first part of `CollectHeapProfile`.  Every node below the root is put into the map, each exactly
      once: an id is never in the map when its node is put. */
  method BuildTreeMap(root: Node) returns (m: TreeMap)
    requires DistinctIds(root)
    ensures IsTreeMap(m, root) && TellsTree(m, root)
  {
    hide StackEdges, Edges, DistinctIds, TreeEdges, TellsTree;
    m := map[];
    assert StackEdges([]) == multiset{} && TreeEdges(root) == ChildEdges(root.children, root.id) by { Unfold(root); }
    var stack := PushChildren([], root.children, root.id);
    ghost var puts: multiset<(nat, Entry)> := multiset{};
    while stack != []
      invariant puts + StackEdges(stack) == TreeEdges(root)
      invariant Holds(m, puts)
      decreases |StackEdges(stack)|
    {
      var graphNode := stack[|stack| - 1];
      assert stack == stack[..|stack| - 1] + [graphNode];
      stack := stack[..|stack| - 1];
      var node := graphNode.node;
      ghost var put := (node.id, EntryOf(node, graphNode.parentId));
      PopStack(stack, graphNode);
      ghost var rest := StackEdges(stack);
      PutKeeps(m, puts, root, node.id, EntryOf(node, graphNode.parentId), rest + ChildEdges(node.children, node.id));
      assert node.id !in m;
      m := m[node.id := EntryOf(node, graphNode.parentId)];
      puts := puts + multiset{put};
      stack := PushChildren(stack, node.children, node.id);
    }
    assert StackEdges(stack) == multiset{} by { Unfold(root); }
    assert puts == TreeEdges(root);
    assert IsTreeMap(m, root);
    TreeMapTells(m, root);
  }

  lemma {:induction false} Unfold(root: Node)
    ensures StackEdges([]) == multiset{} && TreeEdges(root) == ChildEdges(root.children, root.id)
  {
  }

  lemma {:induction false} PopStack(rest: seq<DfsNode>, d: DfsNode)
    ensures StackEdges(rest + [d]) ==
            StackEdges(rest) + multiset{(d.node.id, EntryOf(d.node, d.parentId))}
            + ChildEdges(d.node.children, d.node.id)
  {
    StackPush(rest, d);
  }

  // ----- the walk to the root

  /** A path down the tree: `p[0]` is a child of the node `top` stands for, and each node a child of the one before. */
  ghost predicate Down(p: seq<Node>, top: seq<Node>) {
    && p != []
    && p[0] in top
    && forall i :: 0 <= i < |p| - 1 ==> p[i + 1] in p[i].children
  }

  /** The parent of the `i`-th node of a path from the root. */
  function ParentId(p: seq<Node>, rootId: nat, i: nat): nat
    requires i < |p|
  {
    if i == 0 then rootId else p[i - 1].id
  }

  lemma {:induction false} ChildEdgesHas(ns: seq<Node>, parentId: nat, x: (nat, Entry))
    ensures x in ChildEdges(ns, parentId) <==> exists n :: n in ns && x in Edges(n, parentId)
  {
    if ns != [] {
      var front, last := ns[..|ns| - 1], ns[|ns| - 1];
      ChildEdgesHas(front, parentId, x);
      if x in Edges(last, parentId) {
        assert last in ns;
      } else if x in ChildEdges(front, parentId) {
        var n :| n in front && x in Edges(n, parentId);
        assert n in ns;
      }
      if n :| n in ns && x in Edges(n, parentId) {
        assert n in front || n == last;
      }
    }
  }

  /** Every node on a path has its entry in the tree, under the node before it. */
  lemma {:induction false} PathEdges(p: seq<Node>, top: seq<Node>, topId: nat, i: nat)
    requires Down(p, top) && i < |p|
    ensures (p[i].id, EntryOf(p[i], ParentId(p, topId, i))) in ChildEdges(top, topId)
    decreases i
  {
    var x := (p[i].id, EntryOf(p[i], ParentId(p, topId, i)));
    if i > 0 {
      assert Down(p[1..], p[0].children);
      assert p[1..][i - 1] == p[i] && ParentId(p, topId, i) == ParentId(p[1..], p[0].id, i - 1);
      PathEdges(p[1..], p[0].children, p[0].id, i - 1);
    }
    assert x in Edges(p[0], topId);
    ChildEdgesHas(top, topId, x);
  }

  /** Every entry of the tree is at the end of a path from the root. */
  lemma {:induction false} EntryHasPath(n: Node, top: seq<Node>, topId: nat, x: (nat, Entry)) returns (p: seq<Node>)
    requires n in top && x in Edges(n, topId)
    ensures p != [] && p[0] == n && Down(p, top)
    ensures x == (p[|p| - 1].id, EntryOf(p[|p| - 1], ParentId(p, topId, |p| - 1)))
    decreases n
  {
    hide Down;
    if x == (n.id, EntryOf(n, topId)) {
      p := [n];
      DownOne(n, top);
    } else {
      var c := ChildWithEdge(n.children, n.id, x);
      var q := EntryHasPath(c, n.children, n.id, x);
      p := [n] + q;
      DownPrepend(n, q, top);
    }
  }

  lemma {:induction false} ChildWithEdge(ns: seq<Node>, parentId: nat, x: (nat, Entry)) returns (c: Node)
    requires x in ChildEdges(ns, parentId)
    ensures c in ns && x in Edges(c, parentId)
  {
    ChildEdgesHas(ns, parentId, x);
    c :| c in ns && x in Edges(c, parentId);
  }

  lemma {:induction false} DownOne(n: Node, top: seq<Node>)
    requires n in top
    ensures Down([n], top)
  {
  }

  lemma {:induction false} DownPrepend(n: Node, q: seq<Node>, top: seq<Node>)
    requires n in top && Down(q, n.children)
    ensures Down([n] + q, top)
  {
    var p := [n] + q;
    assert forall i :: 1 <= i < |p| ==> p[i] == q[i - 1];
  }

  /** The entries met on the way from the end of a path up to, but not including, the root. */
  function Upward(p: seq<Node>, rootId: nat, i: nat): seq<Entry>
    requires i <= |p|
  {
    if i == 0 then [] else [EntryOf(p[i - 1], ParentId(p, rootId, i - 1))] + Upward(p, rootId, i - 1)
  }

  /** The unbounded loop `while (node !== undefined)` of the heap serializer, as the entries it visits.  On the
      tree map of a tree it ends, and visits exactly the path from the sampled node up to the child of the root;
      for an id the map does not hold it visits nothing. */
  method WalkUp(m: TreeMap, nodeId: nat, ghost root: Node, ghost p: seq<Node>) returns (path: seq<Entry>)
    requires IsTreeMap(m, root) && DistinctIds(root)
    requires nodeId in m ==> Down(p, root.children) && p[|p| - 1].id == nodeId
    ensures path == if nodeId in m then Upward(p, root.id, |p|) else []
  {
    hide IsTreeMap, DistinctIds;
    path := [];
    var current := nodeId;
    if current !in m {
      return;
    }
    ghost var left: nat := |p|;
    OnPathUpTo(m, root, p, left);
    while current in m
      invariant left <= |p| && current == (if left > 0 then p[left - 1].id else root.id)
      invariant current in m <==> left > 0
      invariant left > 0 ==> m[current] == EntryOf(p[left - 1], ParentId(p, root.id, left - 1))
      invariant path + Upward(p, root.id, left) == Upward(p, root.id, |p|)
      decreases left
    {
      var node := m[current];
      left := left - 1;
      assert path + ([node] + Upward(p, root.id, left)) == (path + [node]) + Upward(p, root.id, left);
      path := path + [node];
      current := node.parentId;
      OnPathUpTo(m, root, p, left);
    }
  }

  lemma {:induction false} OnPathUpTo(m: TreeMap, root: Node, p: seq<Node>, left: nat)
    requires IsTreeMap(m, root) && DistinctIds(root) && Down(p, root.children) && left <= |p|
    ensures root.id !in m
    ensures left > 0 ==>
              p[left - 1].id in m && m[p[left - 1].id] == EntryOf(p[left - 1], ParentId(p, root.id, left - 1))
  {
    RootIsAbsent(m, root);
    if left > 0 {
      OnPath(m, root, p, left - 1);
    }
  }

  lemma {:induction false} RootIsAbsent(m: TreeMap, root: Node)
    requires IsTreeMap(m, root) && DistinctIds(root)
    ensures root.id !in m
  {
    var e := if root.id in m then m[root.id] else Entry("", "", 0, 0);
    assert (root.id, e) !in TreeEdges(root);
  }

  lemma {:induction false} OnPath(m: TreeMap, root: Node, p: seq<Node>, i: nat)
    requires IsTreeMap(m, root) && Down(p, root.children) && i < |p|
    ensures p[i].id in m && m[p[i].id] == EntryOf(p[i], ParentId(p, root.id, i))
  {
    PathEdges(p, root.children, root.id, i);
    assert (p[i].id, EntryOf(p[i], ParentId(p, root.id, i))) in TreeEdges(root);
  }

  /** Every id the map holds is at the end of a path from the root. */
  lemma {:induction false} SampledPath(m: TreeMap, root: Node, nodeId: nat) returns (p: seq<Node>)
    requires IsTreeMap(m, root) && nodeId in m
    ensures Down(p, root.children) && p[|p| - 1].id == nodeId
  {
    var x := (nodeId, m[nodeId]);
    assert x in TreeEdges(root);
    ChildEdgesHas(root.children, root.id, x);
    var n :| n in root.children && x in Edges(n, root.id);
    p := EntryHasPath(n, root.children, root.id, x);
  }

  lemma {:induction false} TreeMapTells(m: TreeMap, root: Node)
    requires IsTreeMap(m, root)
    ensures TellsTree(m, root)
  {
    hide IsTreeMap, TellsPath;
    forall p: seq<Node> | Down(p, root.children) ensures TellsPath(m, p, root.id) {
      TreeMapTellsPath(m, root, p);
    }
    forall id | id in m ensures exists p: seq<Node> :: Down(p, root.children) && p[|p| - 1].id == id {
      SomePath(m, root, id);
    }
  }

  lemma {:induction false} TreeMapTellsPath(m: TreeMap, root: Node, p: seq<Node>)
    requires IsTreeMap(m, root) && Down(p, root.children)
    ensures TellsPath(m, p, root.id)
  {
    hide IsTreeMap;
    forall i | 0 <= i < |p| ensures TellsNode(m, p, i, root.id) {
      OnPath(m, root, p, i);
    }
  }

  /** The path to a node of the tree map; by `OnePathOnly` there is no other. */
  ghost function PathTo(m: TreeMap, root: Node, nodeId: nat): (p: seq<Node>)
    requires IsTreeMap(m, root) && nodeId in m
    ensures Down(p, root.children) && p[|p| - 1].id == nodeId
  {
    SomePath(m, root, nodeId);
    var p: seq<Node> :| Down(p, root.children) && p[|p| - 1].id == nodeId;
    p
  }

  lemma {:induction false} SomePath(m: TreeMap, root: Node, nodeId: nat)
    requires IsTreeMap(m, root) && nodeId in m
    ensures exists p: seq<Node> :: Down(p, root.children) && p[|p| - 1].id == nodeId
  {
    var p := SampledPath(m, root, nodeId);
  }

  /** Two paths from the root to one id report the same: ids, names, scripts and lines, node by node. */
  lemma {:induction false} OnePathOnly(m: TreeMap, root: Node, p: seq<Node>, q: seq<Node>)
    requires IsTreeMap(m, root) && DistinctIds(root)
    requires Down(p, root.children) && Down(q, root.children) && p[|p| - 1].id == q[|q| - 1].id
    ensures |p| == |q| && Upward(p, root.id, |p|) == Upward(q, root.id, |q|)
    ensures forall i :: 0 <= i < |p| ==>
              && p[i].id == q[i].id && p[i].name == q[i].name
              && p[i].scriptName == q[i].scriptName && p[i].line == q[i].line
    decreases |p|
  {
    hide IsTreeMap, DistinctIds;
    var a, b := |p| - 1, |q| - 1;
    OnPathUpTo(m, root, p, |p|);
    OnPathUpTo(m, root, q, |q|);
    OnPathUpTo(m, root, p, a);
    OnPathUpTo(m, root, q, b);
    if a > 0 && b > 0 {
      OnePathOnly(m, root, p[..a], q[..b]);
      UpwardOfPrefix(p, root.id, a, a);
      UpwardOfPrefix(q, root.id, b, b);
      forall i | 0 <= i < a ensures p[i] == p[..a][i] && q[i] == q[..b][i] {
      }
    }
  }

  lemma {:induction false} UpwardOfPrefix(p: seq<Node>, rootId: nat, n: nat, i: nat)
    requires i <= n <= |p|
    ensures Upward(p[..n], rootId, i) == Upward(p, rootId, i)
  {
    if i > 0 {
      UpwardOfPrefix(p, rootId, n, i - 1);
    }
  }
}
