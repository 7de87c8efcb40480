/** The index trees on the heap: the shared mutable nodes and the registry of roots. */
module Forest {
  import opened Strings
  import opened PathCode
  import opened SearchTree
  import opened Protocol

  /** The ciphertext is set when the node is made and never assigned again; the links change. */
  class BTreeNode {
    const ciphertext: Str
    var left: BTreeNode?
    var right: BTreeNode?

    constructor (ciphertext: Str)
      ensures this.ciphertext == ciphertext && left == null && right == null
    {
      this.ciphertext := ciphertext;
      left, right := null, null;
    }
  }

  /** The nodes of one tree by path, and of all trees by key. */
  type Nodes = map<Path, BTreeNode>
  type NodeMap = map<Str, Nodes>

  ghost function NodesAt(m: NodeMap, key: Str): Nodes {
    if key in m then m[key] else map[]
  }

  ghost function AllOf(m: NodeMap): set<BTreeNode> {
    set k, p | k in m && p in m[k] :: m[k][p]
  }

  /** No node is shared between trees or reachable by two paths. */
  ghost predicate Injective(m: NodeMap) {
    forall k, p, k', p' | k in m && p in m[k] && k' in m && p' in m[k'] ::
      m[k][p] == m[k'][p'] ==> k == k' && p == p'
  }

  /** Every tree has a root, the registered one, and no gaps. */
  ghost predicate Closed(roots: map<Str, BTreeNode>, m: NodeMap) {
    && roots.Keys == m.Keys
    && (forall k | k in m :: [] in m[k] && roots[k] == m[k][[]])
    && (forall k, p, n | k in m && p in m[k] && 0 <= n <= |p| :: p[..n] in m[k])
  }

  /** The child an edge leads to. */
  ghost function Child(t: Nodes, p: Path, b: bool): BTreeNode? {
    if p + [b] in t then t[p + [b]] else null
  }

  /** The pointers are those of the paths. */
  ghost predicate Wired(m: NodeMap)
    reads AllOf(m)`left, AllOf(m)`right
  {
    forall k, p | k in m && p in m[k] ::
      m[k][p].left == Child(m[k], p, false) && m[k][p].right == Child(m[k], p, true)
  }

  ghost function ContentsOf(t: Nodes): Tree
  {
    map p | p in t :: t[p].ciphertext
  }

  ghost function TreesOf(m: NodeMap): map<Str, Tree>
  {
    map k | k in m :: ContentsOf(m[k])
  }

  // ---- One more node ----

  ghost function Plus(m: NodeMap, key: Str, path: Path, node: BTreeNode): NodeMap {
    m[key := NodesAt(m, key)[path := node]]
  }

  lemma PlusMembers(m: NodeMap, key: Str, path: Path, node: BTreeNode, k: Str, p: Path)
    ensures var m' := Plus(m, key, path, node);
            && (k in m' && p in m'[k] <==> (k == key && p == path) || (k in m && p in m[k]))
            && (k in m' && p in m'[k] ==>
                  m'[k][p] == if k == key && p == path then node else m[k][p])
  {
  }

  lemma PlusInjective(m: NodeMap, key: Str, path: Path, node: BTreeNode)
    requires Injective(m) && node !in AllOf(m)
    ensures Injective(Plus(m, key, path, node))
  {
    var m': NodeMap := Plus(m, key, path, node);
    forall k, p, k', p' | k in m' && p in m'[k] && k' in m' && p' in m'[k'] && m'[k][p] == m'[k'][p']
      ensures k == k' && p == p'
    {
      PlusMembers(m, key, path, node, k, p);
      PlusMembers(m, key, path, node, k', p');
      assert k in m && p in m[k] ==> m[k][p] in AllOf(m);
      assert k' in m && p' in m[k'] ==> m[k'][p'] in AllOf(m);
    }
  }

  lemma PlusRootClosed(roots: map<Str, BTreeNode>, m: NodeMap, key: Str, node: BTreeNode)
    requires Closed(roots, m) && key !in m
    ensures Closed(roots[key := node], Plus(m, key, [], node))
  {
  }

  lemma PlusLeafClosed(roots: map<Str, BTreeNode>, m: NodeMap, key: Str, path: Path, node: BTreeNode)
    requires Closed(roots, m) && key in m && path !in m[key]
    requires path != [] && path[..|path| - 1] in m[key]
    ensures Closed(roots, Plus(m, key, path, node))
  {
    var m': NodeMap := Plus(m, key, path, node);
    forall k, p, n | k in m' && p in m'[k] && 0 <= n <= |p| ensures p[..n] in m'[k] {
      PlusMembers(m, key, path, node, k, p);
      if n == |p| {
        assert p[..n] == p;
      } else if k == key && p == path {
        assert p[..n] == path[..|path| - 1][..n];
      }
    }
  }

  lemma PlusAll(m: NodeMap, key: Str, path: Path, node: BTreeNode)
    requires path !in NodesAt(m, key)
    ensures AllOf(Plus(m, key, path, node)) == AllOf(m) + {node}
  {
    var m': NodeMap := Plus(m, key, path, node);
    forall n ensures n in AllOf(m') <==> n in AllOf(m) + {node} {
      if n in AllOf(m') {
        var k, p :| k in m' && p in m'[k] && m'[k][p] == n;
        PlusMembers(m, key, path, node, k, p);
      }
      if n in AllOf(m) {
        var k, p :| k in m && p in m[k] && m[k][p] == n;
        PlusMembers(m, key, path, node, k, p);
      }
      PlusMembers(m, key, path, node, key, path);
    }
  }

  /** The pointers after a leaf has been linked, stated of the heap it has been linked in. */
  ghost predicate LinkedIn(m: NodeMap, key: Str, path: Path, node: BTreeNode)
    reads AllOf(m)`left, AllOf(m)`right, node`left, node`right
  {
    && node.left == null && node.right == null
    && forall k, p | k in m && p in m[k] ::
         && m[k][p].left == (if k == key && path == p + [false] then node else Child(m[k], p, false))
         && m[k][p].right == (if k == key && path == p + [true] then node else Child(m[k], p, true))
  }

  lemma PlusWired(m: NodeMap, key: Str, path: Path, node: BTreeNode)
    requires LinkedIn(m, key, path, node)
    requires path !in NodesAt(m, key)
    requires forall p, n | p in NodesAt(m, key) && 0 <= n <= |p| :: p[..n] in NodesAt(m, key)
    ensures Wired(Plus(m, key, path, node))
  {
    var m': NodeMap := Plus(m, key, path, node);
    forall k, p | k in m' && p in m'[k]
      ensures m'[k][p].left == Child(m'[k], p, false) && m'[k][p].right == Child(m'[k], p, true)
    {
      PlusMembers(m, key, path, node, k, p);
      PlusMembers(m, key, path, node, k, p + [false]);
      PlusMembers(m, key, path, node, k, p + [true]);
      if k == key && p == path {
        assert (p + [false])[..|path|] == path && (p + [true])[..|path|] == path;
      }
    }
  }

  lemma PlusTrees(m: NodeMap, key: Str, path: Path, node: BTreeNode)
    requires path !in NodesAt(m, key)
    ensures TreesOf(Plus(m, key, path, node)) ==
            TreesOf(m)[key := ContentsOf(NodesAt(m, key))[path := node.ciphertext]]
  {
    var m': NodeMap := Plus(m, key, path, node);
    assert ContentsOf(m'[key]) == ContentsOf(NodesAt(m, key))[path := node.ciphertext];
  }

  class BTreeForest {
    var forest: map<Str, BTreeNode>

    /** Every node by its key and path. */
    ghost var nodes: NodeMap
    ghost var all: set<BTreeNode>

    ghost predicate Valid()
      reads this, all`left, all`right
    {
      all == AllOf(nodes) && Closed(forest, nodes) && Injective(nodes) && Wired(nodes)
    }

    /** The trees as values. */
    ghost function Trees(): map<Str, Tree>
      reads this
    {
      TreesOf(nodes)
    }

    constructor ()
      ensures Valid() && Trees() == map[] && nodes == map[] && all == {}
    {
      forest, nodes, all := map[], map[], {};
    }

    /** A node that has been linked below an existing one enters the node map. */
    ghost method Register(key: Str, path: Path, node: BTreeNode)
      requires all == AllOf(nodes) && Closed(forest, nodes) && Injective(nodes)
      requires LinkedIn(nodes, key, path, node) && node !in all
      requires key in nodes && path !in nodes[key] && path != [] && path[..|path| - 1] in nodes[key]
      modifies `nodes, `all
      ensures Valid() && all == old(all) + {node}
      ensures nodes == Plus(old(nodes), key, path, node)
      ensures key in old(Trees()) && Trees() == old(Trees())[key := old(Trees())[key][path := node.ciphertext]]
    {
      hide Closed, Injective, Wired, LinkedIn, TreesOf, ContentsOf;
      NoGaps(forest, nodes, key);
      PlusLeafClosed(forest, nodes, key, path, node);
      PlusInjective(nodes, key, path, node);
      PlusAll(nodes, key, path, node);
      PlusTrees(nodes, key, path, node);
      TreeOfKey(nodes, key);
      PlusWired(nodes, key, path, node);
      nodes := Plus(nodes, key, path, node);
      all := all + {node};
    }

    method GetTree(database: Str, table: Str) returns (tree: BTreeNode?)
      requires Valid()
      ensures var key := TableKey(database, table);
              && (tree == null <==> key !in Trees())
              && (key in Trees() ==> key in nodes && [] in nodes[key] && tree == nodes[key][[]] &&
                                     tree.ciphertext == Trees()[key][[]])
    {
      var id := TableKey(database, table);
      tree := if id in forest then forest[id] else null;
    }

    lemma TreeMeansNodes(key: Str)
      ensures key in Trees() <==> key in nodes
    {
    }

    /** A new root is registered under the table's key, in place of any tree that was there. */
    method CreateTree(database: Str, table: Str, ciphertext: Str)
      requires Valid()
      modifies this
      ensures Valid() && fresh(all - old(all))
      ensures Trees() == old(Trees())[TableKey(database, table) := map[[] := ciphertext]]
      ensures forall k | k in old(nodes) && k != TableKey(database, table) :: k in nodes && nodes[k] == old(nodes)[k]
    {
      hide Closed, Injective, Wired, TreesOf, ContentsOf, AllOf;
      var id := TableKey(database, table);
      ghost var rest: NodeMap := nodes - {id};
      Uprooted(forest, nodes, id);
      var tree := new BTreeNode(ciphertext);
      PlusRootClosed(forest - {id}, rest, id, tree);
      PlusInjective(rest, id, [], tree);
      RootLinked(rest, id, tree);
      PlusWired(rest, id, [], tree);
      PlusAll(rest, id, [], tree);
      PlusTrees(rest, id, [], tree);
      NoContents();
      assert (forest - {id})[id := tree] == forest[id := tree];
      assert (TreesOf(nodes) - {id})[id := map[[] := ciphertext]] == TreesOf(nodes)[id := map[[] := ciphertext]];
      forest := forest[id := tree];
      nodes := Plus(rest, id, [], tree);
      all := AllOf(nodes);
    }
  }

  /** The forest without one tree. */
  lemma Uprooted(roots: map<Str, BTreeNode>, m: NodeMap, key: Str)
    requires Closed(roots, m) && Injective(m) && Wired(m)
    ensures var rest: NodeMap := m - {key};
            && key !in rest && Closed(roots - {key}, rest) && Injective(rest) && Wired(rest)
            && AllOf(rest) <= AllOf(m) && TreesOf(rest) == TreesOf(m) - {key}
  {
    hide ContentsOf;
  }

  lemma NoGaps(roots: map<Str, BTreeNode>, m: NodeMap, key: Str)
    requires Closed(roots, m) && key in m
    ensures forall p, n | p in NodesAt(m, key) && 0 <= n <= |p| :: p[..n] in NodesAt(m, key)
  {
  }

  lemma TreeOfKey(m: NodeMap, key: Str)
    requires key in m
    ensures key in TreesOf(m) && TreesOf(m)[key] == ContentsOf(NodesAt(m, key))
  {
  }

  lemma NoContents()
    ensures ContentsOf(map[]) == map[]
  {
  }

  lemma RootLinked(m: NodeMap, key: Str, node: BTreeNode)
    requires Wired(m) && key !in m && node.left == null && node.right == null
    ensures LinkedIn(m, key, [], node)
  {
  }
}
