/** The traverses that point into the shared trees, and the registry of open traverses. */
module BTree {
  import opened Strings
  import opened PathCode
  import opened Forest
  import opened MessageObjects

  /** Every node that was there is still there, under the same key and path. */
  ghost predicate Keeps(m: NodeMap, m': NodeMap) {
    forall k, p | k in m && p in m[k] :: k in m' && p in m'[k] && m'[k][p] == m[k][p]
  }

  lemma PlusKeeps(m: NodeMap, key: Str, path: Path, node: BTreeNode)
    requires path !in NodesAt(m, key)
    ensures Keeps(m, Plus(m, key, path, node))
  {
  }

  /** The pointers of every node but one are those of the paths. */
  ghost predicate WiredElsewhere(m: NodeMap, node: BTreeNode)
    reads (AllOf(m) - {node})`left, (AllOf(m) - {node})`right
  {
    forall k, p | k in m && p in m[k] && m[k][p] != node ::
      m[k][p].left == Child(m[k], p, false) && m[k][p].right == Child(m[k], p, true)
  }

  lemma WiredIsElsewhere(m: NodeMap, node: BTreeNode)
    requires Wired(m)
    ensures WiredElsewhere(m, node)
  {
  }

  /** Only one pointer of one node has changed, and it now points to the new leaf. */
  lemma LinkMade(m: NodeMap, key: Str, at: Path, right: bool, node: BTreeNode)
    requires Injective(m) && key in m && at in m[key]
    requires WiredElsewhere(m, m[key][at]) && node.left == null && node.right == null
    requires m[key][at].left == if right then Child(m[key], at, false) else node
    requires m[key][at].right == if right then node else Child(m[key], at, true)
    ensures LinkedIn(m, key, at + [right], node)
  {
    forall k, p | k in m && p in m[k]
      ensures m[k][p].left == (if k == key && at + [right] == p + [false] then node else Child(m[k], p, false))
      ensures m[k][p].right == (if k == key && at + [right] == p + [true] then node else Child(m[k], p, true))
    {
      assert (at + [right])[..|at|] == at && (at + [right])[|at|] == right;
      assert (p + [false])[..|p|] == p && (p + [false])[|p|] == false;
      assert (p + [true])[..|p|] == p && (p + [true])[|p|] == true;
    }
  }

  class BTreeTraverse {
    var ciphertext: Str
    var current: BTreeNode
    var path: nat
    var pathLength: nat
    var requestAdd: RequestAdd?

    /** The tree it walks in and the edges it has taken. */
    ghost var key: Str
    ghost var at: Path

    constructor (root: BTreeNode, ciphertext: Str, ghost key: Str)
      ensures current == root && this.ciphertext == ciphertext && path == 0 && pathLength == 0
      ensures requestAdd == null && this.key == key && at == []
    {
      current, this.ciphertext, path, pathLength, requestAdd := root, ciphertext, 0, 0, null;
      this.key, at := key, [];
    }

    /** It stands on the node its edges lead to. */
    ghost predicate On(forest: BTreeForest)
      reads this, forest
    {
      key in forest.nodes && at in forest.nodes[key] && current == forest.nodes[key][at]
    }

    /** The effect of one edge: the next node if there is one, else a new leaf there that holds
        the traverse's ciphertext, and the sealed code. */
    twostate predicate Went(right: bool, step: bool, forest: BTreeForest)
      requires old(forest.Valid() && On(forest))
      reads this, forest, forest.all
    {
      && forest.Valid() && On(forest)
      && key == old(key) && ciphertext == old(ciphertext) && requestAdd == old(requestAdd)
      && forest.forest == old(forest.forest)
      && at == old(at) + [right] && pathLength == old(pathLength) + 1
      && (step <==> at in old(forest.nodes)[key])
      && Keeps(old(forest.nodes), forest.nodes)
      && fresh(forest.all - old(forest.all))
      && (step ==> path == PushBit(old(path), right) && forest.Trees() == old(forest.Trees()))
      && (!step ==>
            && pathLength <= MAX_DEPTH && path == Seal(PushBit(old(path), right), pathLength)
            && key in old(forest.Trees())
            && forest.Trees() == old(forest.Trees())[key := old(forest.Trees())[key][at := ciphertext]])
    }

    lemma HasChild(forest: BTreeForest)
      requires forest.Valid() && On(forest)
      ensures current in forest.all
      ensures current.left == Child(forest.nodes[key], at, false)
      ensures current.right == Child(forest.nodes[key], at, true)
    {
    }

    /** A leaf becomes a child of the current node. */
    method Link(node: BTreeNode, right: bool, ghost forest: BTreeForest)
      requires forest.Valid() && On(forest) && at + [right] !in forest.nodes[key]
      requires node !in forest.all && node.left == null && node.right == null
      modifies current`left, current`right, forest`nodes, forest`all
      ensures forest.Valid()
      ensures key in forest.nodes && at + [right] in forest.nodes[key] && forest.nodes[key][at + [right]] == node
      ensures forest.all == old(forest.all) + {node}
      ensures Keeps(old(forest.nodes), forest.nodes)
      ensures key in old(forest.Trees())
      ensures forest.Trees() ==
              old(forest.Trees())[key := old(forest.Trees())[key][at + [right] := node.ciphertext]]
    {
      hide Closed, Injective, Wired, WiredElsewhere, TreesOf, LinkedIn, Keeps, Plus;
      HasChild(forest);
      WiredIsElsewhere(forest.nodes, current);
      if right {
        current.right := node;
      } else {
        current.left := node;
      }
      LinkMade(forest.nodes, key, at, right, node);
      ghost var path := at + [right];
      assert path[..|path| - 1] == at;
      PlusKeeps(forest.nodes, key, path, node);
      PlusMembers(forest.nodes, key, path, node, key, path);
      forest.Register(key, path, node);
    }

    /** A new node with the traverse's ciphertext below the current one. */
    method NewLeaf(right: bool, ghost forest: BTreeForest) returns (node: BTreeNode)
      requires forest.Valid() && On(forest) && at + [right] !in forest.nodes[key]
      modifies current`left, current`right, forest`nodes, forest`all
      ensures forest.Valid()
      ensures key in forest.nodes && at + [right] in forest.nodes[key] && forest.nodes[key][at + [right]] == node
      ensures fresh(node) && forest.all == old(forest.all) + {node}
      ensures Keeps(old(forest.nodes), forest.nodes)
      ensures key in old(forest.Trees())
      ensures forest.Trees() == old(forest.Trees())[key := old(forest.Trees())[key][at + [right] := ciphertext]]
    {
      hide BTreeForest.Valid, BTreeForest.Trees, Keeps;
      node := new BTreeNode(ciphertext);
      Link(node, right, forest);
    }

    method GoToLeft(ghost forest: BTreeForest) returns (step: bool)
      requires forest.Valid() && On(forest)
      requires at + [false] in forest.nodes[key] || pathLength < MAX_DEPTH
      modifies this, current`left, current`right, forest`nodes, forest`all
      ensures Went(false, step, forest)
    {
      hide BTreeForest.Valid, BTreeForest.Trees, PushBit, Seal, Keeps;
      HasChild(forest);
      path := PushBit(path, false);
      pathLength := pathLength + 1;
      if current.left != null {
        current := current.left;
        at := at + [false];
        KeepsSelf(forest.nodes);
        return true;
      }
      var newNode := NewLeaf(false, forest);
      current := newNode;
      at := at + [false];
      path := Seal(path, pathLength);
      return false;
    }

    method GoToRight(ghost forest: BTreeForest) returns (step: bool)
      requires forest.Valid() && On(forest)
      requires at + [true] in forest.nodes[key] || pathLength < MAX_DEPTH
      modifies this, current`left, current`right, forest`nodes, forest`all
      ensures Went(true, step, forest)
    {
      hide BTreeForest.Valid, BTreeForest.Trees, PushBit, Seal, Keeps;
      HasChild(forest);
      path := PushBit(path, true);
      pathLength := pathLength + 1;
      if current.right != null {
        current := current.right;
        at := at + [true];
        KeepsSelf(forest.nodes);
        return true;
      }
      var newNode := NewLeaf(true, forest);
      current := newNode;
      at := at + [true];
      path := Seal(path, pathLength);
      return false;
    }

    /** The edge a comparison asks for. */
    method GoTo(right: bool, ghost forest: BTreeForest) returns (step: bool)
      requires forest.Valid() && On(forest)
      requires at + [right] in forest.nodes[key] || pathLength < MAX_DEPTH
      modifies this, current`left, current`right, forest`nodes, forest`all
      ensures Went(right, step, forest)
    {
      hide BTreeForest.Valid, Went;
      if right {
        step := GoToRight(forest);
      } else {
        step := GoToLeft(forest);
      }
    }

    /** The ciphertext the client is asked to compare with is the one its tree holds where the
        traverse's edges lead. */
    method Value(ghost forest: BTreeForest) returns (value: Str)
      requires forest.Valid() && On(forest)
      ensures key in forest.Trees() && at in forest.Trees()[key] && value == forest.Trees()[key][at]
    {
      value := current.ciphertext;
    }

    lemma KeepsSelf(m: NodeMap)
      ensures Keeps(m, m)
    {
    }
  }

  /** The open traverses by the id of the request that opened them; a null entry is what looking
      up an unknown id leaves. */
  class BTreeTraverseHolder {
    var traverses: map<nat, BTreeTraverse?>

    constructor ()
      ensures traverses == map[]
    {
      traverses := map[];
    }

    method GetTraverse(requestId: nat) returns (traverse: BTreeTraverse?)
      modifies this
      ensures traverses == if requestId in old(traverses) then old(traverses) else old(traverses)[requestId := null]
      ensures traverse == traverses[requestId]
    {
      if requestId !in traverses {
        traverses := traverses[requestId := null];
      }
      traverse := traverses[requestId];
    }

    method CreateTraverse(requestId: nat, root: BTreeNode, ciphertext: Str, ghost key: Str)
      returns (traverse: BTreeTraverse)
      modifies this
      ensures fresh(traverse) && traverses == old(traverses)[requestId := traverse]
      ensures traverse.current == root && traverse.ciphertext == ciphertext
      ensures traverse.path == 0 && traverse.pathLength == 0 && traverse.requestAdd == null
      ensures traverse.key == key && traverse.at == []
    {
      traverse := new BTreeTraverse(root, ciphertext, key);
      traverses := traverses[requestId := traverse];
    }

    method RemoveTraverse(requestId: nat)
      modifies this
      ensures traverses == old(traverses) - {requestId}
    {
      if requestId in traverses {
        traverses := traverses - {requestId};
      }
    }
  }
}
