/** The index tree of one table as the map from edge paths to the ciphertexts stored there,
    and what makes it a search tree for the client's comparison. */
module SearchTree {
  import opened Strings
  import opened PathCode

  type Tree = map<Path, Str>

  /** A nonempty tree without gaps: every ancestor of a node is a node. */
  ghost predicate Rooted(t: Tree) {
    && [] in t
    && forall p, n | p in t && 0 <= n <= |p| :: p[..n] in t
  }

  /** v lies on the side of every strict ancestor of p that p turns to; "before" goes left. */
  ghost predicate OnSide(before: (Str, Str) -> bool, t: Tree, p: Path, v: Str) {
    forall n | 0 <= n < |p| ::
      p[..n] in t && (if p[n] then before(t[p[..n]], v) else before(v, t[p[..n]]))
  }

  ghost predicate Ordered(before: (Str, Str) -> bool, t: Tree) {
    forall p | p in t :: OnSide(before, t, p, t[p])
  }

  ghost predicate Shallow(t: Tree) {
    forall p | p in t :: |p| <= MAX_DEPTH
  }

  ghost predicate IsSearchTree(before: (Str, Str) -> bool, t: Tree) {
    Rooted(t) && Ordered(before, t) && Shallow(t)
  }

  // ---- Positions are ordered as values ----

  lemma {:induction false} InOrderSuffix(p: Path, q: Path, n: nat)
    requires n <= |p| && n <= |q| && p[..n] == q[..n]
    ensures InOrder(p, q) == InOrder(p[n..], q[n..])
    decreases n
  {
    if n == 0 {
      assert p[0..] == p && q[0..] == q;
    } else {
      assert p[0] == p[..n][0] == q[..n][0] == q[0];
      assert p[1..][..n - 1] == p[..n][1..] && q[1..][..n - 1] == q[..n][1..];
      InOrderSuffix(p[1..], q[1..], n - 1);
      assert p[1..][n - 1..] == p[n..] && q[1..][n - 1..] == q[n..];
    }
  }

  function CommonPrefix(p: Path, q: Path): (n: nat)
    ensures n <= |p| && n <= |q| && p[..n] == q[..n]
    ensures n < |p| && n < |q| ==> p[n] != q[n]
  {
    if p == [] || q == [] || p[0] != q[0] then 0
    else
      var n := CommonPrefix(p[1..], q[1..]);
      assert p[..n + 1] == [p[0]] + p[1..][..n] && q[..n + 1] == [q[0]] + q[1..][..n];
      n + 1
  }

  /** Only the two nodes themselves need to be on the right side of what is above them. */
  lemma InOrderImpliesBefore(before: (Str, Str) -> bool, t: Tree, p: Path, q: Path)
    requires StrictTotalOrder(before)
    requires p in t && q in t && InOrder(p, q)
    requires OnSide(before, t, p, t[p]) && OnSide(before, t, q, t[q])
    ensures before(t[p], t[q])
  {
    var n := CommonPrefix(p, q);
    InOrderSuffix(p, q, n);
    var r := p[..n];
    assert r == q[..n];
    if n == |p| {
      assert p == r;
    } else if n == |q| {
      assert q == r;
    } else {
      assert before(t[p], t[r]) && before(t[r], t[q]);
    }
  }

  lemma InOrderTotal(p: Path, q: Path)
    requires p != q
    ensures InOrder(p, q) || InOrder(q, p)
  {
    var n := CommonPrefix(p, q);
    assert p == p[..|p|] && q == q[..|q|];
    InOrderSuffix(p, q, n);
    InOrderSuffix(q, p, n);
  }

  /** Two nodes on the right side of the nodes above them lie in the order of their values,
      whatever is elsewhere in the tree. */
  lemma SidesDecideOrder(before: (Str, Str) -> bool, t: Tree, p: Path, q: Path)
    requires StrictTotalOrder(before)
    requires p in t && q in t && OnSide(before, t, p, t[p]) && OnSide(before, t, q, t[q])
    ensures InOrder(p, q) <==> before(t[p], t[q])
    ensures p != q ==> t[p] != t[q]
  {
    if p != q {
      InOrderTotal(p, q);
      if InOrder(p, q) {
        InOrderImpliesBefore(before, t, p, q);
      } else {
        InOrderImpliesBefore(before, t, q, p);
      }
    } else {
      InOrderSuffix(p, q, |p|);
    }
  }

  /** In a search tree the order of two nodes is the client's order of their values. */
  lemma PositionOrderIsValueOrder(before: (Str, Str) -> bool, t: Tree, p: Path, q: Path)
    requires StrictTotalOrder(before)
    requires Rooted(t) && Ordered(before, t)
    requires p in t && q in t
    ensures InOrder(p, q) <==> before(t[p], t[q])
    ensures p != q ==> t[p] != t[q]
  {
    hide StrictTotalOrder, OnSide;
    SidesDecideOrder(before, t, p, q);
  }

  /** So the codes of two such nodes compare as their values do. */
  lemma CodeOrderIsValueOrder(before: (Str, Str) -> bool, t: Tree, p: Path, q: Path)
    requires StrictTotalOrder(before) && Shallow(t)
    requires p in t && q in t && OnSide(before, t, p, t[p]) && OnSide(before, t, q, t[q])
    ensures Code(p) < Code(q) <==> before(t[p], t[q])
    ensures Code(p) == Code(q) <==> t[p] == t[q]
  {
    SidesDecideOrder(before, t, p, q);
    CodeMonotone(p, q);
    CodeInjective(p);
    CodeInjective(q);
  }

  // ---- One insertion ----

  /** A new leaf below a node leaves no gap. */
  lemma InsertKeepsRooted(t: Tree, p: Path, v: Str)
    requires Rooted(t) && p != [] && p[..|p| - 1] in t
    ensures Rooted(t[p := v])
  {
    var t' := t[p := v];
    forall q, n | q in t' && 0 <= n <= |q| ensures q[..n] in t' {
      if q == p && n < |p| {
        assert p[..n] == p[..|p| - 1][..n];
      } else if n == |q| {
        assert q[..n] == q;
      }
    }
  }

  lemma InsertKeepsOrder(before: (Str, Str) -> bool, t: Tree, p: Path, v: Str)
    requires Rooted(t) && Ordered(before, t)
    requires p !in t && p != [] && p[..|p| - 1] in t
    requires OnSide(before, t, p, v)
    ensures Rooted(t[p := v]) && Ordered(before, t[p := v])
  {
    var t' := t[p := v];
    InsertKeepsRooted(t, p, v);
    forall q | q in t' ensures OnSide(before, t', q, t'[q]) {
      forall n | 0 <= n < |q|
        ensures q[..n] in t' && (if q[n] then before(t'[q[..n]], t'[q]) else before(t'[q], t'[q[..n]]))
      {
        if q != p {
          assert OnSide(before, t, q, t[q]);
          assert q[..n] in t;
        }
      }
    }
  }

  /** A new leaf on the right side of its ancestors keeps a search tree one. */
  lemma InsertKeepsSearchTree(before: (Str, Str) -> bool, t: Tree, p: Path, v: Str)
    requires IsSearchTree(before, t)
    requires p !in t && p != [] && |p| <= MAX_DEPTH && p[..|p| - 1] in t
    requires OnSide(before, t, p, v)
    ensures IsSearchTree(before, t[p := v])
  {
    InsertKeepsOrder(before, t, p, v);
  }

  /** One more edge on a path keeps its value on the right side of what it has passed. */
  lemma StepKeepsSide(before: (Str, Str) -> bool, t: Tree, p: Path, b: bool, v: Str)
    requires p in t && OnSide(before, t, p, v)
    requires if b then before(t[p], v) else before(v, t[p])
    ensures OnSide(before, t, p + [b], v)
  {
    var q := p + [b];
    forall n | 0 <= n < |q|
      ensures q[..n] in t && (if q[n] then before(t[q[..n]], v) else before(v, t[q[..n]]))
    {
      if n == |p| {
        assert q[..n] == p;
      } else {
        assert q[..n] == p[..n];
      }
    }
  }

  // ---- Depth and size ----

  ghost function Ancestors(p: Path, n: nat): (s: set<Path>)
    requires n <= |p|
    ensures |s| == n + 1
    ensures forall q | q in s :: exists i | 0 <= i <= n :: q == p[..i]
  {
    if n == 0 then {p[..0]}
    else
      var s := Ancestors(p, n - 1);
      assert forall q | q in s :: |q| < n;
      s + {p[..n]}
  }

  lemma {:induction false} SubsetSize<T>(a: set<T>, b: set<T>)
    requires a <= b
    ensures |a| <= |b|
    decreases |a|
  {
    if x :| x in a {
      SubsetSize(a - {x}, b - {x});
    }
  }

  /** A node at depth d needs d + 1 nodes. */
  lemma DepthBelowSize(t: Tree, p: Path)
    requires Rooted(t) && p in t
    ensures |p| < |t|
  {
    var a := Ancestors(p, |p|);
    forall q | q in a ensures q in t.Keys {
      var i :| 0 <= i <= |p| && q == p[..i];
    }
    SubsetSize(a, t.Keys);
  }

  lemma {:induction false} ImageSize(keys: set<Path>, t: Tree, values: set<Str>)
    requires keys <= t.Keys
    requires forall p, q | p in keys && q in keys && p != q :: t[p] != t[q]
    requires forall p | p in keys :: t[p] in values
    ensures |keys| <= |values|
    decreases |keys|
  {
    if p :| p in keys {
      ImageSize(keys - {p}, t, values - {t[p]});
    }
  }

  /** A search tree has no more nodes than there are values to put in it. */
  lemma SizeBelowValues(before: (Str, Str) -> bool, t: Tree, values: set<Str>)
    requires StrictTotalOrder(before)
    requires Rooted(t) && Ordered(before, t)
    requires t.Values <= values
    ensures |t| <= |values|
  {
    forall p, q | p in t && q in t && p != q ensures t[p] != t[q] {
      PositionOrderIsValueOrder(before, t, p, q);
    }
    ImageSize(t.Keys, t, values);
  }
}
