/** One insert run without interleaving: the chain of answers on the shared tree does what the
    recursive search-tree insert does, from any reachable state; and how deep that can go. */
module Solo {
  import opened Strings
  import opened PathCode
  import opened SearchTree
  import opened Protocol
  import opened Runs
  import opened RunTheorems

  datatype FTree = Leaf | Node(left: FTree, value: Str, right: FTree)

  function Insert(before: (Str, Str) -> bool, f: FTree, v: Str): FTree {
    match f
    case Leaf => Node(Leaf, v, Leaf)
    case Node(l, x, r) =>
      if before(v, x) then Node(Insert(before, l, v), x, r)
      else if before(x, v) then Node(l, x, Insert(before, r, v))
      else f
  }

  function Lookup(f: FTree, p: Path): Option<Str> {
    match f
    case Leaf => None
    case Node(l, x, r) =>
      if p == [] then Some(x) else Lookup(if p[0] then r else l, p[1..])
  }

  /** The path at which the recursive insert finds v or puts it. */
  function InsertPath(before: (Str, Str) -> bool, f: FTree, v: Str): Path {
    match f
    case Leaf => []
    case Node(l, x, r) =>
      if before(v, x) then [false] + InsertPath(before, l, v)
      else if before(x, v) then [true] + InsertPath(before, r, v)
      else []
  }

  /** The subtree of t at p has the nodes of f. */
  ghost predicate RepresentsAt(t: Tree, p: Path, f: FTree) {
    forall q :: Lookup(f, q) == if p + q in t then Some(t[p + q]) else None
  }

  ghost predicate Represents(t: Tree, f: FTree) {
    forall q :: Lookup(f, q) == if q in t then Some(t[q]) else None
  }

  function WithLeaf(t: Tree, p: Path, v: Str): Tree {
    if p in t then t else t[p := v]
  }

  lemma {:induction false} InsertLookup(before: (Str, Str) -> bool, f: FTree, v: Str, q: Path)
    ensures Lookup(Insert(before, f, v), q) ==
            if q == InsertPath(before, f, v) && Lookup(f, q) == None then Some(v) else Lookup(f, q)
  {
    match f
    case Leaf =>
      if q != [] { assert Lookup(Leaf, q[1..]) == None; }
    case Node(l, x, r) =>
      if q != [] {
        assert q == [q[0]] + q[1..];
        if before(v, x) {
          InsertLookup(before, l, v, q[1..]);
        } else if before(x, v) {
          InsertLookup(before, r, v, q[1..]);
        }
      }
  }

  /** Adding the one leaf is the recursive insert. */
  lemma InsertRepresented(before: (Str, Str) -> bool, t: Tree, f: FTree, v: Str)
    requires Represents(t, f)
    ensures Represents(WithLeaf(t, InsertPath(before, f, v), v), Insert(before, f, v))
  {
    forall q
      ensures var t' := WithLeaf(t, InsertPath(before, f, v), v);
              Lookup(Insert(before, f, v), q) == if q in t' then Some(t'[q]) else None
    {
      InsertLookup(before, f, v, q);
    }
  }

  lemma RepresentsChild(t: Tree, p: Path, f: FTree, b: bool)
    requires f.Node? && RepresentsAt(t, p, f)
    ensures RepresentsAt(t, p + [b], if b then f.right else f.left)
  {
    forall q
      ensures Lookup(if b then f.right else f.left, q) == if p + [b] + q in t then Some(t[p + [b] + q]) else None
    {
      assert p + ([b] + q) == p + [b] + q;
      assert Lookup(f, [b] + q) == Lookup(if b then f.right else f.left, ([b] + q)[1..]);
    }
  }

  lemma RepresentsNode(t: Tree, p: Path, f: FTree)
    requires RepresentsAt(t, p, f)
    ensures p in t <==> f.Node?
    ensures f.Node? && p in t ==> t[p] == f.value
  {
    assert p + [] == p;
    assert Lookup(f, []) == if p + [] in t then Some(t[p + []]) else None;
  }

  /** The nodes of t at and below p as a recursive tree. */
  function Subtree(t: Tree, p: Path): FTree
    decreases 64 - |p|
  {
    if p !in t || |p| > MAX_DEPTH then Leaf
    else Node(Subtree(t, p + [false]), t[p], Subtree(t, p + [true]))
  }

  /** The recursive tree of a table, Leaf while it has none. */
  function TableTree(w: World, key: Str): FTree {
    if key in w.server.trees then Subtree(w.server.trees[key], []) else Leaf
  }

  /** Every tree without gaps is the tree of a recursive one. */
  lemma {:induction false} SubtreeRepresents(t: Tree, p: Path)
    requires Rooted(t) && Shallow(t)
    ensures RepresentsAt(t, p, Subtree(t, p))
    decreases 64 - |p|
  {
    if p !in t {
      forall q ensures p + q !in t {
        assert (p + q)[..|p|] == p;
      }
    } else {
      SubtreeRepresents(t, p + [false]);
      SubtreeRepresents(t, p + [true]);
      forall q ensures Lookup(Subtree(t, p), q) == if p + q in t then Some(t[p + q]) else None {
        if q == [] {
          assert p + q == p;
        } else {
          assert p + [q[0]] + q[1..] == p + q;
        }
      }
    }
  }

  /** A recursive tree is determined by its nodes. */
  lemma {:induction false} LookupDetermines(f: FTree, g: FTree)
    requires forall q :: Lookup(f, q) == Lookup(g, q)
    ensures f == g
  {
    assert Lookup(f, []) == Lookup(g, []);
    if f.Leaf? {
    } else {
      forall q ensures Lookup(f.left, q) == Lookup(g.left, q) {
        assert Lookup(f, [false] + q) == Lookup(g, [false] + q) && ([false] + q)[1..] == q;
      }
      forall q ensures Lookup(f.right, q) == Lookup(g.right, q) {
        assert Lookup(f, [true] + q) == Lookup(g, [true] + q) && ([true] + q)[1..] == q;
      }
      LookupDetermines(f.left, g.left);
      LookupDetermines(f.right, g.right);
    }
  }

  /** So a representation is the tree itself. */
  lemma RepresentedIsSubtree(t: Tree, f: FTree)
    requires Rooted(t) && Shallow(t) && Represents(t, f)
    ensures f == Subtree(t, [])
  {
    hide Rooted, Shallow;
    SubtreeRepresents(t, []);
    forall q ensures Lookup(f, q) == Lookup(Subtree(t, []), q) {
      assert [] + q == q;
    }
    LookupDetermines(f, Subtree(t, []));
  }

  // ---- Runs of one client ----

  lemma {:induction false} RunAppend(
    before: (Str, Str) -> bool, view: Row -> Str, w: World, a: seq<Action>, b: seq<Action>)
    requires LegalRun(w, a) && LegalRun(Exec(w, a), b)
    requires AnswersBy(before, view, w, a) && AnswersBy(before, view, Exec(w, a), b)
    ensures LegalRun(w, a + b) && AnswersBy(before, view, w, a + b)
    ensures Exec(w, a + b) == Exec(Exec(w, a), b)
    decreases |a|
  {
    hide Legal, Next, AnsweredBy;
    if a == [] {
      assert a + b == b;
    } else {
      RunAppend(before, view, Next(w, a[0]), a[1..], b);
      assert (a + b)[0] == a[0] && (a + b)[1..] == a[1..] + b;
    }
  }

  lemma RunSingle(before: (Str, Str) -> bool, view: Row -> Str, w: World, a: Action)
    requires Legal(w, a) && AnsweredBy(before, view, w, a)
    ensures LegalRun(w, [a]) && Exec(w, [a]) == Next(w, a) && AnswersBy(before, view, w, [a])
  {
    hide Legal, Next, AnsweredBy;
    assert [a][1..] == [];
    assert LegalRun(Next(w, a), []) && Exec(Next(w, a), []) == Next(w, a);
  }

  lemma RunEmpty(before: (Str, Str) -> bool, view: Row -> Str, w: World)
    ensures LegalRun(w, []) && Exec(w, []) == w && AnswersBy(before, view, w, [])
  {
  }

  /** The value a waiting client has filed. */
  function ValueOf(w: World, id: nat): Str
    requires id in w.waiting
  {
    Filed(w.waiting[id].submitted.row)
  }

  /** Its truthful answer, sent under its own id. */
  function Truth(before: (Str, Str) -> bool, w: World, id: nat): Action
    requires id in w.waiting
  {
    Respond(id, id, Answer(before, ValueOf(w, id), w.waiting[id].shown))
  }

  predicate IsOf(a: Action, id: nat) {
    a.Respond? && a.requestId == id && a.id == id
  }

  /** An answer that finds a node moves the traverse and nothing else. */
  lemma DescendFacts(w: World, a: Action)
    requires Inv(w) && a.Respond? && Legal(w, a) && IsEdge(a.answer)
    requires Anchored(w.server, a.id) && Descends(w, a)
    ensures var w' := Next(w, a);
            && w'.server.trees == w.server.trees
            && w'.waiting - {a.id} == w.waiting - {a.id}
            && a.id in w'.waiting && Anchored(w'.server, a.id)
            && w'.waiting[a.id].submitted == w.waiting[a.id].submitted
            && SessionOf(w', a.id).key == SessionOf(w, a.id).key
            && SessionOf(w', a.id).at == SessionOf(w, a.id).at + [a.answer == 1]
  {
    hide Inv, FirstOpe, LastOpe;
  }

  lemma SoloFacts(w: World, id: nat)
    requires Inv(w) && id in w.waiting
    ensures Anchored(w.server, id)
    ensures var s := SessionOf(w, id);
            && w.waiting[id].shown == w.server.trees[s.key][s.at]
            && ValueOf(w, id) == s.value
            && s.key == TableKey(w.waiting[id].submitted.database, w.waiting[id].submitted.table)
            && Rooted(w.server.trees[s.key]) && Shallow(w.server.trees[s.key])
  {
    hide Inv, LogOk, FirstOpe, Rooted, Shallow;
    WaitingFacts(w, id);
  }

  /** Where the search for v from the traverse of a waiting client ends. */
  ghost predicate AtEnd(before: (Str, Str) -> bool, w: World, id: nat, end: Path)
    requires id in w.waiting && Anchored(w.server, id)
  {
    var s, answer := SessionOf(w, id), Truth(before, w, id).answer;
    if end in w.server.trees[s.key] then s.at == end && answer == 0
    else answer != 0 && end == s.at + [answer == 1]
  }

  /** Answering until the end of the search: the traverse comes to the node that holds the value,
      or to the parent of the place where the recursive insert would put it. */
  lemma {:induction false} SoloReach(before: (Str, Str) -> bool, w: World, id: nat, f: FTree)
    returns (acts: seq<Action>)
    requires StrictTotalOrder(before)
    requires Inv(w) && id in w.waiting && Anchored(w.server, id)
    requires f.Node? && RepresentsAt(w.server.trees[SessionOf(w, id).key], SessionOf(w, id).at, f)
    ensures forall a | a in acts :: IsOf(a, id)
    ensures LegalRun(w, acts) && AnswersBy(before, Filed, w, acts)
    ensures var w' := Exec(w, acts);
            && Inv(w')
            && w'.server.trees == w.server.trees
            && w'.waiting - {id} == w.waiting - {id}
            && id in w'.waiting && Anchored(w'.server, id)
            && w'.waiting[id].submitted == w.waiting[id].submitted
            && SessionOf(w', id).key == SessionOf(w, id).key
            && AtEnd(before, w', id, SessionOf(w, id).at + InsertPath(before, f, ValueOf(w, id)))
    decreases f
  {
    hide Inv, StrictTotalOrder, LegalRun, Exec, AnswersBy, RepresentsAt, Legal, Next, SessionOk, Rooted, Shallow, Filed;
    var s, v, a := SessionOf(w, id), ValueOf(w, id), Truth(before, w, id);
    var t := w.server.trees[s.key];
    SoloFacts(w, id);
    RepresentsNode(t, s.at, f);
    var here := s.at + InsertPath(before, f, v);
    if a.answer == 0 {
      assert InsertPath(before, f, v) == [];
      assert here == s.at;
      acts := [];
      RunEmpty(before, Filed, w);
    } else {
      var child := if a.answer == 1 then f.right else f.left;
      RepresentsChild(t, s.at, f, a.answer == 1);
      RepresentsNode(t, s.at + [a.answer == 1], child);
      AnswerIsBranch(before, f, v, w.waiting[id].shown);
      assert here == s.at + [a.answer == 1] + InsertPath(before, child, v);
      if child.Leaf? {
        assert here == s.at + [a.answer == 1];
        acts := [];
        RunEmpty(before, Filed, w);
      } else {
        AnswerNeedsOnlyDepth(w, a);
        DescendFacts(w, a);
        NextKeepsInv(w, a);
        var w1 := Next(w, a);
        var rest := SoloReach(before, w1, id, child);
        RunSingle(before, Filed, w, a);
        RunAppend(before, Filed, w, [a], rest);
        acts := [a] + rest;
      }
    }
  }

  lemma AnswerIsBranch(before: (Str, Str) -> bool, f: FTree, v: Str, shown: Str)
    requires f.Node? && f.value == shown && Answer(before, v, shown) != 0
    ensures var right := Answer(before, v, shown) == 1;
            InsertPath(before, f, v) == [right] + InsertPath(before, if right then f.right else f.left, v)
  {
  }

  /** The last answer stores the value at the end of the search, or finds it there. */
  lemma LastAnswer(w: World, a: Action)
    requires Inv(w) && a.Respond? && Legal(w, a) && Anchored(w.server, a.id)
    requires IsEdge(a.answer) ==> !Descends(w, a)
    ensures var w' := Next(w, a);
            && w'.waiting == w.waiting - {a.id}
            && w'.server.trees ==
                 (if !IsEdge(a.answer) then w.server.trees
                  else var s := SessionOf(w, a.id);
                       w.server.trees[s.key := w.server.trees[s.key][Target(w, a) := s.value]])
  {
    hide Inv, FirstOpe, LastOpe;
  }

  /** A traverse left alone inserts exactly what the recursive insert does, or finds it. */
  lemma SoloFinish(before: (Str, Str) -> bool, w: World, id: nat, f: FTree)
    returns (acts: seq<Action>)
    requires StrictTotalOrder(before)
    requires Inv(w) && id in w.waiting && Anchored(w.server, id)
    requires SessionOf(w, id).at == [] && f.Node?
    requires Represents(w.server.trees[SessionOf(w, id).key], f)
    requires |InsertPath(before, f, ValueOf(w, id))| <= MAX_DEPTH
    ensures forall a | a in acts :: IsOf(a, id)
    ensures LegalRun(w, acts) && AnswersBy(before, Filed, w, acts)
    ensures var w', key, v := Exec(w, acts), SessionOf(w, id).key, ValueOf(w, id);
            && Inv(w')
            && w'.waiting == w.waiting - {id}
            && key in w'.server.trees && Represents(w'.server.trees[key], Insert(before, f, v))
            && w'.server.trees - {key} == w.server.trees - {key}
  {
    hide Inv, StrictTotalOrder, LegalRun, Exec, AnswersBy, RepresentsAt;
    hide Represents, Legal, Next, Filed, Rooted, Shallow;
    var key, v := SessionOf(w, id).key, ValueOf(w, id);
    var t := w.server.trees[key];
    RepresentsRoot(t, f);
    acts := SoloReach(before, w, id, f);
    var w1 := Exec(w, acts);
    var end := InsertPath(before, f, v);
    assert [] + end == end;
    var a := Truth(before, w1, id);
    AnswerNeedsOnlyDepth(w1, a);
    SoloFacts(w1, id);
    LastAnswer(w1, a);
    NextKeepsInv(w1, a);
    RunSingle(before, Filed, w1, a);
    RunAppend(before, Filed, w, acts, [a]);
    InsertRepresented(before, t, f, v);
    assert Next(w1, a).server.trees[key] == WithLeaf(t, end, v);
    acts := acts + [a];
  }

  lemma RepresentsRoot(t: Tree, f: FTree)
    ensures Represents(t, f) <==> RepresentsAt(t, [], f)
  {
    assert forall q: Path :: [] + q == q;
    if RepresentsAt(t, [], f) {
      forall q ensures Lookup(f, q) == if q in t then Some(t[q]) else None {
        assert [] + q == q;
      }
    }
  }

  lemma OpenFacts(w: World, a: Action)
    requires a.Submit? && Legal(w, a) && FirstOpe(a.row).Some?
    requires TableKey(a.database, a.table) in w.server.trees
    ensures var w' := Next(w, a);
            && w'.server.trees == w.server.trees
            && a.id in w'.waiting && Anchored(w'.server, a.id)
            && w'.waiting == w.waiting[a.id := w'.waiting[a.id]]
            && SessionOf(w', a.id).at == [] && SessionOf(w', a.id).key == TableKey(a.database, a.table)
            && ValueOf(w', a.id) == Filed(a.row)
  {
    hide FirstOpe, LastOpe;
  }

  lemma CreateFacts(w: World, a: Action)
    requires a.Submit? && Legal(w, a) && FirstOpe(a.row).Some?
    requires TableKey(a.database, a.table) !in w.server.trees
    ensures var w' := Next(w, a);
            && w'.waiting == w.waiting
            && w'.server.trees == w.server.trees[TableKey(a.database, a.table) := map[[] := Filed(a.row)]]
  {
    hide LastOpe, FirstOpe;
  }

  lemma SingletonRepresents(v: Str)
    ensures Represents(map[[] := v], Node(Leaf, v, Leaf))
  {
    var t: Tree := map[[] := v];
    forall q ensures Lookup(Node(Leaf, v, Leaf), q) == if q in t then Some(t[q]) else None {
      if q != [] {
        assert Lookup(Node(Leaf, v, Leaf), q) == Lookup(Leaf, q[1..]);
      }
    }
  }

  lemma TableTreeRepresents(w: World, key: Str)
    requires Inv(w) && key in w.server.trees
    ensures TableTree(w, key).Node? && Represents(w.server.trees[key], TableTree(w, key))
  {
    hide Inv;
    TreeFacts(w, key);
    SubtreeRepresents(w.server.trees[key], []);
    RepresentsRoot(w.server.trees[key], TableTree(w, key));
    RepresentsNode(w.server.trees[key], [], TableTree(w, key));
  }

  lemma RepresentedTable(w: World, key: Str, f: FTree)
    requires Inv(w) && key in w.server.trees && Represents(w.server.trees[key], f)
    ensures TableTree(w, key) == f
  {
    hide Inv, Represents, Rooted, Shallow;
    TreeFacts(w, key);
    RepresentedIsSubtree(w.server.trees[key], f);
  }

  /** One client's whole insert, run without interleaving from any reachable state, is the
      recursive search-tree insert on that table's tree and leaves every other tree alone, as
      long as the place it comes to has a code. */
  lemma SoloInsertIsInsert(before: (Str, Str) -> bool, w: World, a: Action)
    returns (acts: seq<Action>)
    requires StrictTotalOrder(before)
    requires Inv(w) && a.Submit? && FreshId(w, a) && FirstOpe(a.row).Some?
    requires |InsertPath(before, TableTree(w, TableKey(a.database, a.table)), Filed(a.row))| <= MAX_DEPTH
    ensures forall b | b in acts :: IsOf(b, a.id)
    ensures LegalRun(w, [a] + acts) && AnswersBy(before, Filed, w, [a] + acts)
    ensures var w', key := Exec(w, [a] + acts), TableKey(a.database, a.table);
            && Inv(w')
            && w'.waiting == w.waiting
            && TableTree(w', key) == Insert(before, TableTree(w, key), Filed(a.row))
            && w'.server.trees - {key} == w.server.trees - {key}
  {
    hide Inv, StrictTotalOrder, LegalRun, Exec, AnswersBy, Represents, Legal, Next, FirstOpe, Filed, TableTree;
    var key, f := TableKey(a.database, a.table), TableTree(w, TableKey(a.database, a.table));
    SubmitIsLegal(w, a);
    NextKeepsInv(w, a);
    RunSingle(before, Filed, w, a);
    var w1 := Next(w, a);
    if key in w.server.trees {
      OpenFacts(w, a);
      TableTreeRepresents(w, key);
      acts := SoloFinish(before, w1, a.id, f);
      RunAppend(before, Filed, w, [a], acts);
      RepresentedTable(Exec(w1, acts), key, Insert(before, f, Filed(a.row)));
      assert w.waiting[a.id := w1.waiting[a.id]] - {a.id} == w.waiting;
    } else {
      CreateFacts(w, a);
      NoTable(w, key);
      SingletonRepresents(Filed(a.row));
      RepresentedTable(w1, key, Node(Leaf, Filed(a.row), Leaf));
      acts := [];
      assert [a] + acts == [a];
      assert w1.server.trees - {key} == w.server.trees - {key};
    }
  }

  lemma NoTable(w: World, key: Str)
    requires key !in w.server.trees
    ensures TableTree(w, key) == Leaf
  {
  }

  // ---- The depth bound is tight ----

  /** The first n of the values, each inserted left of all before it. */
  function Spine(values: seq<Str>, n: nat): FTree
    requires n <= |values|
    decreases n
  {
    SpineUnder(values, 0, n)
  }

  function SpineUnder(values: seq<Str>, i: nat, n: nat): FTree
    requires i <= n <= |values|
    decreases n - i
  {
    if i == n then Leaf else Node(SpineUnder(values, i + 1, n), values[i], Leaf)
  }

  /** Each value goes before all earlier ones. */
  ghost predicate Descending(before: (Str, Str) -> bool, values: seq<Str>) {
    forall i, j | 0 <= i < j < |values| :: before(values[j], values[i])
  }

  function Lefts(n: nat): (p: Path)
    ensures |p| == n
  {
    if n == 0 then [] else [false] + Lefts(n - 1)
  }

  lemma {:induction false} SpineInsert(before: (Str, Str) -> bool, values: seq<Str>, i: nat, n: nat)
    requires Descending(before, values) && i <= n < |values|
    ensures Insert(before, SpineUnder(values, i, n), values[n]) == SpineUnder(values, i, n + 1)
    ensures InsertPath(before, SpineUnder(values, i, n), values[n]) == Lefts(n - i)
    decreases n - i
  {
    if i == n {
    } else {
      SpineInsert(before, values, i + 1, n);
    }
  }

  /** The row {"_ope": v} for the table "a"."a". */
  function OpeRow(v: Str): Row {
    map[OPE_SUFFIX := v]
  }

  function OpeSubmit(v: Str): Action {
    Submit(0, [97], [97], OpeRow(v))
  }

  const KEY: Str := TableKey([97], [97])

  lemma OpeRowSingle(v: Str)
    ensures SingleOpe(OpeRow(v), OPE_SUFFIX) && OpeRow(v)[OPE_SUFFIX] == v
    ensures FirstOpe(OpeRow(v)).Some? && Filed(OpeRow(v)) == v
  {
    assert IsOpe(OPE_SUFFIX);
    SingleOpeIsBoth(OpeRow(v), OPE_SUFFIX);
  }

  /** Up to 64 values can be inserted that way, one client after the other. */
  lemma {:induction false} SpineRun(before: (Str, Str) -> bool, values: seq<Str>, n: nat) returns (acts: seq<Action>)
    requires StrictTotalOrder(before) && Descending(before, values) && n <= |values| && n <= 64
    ensures LegalRun(START, acts) && AnswersBy(before, Filed, START, acts)
    ensures SingleRows(acts)
    ensures var w := Exec(START, acts);
            Inv(w) && w.waiting == map[] && TableTree(w, KEY) == Spine(values, n)
    decreases n
  {
    hide Inv, StrictTotalOrder, LegalRun, Exec, AnswersBy, Legal, Next, SingleOpe, OpeRow, Descending, TableTree;
    if n == 0 {
      acts := [];
      RunEmpty(before, Filed, START);
      StartInv();
      NoTable(START, KEY);
    } else {
      acts := SpineRun(before, values, n - 1);
      var a := OpeSubmit(values[n - 1]);
      OpeRowSingle(values[n - 1]);
      SpineInsert(before, values, 0, n - 1);
      var more := SoloInsertIsInsert(before, Exec(START, acts), a);
      RunAppend(before, Filed, START, acts, [a] + more);
      acts := acts + ([a] + more);
    }
  }

  /** Rows with "_ope" as their only "_ope" field. */
  ghost predicate SingleRows(acts: seq<Action>) {
    forall a | a in acts && a.Submit? :: SingleOpe(a.row, OPE_SUFFIX)
  }

  /** With 65 distinct values the bound can fail: there is a legal run of truthful clients after which
      a truthful answer would shift by a negative count. */
  lemma SixtyFiveValuesMayNotFit(before: (Str, Str) -> bool, values: seq<Str>) returns (acts: seq<Action>, a: Action)
    requires StrictTotalOrder(before) && Descending(before, values) && |values| == 65
    ensures LegalRun(START, acts) && AnswersBy(before, Filed, START, acts)
    ensures SingleRows(acts)
    ensures var w := Exec(START, acts);
            a.Respond? && FreshId(w, a) && AnsweredBy(before, Filed, w, a) && !Legal(w, a)
  {
    hide Inv, StrictTotalOrder, LegalRun, Exec, AnswersBy, Represents, RepresentsAt, Legal;
    hide Next, SingleOpe, OpeRow, Descending, TableTree, Filed, FirstOpe;
    var first := SpineRun(before, values, 64);
    var w := Exec(START, first);
    var submit, f := OpeSubmit(values[64]), Spine(values, 64);
    OpeRowSingle(values[64]);
    SubmitIsLegal(w, submit);
    TableTreeThere(w, KEY);
    OpenFacts(w, submit);
    NextKeepsInv(w, submit);
    RunSingle(before, Filed, w, submit);
    var w1 := Next(w, submit);
    SpineInsert(before, values, 0, 64);
    TableTreeRepresents(w, KEY);
    RepresentsRoot(w1.server.trees[KEY], f);
    var answers := SoloReach(before, w1, 0, f);
    var w2 := Exec(w1, answers);
    RunAppend(before, Filed, w, [submit], answers);
    RunAppend(before, Filed, START, first, [submit] + answers);
    acts, a := first + ([submit] + answers), Truth(before, w2, 0);
    assert [] + Lefts(64) == Lefts(64);
    SpineStops(before, w2, f, values);
  }

  lemma TableTreeThere(w: World, key: Str)
    requires TableTree(w, key).Node?
    ensures key in w.server.trees
  {
  }

  /** Past the last node of the spine there is no room. */
  lemma SpineStops(before: (Str, Str) -> bool, w: World, f: FTree, values: seq<Str>)
    requires Inv(w) && 0 in w.waiting && Anchored(w.server, 0)
    requires |values| == 65 && f == Spine(values, 64) && SessionOf(w, 0).key == KEY
    requires RepresentsAt(w.server.trees[KEY], [], f)
    requires AtEnd(before, w, 0, Lefts(64))
    ensures !Legal(w, Truth(before, w, 0))
  {
    hide Inv, RepresentsAt, Filed;
    AnswerNeedsOnlyDepth(w, Truth(before, w, 0));
    SoloFacts(w, 0);
  }
}
