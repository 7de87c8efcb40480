/** The client that comes with the server: its comparison, and which way round it puts things. */
module ShippedClient {
  import opened Strings
  import opened Protocol
  import opened SearchTree
  import opened Runs
  import opened RunTheorems
  import opened Solo
  import Decimal

  /** `std::string::compare`: the first difference in unsigned bytes, else the difference in length. */
  function StringCompare(a: Str, b: Str): int {
    if a == [] || b == [] then |a| - |b|
    else if a[0] != b[0] then a[0] as int - b[0]
    else StringCompare(a[1..], b[1..])
  }

  /** `compare`. */
  function Compare(a: Str, b: Str): (r: int)
  {
    var result := StringCompare(a, b);
    if result < 0 then -1 else if result > 0 then 1 else 0
  }

  /** The comparison is the one `std::map` orders its keys by. */
  lemma {:induction false} CompareIsLess(a: Str, b: Str)
    ensures Compare(a, b) == -1 <==> Less(a, b)
    ensures Compare(a, b) == 1 <==> Less(b, a)
    ensures Compare(a, b) == 0 <==> a == b
  {
    if a != [] && b != [] && a[0] == b[0] {
      assert a == [a[0]] + a[1..] && b == [b[0]] + b[1..];
      CompareIsLess(a[1..], b[1..]);
    }
  }

  /** -1 exactly when the first string comes first lexicographically, as unsigned bytes: at the first
      difference it has ended or has the smaller byte; 1 exactly when the second does. */
  lemma CompareIsLexicographic(a: Str, b: Str)
    ensures Compare(a, b) == -1 <==>
            exists n :: 0 <= n <= |a| && n < |b| && a[..n] == b[..n] && (n == |a| || a[n] < b[n])
    ensures Compare(a, b) == 1 <==>
            exists n :: 0 <= n <= |b| && n < |a| && b[..n] == a[..n] && (n == |b| || b[n] < a[n])
    ensures Compare(a, b) == 0 <==> a == b
  {
    hide Less, Compare;
    CompareIsLess(a, b);
    LessIsLexicographic(a, b);
    LessIsLexicographic(b, a);
  }

  /** Larger values go left: the client compares the server's value with its own, in that order. */
  predicate Larger(value: Str, node: Str) {
    Less(node, value)
  }

  lemma LargerIsStrictTotalOrder()
    ensures StrictTotalOrder(Larger)
  {
    forall a ensures !Larger(a, a) { LessIrreflexive(a); }
    forall a, b, c | Larger(a, b) && Larger(b, c) ensures Larger(a, c) { LessTransitive(c, b, a); }
    forall a, b | a != b ensures Larger(a, b) || Larger(b, a) { LessTotal(a, b); }
  }

  /** The shipped answer is the honest one for that order, and never for the natural one unless equal. */
  lemma ShippedAnswer(value: Str, shown: Str)
    ensures Compare(shown, value) == Answer(Larger, value, shown)
    ensures Compare(shown, value) == Answer(Less, value, shown) <==> value == shown
  {
    CompareIsLess(shown, value);
    LessIrreflexive(value);
    if Less(value, shown) && Less(shown, value) {
      LessTransitive(value, shown, value);
    }
  }

  /** A run of shipped clients: each compares what it is shown with the value of its last "_ope"
      field, while the server files that of the first. */
  ghost predicate ShippedRun(acts: seq<Action>) {
    LegalRun(START, acts) && AnswersBy(Larger, Own, START, acts)
  }

  /** With shipped clients the stored codes run against the plaintexts: of two rows of a table with
      one "_ope" field each, the smaller code belongs to the larger value, whatever other rows
      there are. */
  lemma ShippedCodesDescend(acts: seq<Action>, i: nat, j: nat, fi: Str, fj: Str)
    requires ShippedRun(acts)
    requires var w := Exec(START, acts);
             && i < |w.submitted| && j < |w.submitted|
             && SingleOpe(w.submitted[i].row, fi) && SingleOpe(w.submitted[j].row, fj)
             && w.submitted[i].database == w.submitted[j].database
             && w.submitted[i].table == w.submitted[j].table
    ensures var w := Exec(START, acts);
            && |w.server.rows| == |w.submitted|
            && fi in w.server.rows[i].row && fj in w.server.rows[j].row
            && (Decimal.Value(w.server.rows[i].row[fi]) < Decimal.Value(w.server.rows[j].row[fj]) <==>
                Less(w.submitted[j].row[fj], w.submitted[i].row[fi]))
  {
    hide LegalRun, Exec, SingleOpe, Decimal.Value, AnswersBy, Truthful, FirstOpe, LastOpe;
    LargerIsStrictTotalOrder();
    RunKeepsTruth(Larger, Own, START, acts);
    var w := Exec(START, acts);
    SingleOpeIsBoth(w.submitted[i].row, fi);
    SingleOpeIsBoth(w.submitted[j].row, fj);
    StoredCodesFollowOrder(Larger, acts, i, j, fi, fj);
  }

  // ---- Rows with several "_ope" fields ----

  ghost predicate TreesOrdered(before: (Str, Str) -> bool, w: World) {
    forall k | k in w.server.trees :: IsSearchTree(before, w.server.trees[k])
  }

  /** The first and the last "_ope" field hold the same value. */
  predicate Agrees(row: Row) {
    Filed(row) == Own(row)
  }

  /** All rows of a run are among the admitted ones. */
  ghost predicate RowsAmong(admitted: Row -> bool, acts: seq<Action>) {
    forall a | a in acts && a.Submit? :: admitted(a.row)
  }

  /** Shipped clients whose rows agree keep every tree a search tree. */
  lemma AgreeingRunsKeepOrder(acts: seq<Action>)
    requires ShippedRun(acts) && forall a | a in acts && a.Submit? :: Agrees(a.row)
    ensures TreesOrdered(Larger, Exec(START, acts))
  {
    hide LegalRun, Exec, AnswersBy, IsSearchTree;
    LargerIsStrictTotalOrder();
    SwitchView(Larger, Own, Filed, START, acts);
    TruthfulRunsKeepOrder(Larger, acts);
  }

  /** And up to 64 distinct values per tree they stay within the depth of the codes. */
  lemma AgreeingRunsFit(acts: seq<Action>)
    requires FreshRun(Larger, Own, START, acts) && forall a | a in acts && a.Submit? :: Agrees(a.row)
    requires forall k :: |OpeValues(acts, k)| <= 64
    ensures ShippedRun(acts)
  {
    hide LegalRun, AnswersBy, FreshRun;
    LargerIsStrictTotalOrder();
    FreshSwitch(Larger, Own, Filed, START, acts);
    SixtyFourValuesFit(Larger, acts);
    SwitchView(Larger, Filed, Own, START, acts);
  }

  /** One row as the root of a tree, then another whose client gives one answer. */
  function WrongRun(before: (Str, Str) -> bool, first: Row, row: Row): (acts: seq<Action>)
    ensures |acts| == 3
  {
    [Submit(0, [97], [97], first), Submit(1, [97], [97], row), Respond(1, 1, Answer(before, Own(row), Filed(first)))]
  }

  /** One insert below a root whose client compares its own value. */
  lemma WrongSteps(before: (Str, Str) -> bool, first: Row, row: Row)
    requires StrictTotalOrder(before)
    requires FirstOpe(first).Some? && FirstOpe(row).Some? && Own(row) != Filed(first)
    ensures var acts := WrongRun(before, first, row);
            && Legal(START, acts[0]) && AnsweredBy(before, Own, START, acts[0])
            && var w1 := Next(START, acts[0]);
            && Legal(w1, acts[1]) && AnsweredBy(before, Own, w1, acts[1])
            && var w2 := Next(w1, acts[1]);
            && Legal(w2, acts[2]) && AnsweredBy(before, Own, w2, acts[2])
            && var w3 := Next(w2, acts[2]);
               w3.server.trees == map[KEY := map[[] := Filed(first), [before(Filed(first), Own(row))] := Filed(row)]]
  {
    hide FirstOpe, LastOpe, Decimal.Print, Own, Filed;
    var root := Filed(first);
    var acts := WrongRun(before, first, row);
    var w1 := Next(START, acts[0]);
    var w2 := Next(w1, acts[1]);
    assert w2.server.trees == map[KEY := map[[] := root]];
    assert w2.waiting[1] == Waiting(Stored([97], [97], row), root, []);
    assert w2.server.sessions[1] == Some(Session(KEY, [], 0, 0, Filed(row), [97], [97], row));
    assert [] + [before(root, Own(row))] == [before(root, Own(row))];
    assert Answer(before, Own(row), root) == if before(root, Own(row)) then 1 else -1;
    var w3 := Next(w2, acts[2]);
    assert w3.server.trees[KEY] == map[[] := root, [before(root, Own(row))] := Filed(row)];
  }

  /** The server files a value at the place its client has led it to for another one: below the
      root if it is not on the side the client's own value belongs on, the order is broken. */
  lemma WrongSide(before: (Str, Str) -> bool, first: Row, row: Row) returns (acts: seq<Action>)
    requires StrictTotalOrder(before)
    requires FirstOpe(first).Some? && FirstOpe(row).Some? && Own(row) != Filed(first)
    requires if before(Filed(first), Own(row)) then !before(Filed(first), Filed(row))
             else !before(Filed(row), Filed(first))
    ensures acts == WrongRun(before, first, row)
    ensures LegalRun(START, acts) && AnswersBy(before, Own, START, acts)
    ensures Exec(START, acts).server.trees ==
            map[KEY := map[[] := Filed(first), [before(Filed(first), Own(row))] := Filed(row)]]
    ensures !TreesOrdered(before, Exec(START, acts))
  {
    hide Legal, Next, AnsweredBy, LegalRun, Exec, AnswersBy, FirstOpe, Own, Filed;
    acts := WrongRun(before, first, row);
    WrongSteps(before, first, row);
    RunOfThree(before, Own, START, acts);
    var t := Exec(START, acts).server.trees[KEY];
    var p := [before(Filed(first), Own(row))];
    assert p[..0] == [];
    assert !OnSide(before, t, p, t[p]);
  }

  lemma WrongRunRows(before: (Str, Str) -> bool, row: Row)
    ensures forall a | a in WrongRun(before, row, row) && a.Submit? :: a.row == row
  {
    hide Filed, Own, Answer;
  }

  /** One row whose first and last "_ope" field differ is enough: when it is inserted twice, a tree is
      out of order, with the value filed a second time below its root. */
  lemma DisagreeingRow(before: (Str, Str) -> bool, row: Row) returns (acts: seq<Action>)
    requires StrictTotalOrder(before) && !Agrees(row)
    ensures LegalRun(START, acts) && AnswersBy(before, Own, START, acts)
    ensures forall a | a in acts && a.Submit? :: a.row == row
    ensures !TreesOrdered(before, Exec(START, acts))
    ensures var trees := Exec(START, acts).server.trees;
            exists p :: p != [] && KEY in trees && [] in trees[KEY] && p in trees[KEY] &&
                        trees[KEY][p] == trees[KEY][[]]
  {
    hide LegalRun, Exec, AnswersBy, TreesOrdered, WrongRun, FirstOpe;
    WrongRunRows(before, row);
    acts := WrongSide(before, row, row);
    assert Exec(START, acts).server.trees[KEY][[before(Filed(row), Own(row))]] == Filed(row);
  }

  lemma AdmittedAgree(admitted: Row -> bool, acts: seq<Action>)
    requires (forall row | admitted(row) :: Agrees(row)) && RowsAmong(admitted, acts) && ShippedRun(acts)
    ensures TreesOrdered(Larger, Exec(START, acts))
  {
    hide LegalRun, Exec, AnswersBy, TreesOrdered, Agrees;
    AgreeingRunsKeepOrder(acts);
  }

  /** The exact condition: shipped clients keep the trees in order in every run of admitted rows if and
      only if in each of those rows the first and the last "_ope" field hold the same value. */
  lemma AgreementIsExact(admitted: Row -> bool)
    ensures (forall row | admitted(row) :: Agrees(row)) <==>
            (forall acts | ShippedRun(acts) && RowsAmong(admitted, acts) :: TreesOrdered(Larger, Exec(START, acts)))
  {
    hide TreesOrdered, Exec, Agrees, LegalRun, AnswersBy;
    if forall row | admitted(row) :: Agrees(row) {
      forall acts | ShippedRun(acts) && RowsAmong(admitted, acts)
        ensures TreesOrdered(Larger, Exec(START, acts))
      {
        AdmittedAgree(admitted, acts);
      }
    } else {
      var row :| admitted(row) && !Agrees(row);
      LargerIsStrictTotalOrder();
      var acts := DisagreeingRow(Larger, row);
      assert ShippedRun(acts) && RowsAmong(admitted, acts);
    }
  }

  /** "a_ope" and "b_ope" */
  const A_OPE: Str := [97, 95, 111, 112, 101]
  const B_OPE: Str := [98, 95, 111, 112, 101]

  /** The row {"a_ope": "a", "b_ope": "z"}. */
  const TWO_VALUES: Row := map[A_OPE := [97], B_OPE := [122]]

  lemma TwoValues()
    ensures Filed(TWO_VALUES) == [97] && Own(TWO_VALUES) == [122] && FirstOpe(TWO_VALUES).Some?
  {
    assert IsOpe(A_OPE) && IsOpe(B_OPE) && Less(A_OPE, B_OPE);
    OpeFieldsAre(TWO_VALUES, A_OPE, B_OPE);
  }

  /** Below the root "m" that row's value "a" goes left, where larger values belong. */
  lemma TwoValuesBreakOrder() returns (acts: seq<Action>)
    ensures ShippedRun(acts)
    ensures !TreesOrdered(Larger, Exec(START, acts))
    ensures Exec(START, acts).server.trees == map[KEY := map[[] := [109], [false] := [97]]]
    ensures acts == WrongRun(Larger, OpeRow([109]), TWO_VALUES)
  {
    hide TreesOrdered, Exec, LegalRun, AnswersBy, FirstOpe, LastOpe, WrongRun, OpeRow;
    TwoValues();
    OpeRowSingle([109]);
    LargerIsStrictTotalOrder();
    acts := WrongSide(Larger, OpeRow([109]), TWO_VALUES);
  }

  /** The one-byte strings of 65 ascending bytes. */
  function Ascending(n: nat): (values: seq<Str>)
    requires n <= 65
    ensures |values| == n && forall i | 0 <= i < n :: values[i] == [48 + i]
  {
    if n == 0 then [] else Ascending(n - 1) + [[48 + n - 1]]
  }

  /** 65 values in ascending order overrun the codes of the shipped client. */
  lemma ShippedLimit() returns (acts: seq<Action>, a: Action)
    ensures ShippedRun(acts)
    ensures var w := Exec(START, acts);
            a.Respond? && FreshId(w, a) && AnsweredBy(Larger, Own, w, a) && !Legal(w, a)
  {
    hide LegalRun, Exec, AnswersBy, Legal, Next, SingleOpe, FirstOpe, LastOpe;
    LargerIsStrictTotalOrder();
    acts, a := SixtyFiveValuesMayNotFit(Larger, Ascending(65));
    SingleRowsAgree(acts);
    SwitchView(Larger, Filed, Own, START, acts);
    RunKeepsSame(Filed, Own, START, acts);
  }

  lemma SingleRowsAgree(acts: seq<Action>)
    requires SingleRows(acts)
    ensures SameViews(Filed, Own, acts)
  {
    hide SingleOpe, FirstOpe, LastOpe;
    forall a | a in acts && a.Submit? ensures Filed(a.row) == Own(a.row) {
      SingleOpeIsBoth(a.row, OPE_SUFFIX);
    }
  }
}
