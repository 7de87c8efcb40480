/** What every interleaving of clients guarantees, from an empty server on: what holds whatever
    they answer, what the truthful ones get among liars, and what holds when all are truthful. */
module RunTheorems {
  import opened Strings
  import opened PathCode
  import opened SearchTree
  import opened Protocol
  import opened Runs
  import Decimal

  // ---- Whatever clients answer ----

  lemma StartInv()
    ensures Inv(START)
  {
  }

  lemma NextKeepsInv(w: World, a: Action)
    requires Inv(w) && Legal(w, a)
    ensures Inv(Next(w, a))
  {
    hide Inv;
    if a.Submit? {
      SubmitKeepsInv(w, a);
    } else {
      RespondKeepsInv(w, a);
    }
  }

  lemma {:induction false} RunKeepsInv(w: World, acts: seq<Action>)
    requires Inv(w) && LegalRun(w, acts)
    ensures Inv(Exec(w, acts))
    decreases |acts|
  {
    hide Inv, Legal, Next;
    if acts == [] {
    } else {
      NextKeepsInv(w, acts[0]);
      RunKeepsInv(Next(w, acts[0]), acts[1..]);
    }
  }

  /** In every reachable state, whatever clients have answered, no tree has a gap or is deeper than
      its codes allow, and every waiting client's traverse serves its request, stands on the node
      its answers lead to, and shows that node's ciphertext. */
  lemma ReachableStates(acts: seq<Action>)
    requires LegalRun(START, acts)
    ensures var w := Exec(START, acts);
            && (forall k | k in w.server.trees :: Rooted(w.server.trees[k]) && Shallow(w.server.trees[k]))
            && (forall id | id in w.waiting ::
                  Anchored(w.server, id) &&
                  SessionOk(w.server.trees, w.server.sessions[id].value, w.waiting[id]))
  {
    StartInv();
    RunKeepsInv(START, acts);
  }

  lemma RowFacts(w: World, i: nat)
    requires Inv(w) && i < |w.submitted|
    ensures |w.submitted| == |w.server.rows| == |w.places| == |w.logs|
    ensures RowOk(w.server.trees, w.submitted[i], w.server.rows[i], w.places[i], w.logs[i])
  {
  }

  lemma TreeFacts(w: World, key: Str)
    requires Inv(w) && key in w.server.trees
    ensures Rooted(w.server.trees[key]) && Shallow(w.server.trees[key])
  {
  }

  lemma PlacesFacts(w: World)
    requires Inv(w)
    ensures PlacesOk(w.server.trees, w.places)
    ensures |w.places| == |w.server.rows| == |w.submitted| == |w.logs|
  {
  }

  /** Each node has exactly one stored row with its code, and each stored "_ope" row one node. */
  lemma RowsAndNodesAgree(acts: seq<Action>)
    requires LegalRun(START, acts)
    ensures var w := Exec(START, acts);
            && |w.places| == |w.server.rows| == |w.submitted|
            && (forall i | 0 <= i < |w.places| :: w.places[i].Some? <==> FirstOpe(w.submitted[i].row).Some?)
            && (forall i | 0 <= i < |w.places| && w.places[i].Some? ::
                  var Place(key, path) := w.places[i].value;
                  && key == TableKey(w.submitted[i].database, w.submitted[i].table)
                  && key in w.server.trees && path in w.server.trees[key] && |path| <= MAX_DEPTH
                  && w.server.trees[key][path] == Filed(w.submitted[i].row)
                  && w.server.rows[i].row ==
                       w.submitted[i].row[CodeField(w.submitted[i].row, path) := Decimal.Print(Code(path))])
            && (forall k, p | k in w.server.trees && p in w.server.trees[k] :: Some(Place(k, p)) in w.places)
            && (forall i, j | 0 <= i < j < |w.places| && w.places[i].Some? :: w.places[i] != w.places[j])
  {
    hide Exec, LegalRun, Decimal.Print, Code, FirstOpe, LastOpe;
    var w := Exec(START, acts);
    StartInv();
    RunKeepsInv(START, acts);
    PlacesFacts(w);
    forall i | 0 <= i < |w.places|
      ensures RowOk(w.server.trees, w.submitted[i], w.server.rows[i], w.places[i], w.logs[i])
    {
      RowFacts(w, i);
    }
  }

  /** The one "_ope" field of a row. */
  ghost predicate SingleOpe(row: Row, field: Str) {
    field in row && IsOpe(field) && forall f | f in row && IsOpe(f) :: f == field
  }

  lemma SingleOpeIsBoth(row: Row, field: Str)
    requires SingleOpe(row, field)
    ensures FirstOpe(row) == Some(field) && LastOpe(row) == field
    ensures field in row && Filed(row) == Own(row) == row[field]
  {
    OpeFieldsMeaning(row);
  }

  /** A stored row with one "_ope" field: the cell of that field holds the code of a node, that
      node holds the submitted value, and the rest of the row is as submitted. */
  lemma StoredCell(w: World, i: nat, field: Str)
    requires Inv(w)
    requires i < |w.submitted| && SingleOpe(w.submitted[i].row, field)
    ensures |w.submitted| == |w.server.rows| == |w.places| && w.places[i].Some?
    ensures var Place(key, path) := w.places[i].value;
            && key == TableKey(w.submitted[i].database, w.submitted[i].table)
            && key in w.server.trees && path in w.server.trees[key] && |path| <= MAX_DEPTH
            && w.server.trees[key][path] == w.submitted[i].row[field]
            && field in w.server.rows[i].row
            && Decimal.Value(w.server.rows[i].row[field]) == Code(path)
            && w.server.rows[i].row - {field} == w.submitted[i].row - {field}
  {
    hide Inv, Decimal.Print, Decimal.Value, Code, FirstOpe, LastOpe, SingleOpe;
    RowFacts(w, i);
    SingleOpeIsBoth(w.submitted[i].row, field);
    Decimal.PrintValue(Code(w.places[i].value.path));
    CellUpdated(w.submitted[i].row, field, Decimal.Print(Code(w.places[i].value.path)));
  }

  lemma CellUpdated(row: Row, field: Str, cell: Str)
    ensures row[field := cell] - {field} == row - {field}
  {
  }

  /** The code replaces the ciphertext it was taken from exactly at a root or in a row with one
      "_ope" field; otherwise it goes to the last such field while the value came from the first. */
  lemma CodeReplacesValue(row: Row, path: Path)
    requires FirstOpe(row).Some?
    ensures CodeField(row, path) == FirstOpe(row).value <==>
            path == [] || forall f, g | f in row && g in row && IsOpe(f) && IsOpe(g) :: f == g
  {
    OpeFieldsAgree(row);
  }

  // ---- Acknowledgements ----

  /** The acknowledged inserts whose rows were not stored. */
  function Dropped(acks: seq<Ack>): (rows: seq<Stored>) {
    if acks == [] then []
    else
      var last := acks[|acks| - 1];
      Dropped(acks[..|acks| - 1]) + (if last.kept then [] else [last.submitted])
  }

  lemma {:induction false} KeptAndDropped(acks: seq<Ack>)
    ensures |Kept(acks)| + |Dropped(acks)| == |acks|
  {
    if acks == [] {
    } else {
      KeptAndDropped(acks[..|acks| - 1]);
    }
  }

  /** A stored row of a request: its database, table and fields, with nothing changed but "_ope" ones. */
  ghost predicate RowFor(request: Stored, stored: Stored) {
    && stored.database == request.database && stored.table == request.table
    && stored.row.Keys == request.row.Keys
    && forall f | f in request.row && !IsOpe(f) :: stored.row[f] == request.row[f]
  }

  lemma CodedRowFor(request: Stored, field: Str, cell: Str)
    requires field in request.row && IsOpe(field)
    ensures RowFor(request, request.(row := request.row[field := cell]))
  {
  }

  lemma RowOkFor(trees: Forest, submitted: Stored, stored: Stored, place: Option<Place>, log: seq<Asked>)
    requires RowOk(trees, submitted, stored, place, log)
    ensures RowFor(submitted, stored)
  {
    hide IsOpe, FirstOpe, LastOpe, Decimal.Print, Code, LogOk;
    OpeFieldsMeaning(submitted.row);
    if place.Some? {
      CodedRowFor(submitted, CodeField(submitted.row, place.value.path), Decimal.Print(Code(place.value.path)));
    }
  }

  /** The stored rows come from the acknowledged inserts marked as kept, one for one and in that
      order; an acknowledgement more than there are rows is one whose row was dropped. */
  lemma EveryRowIsAcknowledged(acts: seq<Action>)
    requires LegalRun(START, acts)
    ensures var w := Exec(START, acts);
            && |w.server.rows| == |Kept(w.acks)| == |w.acks| - |Dropped(w.acks)|
            && forall i | 0 <= i < |w.server.rows| :: RowFor(Kept(w.acks)[i], w.server.rows[i])
  {
    hide Exec, LegalRun, RowFor, RowOk, Kept, Dropped;
    var w := Exec(START, acts);
    StartInv();
    RunKeepsInv(START, acts);
    PlacesFacts(w);
    KeptAndDropped(w.acks);
    assert w.submitted == Kept(w.acks);
    forall i | 0 <= i < |w.server.rows| ensures RowFor(w.submitted[i], w.server.rows[i]) {
      RowFacts(w, i);
      RowOkFor(w.server.trees, w.submitted[i], w.server.rows[i], w.places[i], w.logs[i]);
    }
  }

  // ---- Truthful answers ----

  /** The honest three-way comparison: -1 when the value goes before what is shown. */
  function Answer(before: (Str, Str) -> bool, value: Str, shown: Str): int {
    if before(value, shown) then -1 else if before(shown, value) then 1 else 0
  }

  /** Every answer was the comparison of one and the same value with what was shown. */
  ghost predicate Truthful(before: (Str, Str) -> bool, value: Str, log: seq<Asked>) {
    forall n | 0 <= n < |log| :: log[n].answer == Answer(before, value, log[n].shown)
  }

  /** The answers on a path are truthful about a value exactly when the value is on the right side
      of every node above. */
  lemma TruthIsSide(before: (Str, Str) -> bool, t: Tree, p: Path, log: seq<Asked>, v: Str)
    requires StrictTotalOrder(before) && LogOk(t, p, log)
    ensures Truthful(before, v, log) <==> OnSide(before, t, p, v)
  {
    if Truthful(before, v, log) {
      forall n | 0 <= n < |p|
        ensures p[..n] in t && (if p[n] then before(t[p[..n]], v) else before(v, t[p[..n]]))
      {
        assert log[n] == Asked(t[p[..n]], if p[n] then 1 else -1);
      }
    }
    if OnSide(before, t, p, v) {
      forall n | 0 <= n < |log| ensures log[n].answer == Answer(before, v, log[n].shown) {
        assert log[n] == Asked(t[p[..n]], if p[n] then 1 else -1);
      }
    }
  }

  /** The answer compares the value a client takes from its row with what it is shown. */
  ghost predicate AnsweredBy(before: (Str, Str) -> bool, view: Row -> Str, w: World, a: Action) {
    a.Respond? && a.id in w.waiting ==>
      a.answer == Answer(before, view(w.waiting[a.id].submitted.row), w.waiting[a.id].shown)
  }

  /** A run in which every client answers that way. */
  ghost predicate AnswersBy(before: (Str, Str) -> bool, view: Row -> Str, w: World, acts: seq<Action>)
    requires LegalRun(w, acts)
    decreases |acts|
  {
    acts != [] ==>
      AnsweredBy(before, view, w, acts[0]) && AnswersBy(before, view, Next(w, acts[0]), acts[1..])
  }

  /** Everyone waiting and everyone whose row is stored has answered that way. */
  ghost predicate AllTruthful(before: (Str, Str) -> bool, view: Row -> Str, w: World) {
    && (forall id | id in w.waiting :: Truthful(before, view(w.waiting[id].submitted.row), w.waiting[id].log))
    && |w.logs| == |w.submitted|
    && (forall i | 0 <= i < |w.logs| :: Truthful(before, view(w.submitted[i].row), w.logs[i]))
  }

  lemma NextKeepsTruth(before: (Str, Str) -> bool, view: Row -> Str, w: World, a: Action)
    requires AllTruthful(before, view, w) && Legal(w, a) && AnsweredBy(before, view, w, a)
    ensures AllTruthful(before, view, Next(w, a))
  {
    hide AddStep, ContinueStep, Answer, FirstOpe;
  }

  lemma {:induction false} RunKeepsTruth(before: (Str, Str) -> bool, view: Row -> Str, w: World, acts: seq<Action>)
    requires AllTruthful(before, view, w) && LegalRun(w, acts) && AnswersBy(before, view, w, acts)
    ensures AllTruthful(before, view, Exec(w, acts))
    decreases |acts|
  {
    hide AllTruthful, Legal, Next, AnsweredBy;
    if acts == [] {
    } else {
      NextKeepsTruth(before, view, w, acts[0]);
      RunKeepsTruth(before, view, Next(w, acts[0]), acts[1..]);
    }
  }

  /** A node made by a client whose answers were truthful is on the right side of all above it. */
  lemma TruthfulNode(before: (Str, Str) -> bool, w: World, i: nat)
    requires StrictTotalOrder(before) && Inv(w) && i < |w.submitted|
    requires FirstOpe(w.submitted[i].row).Some?
    ensures |w.submitted| == |w.places| == |w.logs| && w.places[i].Some?
    ensures var Place(key, path) := w.places[i].value;
            && key in w.server.trees && path in w.server.trees[key]
            && (Truthful(before, Filed(w.submitted[i].row), w.logs[i]) <==>
                OnSide(before, w.server.trees[key], path, w.server.trees[key][path]))
  {
    hide Inv, StrictTotalOrder, Truthful, OnSide, FirstOpe, LastOpe;
    RowFacts(w, i);
    var Place(key, path) := w.places[i].value;
    TruthIsSide(before, w.server.trees[key], path, w.logs[i], Filed(w.submitted[i].row));
  }

  /** The stored codes of two rows of one table whose own clients answered truthfully, read as
      numbers, are ordered exactly as the values, whatever every other waiting client answers. */
  lemma StoredCodesFollowOrder(
    before: (Str, Str) -> bool, acts: seq<Action>, i: nat, j: nat, fi: Str, fj: Str)
    requires StrictTotalOrder(before)
    requires LegalRun(START, acts)
    requires var w := Exec(START, acts);
             && i < |w.submitted| && j < |w.submitted| && |w.logs| == |w.submitted|
             && SingleOpe(w.submitted[i].row, fi) && SingleOpe(w.submitted[j].row, fj)
             && w.submitted[i].database == w.submitted[j].database
             && w.submitted[i].table == w.submitted[j].table
             && Truthful(before, w.submitted[i].row[fi], w.logs[i])
             && Truthful(before, w.submitted[j].row[fj], w.logs[j])
    ensures var w := Exec(START, acts);
            && |w.server.rows| == |w.submitted|
            && fi in w.server.rows[i].row && fj in w.server.rows[j].row
            && (Decimal.Value(w.server.rows[i].row[fi]) < Decimal.Value(w.server.rows[j].row[fj]) <==>
                before(w.submitted[i].row[fi], w.submitted[j].row[fj]))
  {
    hide Inv, Decimal.Value, Code, LegalRun, Exec, StrictTotalOrder, Truthful, OnSide, SingleOpe, Rooted, Shallow;
    var w := Exec(START, acts);
    StartInv();
    RunKeepsInv(START, acts);
    SingleOpeIsBoth(w.submitted[i].row, fi);
    SingleOpeIsBoth(w.submitted[j].row, fj);
    StoredCell(w, i, fi);
    StoredCell(w, j, fj);
    TruthfulNode(before, w, i);
    TruthfulNode(before, w, j);
    var key := w.places[i].value.key;
    TreeFacts(w, key);
    CodeOrderIsValueOrder(before, w.server.trees[key], w.places[i].value.path, w.places[j].value.path);
  }

  // ---- When every client answers truthfully about the value it has filed ----

  lemma NodeHasRow(w: World, key: Str, p: Path) returns (i: nat)
    requires Inv(w) && key in w.server.trees && p in w.server.trees[key]
    ensures i < |w.submitted| == |w.places| && w.places[i] == Some(Place(key, p))
    ensures FirstOpe(w.submitted[i].row).Some?
  {
    PlacesFacts(w);
    assert Some(Place(key, p)) in w.places;
    i :| 0 <= i < |w.places| && w.places[i] == Some(Place(key, p));
    RowFacts(w, i);
  }

  lemma TruthOrders(before: (Str, Str) -> bool, w: World, key: Str)
    requires StrictTotalOrder(before) && Inv(w) && AllTruthful(before, Filed, w)
    requires key in w.server.trees
    ensures IsSearchTree(before, w.server.trees[key])
  {
    hide Inv, StrictTotalOrder, OnSide, Truthful, Rooted, Shallow, FirstOpe;
    TreeFacts(w, key);
    forall p | p in w.server.trees[key]
      ensures OnSide(before, w.server.trees[key], p, w.server.trees[key][p])
    {
      var i := NodeHasRow(w, key, p);
      TruthfulNode(before, w, i);
    }
  }

  lemma TruthOnSide(before: (Str, Str) -> bool, w: World, id: nat)
    requires StrictTotalOrder(before) && Inv(w) && AllTruthful(before, Filed, w)
    requires id in w.waiting
    ensures Anchored(w.server, id)
    ensures var s := SessionOf(w, id);
            OnSide(before, w.server.trees[s.key], s.at, s.value)
  {
    hide Inv, StrictTotalOrder, OnSide, Truthful, Rooted, Shallow, FirstOpe, LogOk;
    WaitingFacts(w, id);
    var s := SessionOf(w, id);
    TruthIsSide(before, w.server.trees[s.key], s.at, w.waiting[id].log, s.value);
  }

  /** In every run of truthful clients every tree is a search tree for their order, and every
      waiting client's value is on the right side of every node its traverse has passed. */
  lemma TruthfulRunsKeepOrder(before: (Str, Str) -> bool, acts: seq<Action>)
    requires StrictTotalOrder(before)
    requires LegalRun(START, acts) && AnswersBy(before, Filed, START, acts)
    ensures var w := Exec(START, acts);
            && (forall k | k in w.server.trees :: IsSearchTree(before, w.server.trees[k]))
            && (forall id | id in w.waiting ::
                  Anchored(w.server, id) &&
                  var s := SessionOf(w, id);
                  OnSide(before, w.server.trees[s.key], s.at, Filed(w.waiting[id].submitted.row)))
  {
    hide Inv, StrictTotalOrder, AllTruthful, LegalRun, Exec, AnswersBy, IsSearchTree, OnSide;
    TruthAfter(before, acts);
    var w := Exec(START, acts);
    forall k | k in w.server.trees ensures IsSearchTree(before, w.server.trees[k]) {
      TruthOrders(before, w, k);
    }
    forall id | id in w.waiting
      ensures Anchored(w.server, id) &&
              var s := SessionOf(w, id);
              OnSide(before, w.server.trees[s.key], s.at, Filed(w.waiting[id].submitted.row))
    {
      TruthOnSide(before, w, id);
      WaitingFacts(w, id);
    }
  }

  lemma TruthAfter(before: (Str, Str) -> bool, acts: seq<Action>)
    requires LegalRun(START, acts) && AnswersBy(before, Filed, START, acts)
    ensures Inv(Exec(START, acts)) && AllTruthful(before, Filed, Exec(START, acts))
  {
    StartInv();
    RunKeepsInv(START, acts);
    RunKeepsTruth(before, Filed, START, acts);
  }

  /** The value is in the table's tree. */
  ghost predicate Holds(trees: Forest, key: Str, v: Str) {
    key in trees && v in trees[key].Values
  }

  /** An acknowledged insert of a value into a tree. */
  predicate IsAckOf(ack: Ack, key: Str, v: Str) {
    && FirstOpe(ack.submitted.row).Some?
    && TableKey(ack.submitted.database, ack.submitted.table) == key
    && Filed(ack.submitted.row) == v
  }

  ghost predicate Acked(acks: seq<Ack>, key: Str, v: Str) {
    exists i :: 0 <= i < |acks| && IsAckOf(acks[i], key, v)
  }

  /** An insert is stored unless its value was acknowledged for its tree before. */
  ghost predicate FirstKept(acks: seq<Ack>) {
    forall i | 0 <= i < |acks| ::
      acks[i].kept <==>
        (FirstOpe(acks[i].submitted.row).Some? ==>
           !Acked(acks[..i], TableKey(acks[i].submitted.database, acks[i].submitted.table),
                  Filed(acks[i].submitted.row)))
  }

  /** What has been acknowledged is what is in the trees. */
  ghost predicate AcksMatch(trees: Forest, acks: seq<Ack>) {
    forall k, v :: Holds(trees, k, v) <==> Acked(acks, k, v)
  }

  lemma AckedSnoc(acks: seq<Ack>, ack: Ack, k: Str, v: Str)
    ensures Acked(acks + [ack], k, v) <==> Acked(acks, k, v) || IsAckOf(ack, k, v)
  {
    hide IsAckOf;
    if i :| 0 <= i < |acks| && IsAckOf(acks[i], k, v) {
      assert (acks + [ack])[i] == acks[i];
    }
    assert (acks + [ack])[|acks|] == ack;
  }

  lemma FirstKeptSnoc(trees: Forest, acks: seq<Ack>, ack: Ack)
    requires FirstKept(acks) && AcksMatch(trees, acks)
    requires ack.kept <==>
             (FirstOpe(ack.submitted.row).Some? ==>
                !Holds(trees, TableKey(ack.submitted.database, ack.submitted.table), Filed(ack.submitted.row)))
    ensures FirstKept(acks + [ack])
  {
    hide Holds, Acked, FirstOpe;
    var acks' := acks + [ack];
    forall i | 0 <= i < |acks| ensures acks'[i] == acks[i] && acks'[..i] == acks[..i] {}
    assert acks'[..|acks|] == acks;
  }

  /** The request whose insert an action serves. */
  function RequestOf(w: World, a: Action): Stored
    requires FreshId(w, a)
  {
    match a
    case Submit(_, database, table, row) => Stored(database, table, row)
    case Respond(_, id, _) => w.waiting[id].submitted
  }

  /** Its tree does not hold its value; a row without an "_ope" field has none. */
  ghost predicate IsNew(trees: Forest, r: Stored) {
    FirstOpe(r.row).Some? ==> !Holds(trees, TableKey(r.database, r.table), Filed(r.row))
  }

  /** The action ends the insert: it is acknowledged, its row is appended to the table or not, and
      its value is in its tree afterwards. */
  ghost predicate Ends(w: World, a: Action, kept: bool)
    requires Legal(w, a)
  {
    var w', r := Next(w, a), RequestOf(w, a);
    && a.id !in w'.waiting
    && w'.acks == w.acks + [Ack(r, kept)]
    && (if kept then |w'.server.rows| == |w.server.rows| + 1 && w.server.rows <= w'.server.rows &&
                     RowFor(r, w'.server.rows[|w.server.rows|])
        else w'.server.rows == w.server.rows)
    && (forall k, v :: Holds(w'.server.trees, k, v) <==> Holds(w.server.trees, k, v) || IsAckOf(Ack(r, kept), k, v))
  }

  /** The insert goes on: nothing is acknowledged, stored or put into a tree. */
  ghost predicate GoesOn(w: World, a: Action)
    requires Legal(w, a)
  {
    var w' := Next(w, a);
    a.id in w'.waiting && w'.acks == w.acks && w'.server.rows == w.server.rows && w'.server.trees == w.server.trees
  }

  /** An action either leaves the insert going on or ends it, storing the row exactly when the value
      is new. */
  ghost predicate StoredIfNew(w: World, a: Action)
    requires Legal(w, a)
  {
    if a.id in Next(w, a).waiting then GoesOn(w, a) else Ends(w, a, IsNew(w.server.trees, RequestOf(w, a)))
  }

  /** One tree replaced or added. */
  lemma HoldsAt(trees: Forest, trees': Forest, key: Str, t: Tree, k: Str, v: Str)
    requires trees' == trees[key := t]
    ensures Holds(trees', k, v) <==> if k == key then v in t.Values else Holds(trees, k, v)
  {
  }

  lemma ValuesAfter(t: Tree, at: Path, x: Str, v: Str)
    requires at !in t
    ensures v in t[at := x].Values <==> v in t.Values || v == x
  {
    var t' := t[at := x];
    assert t'[at] == x;
    if v in t.Values {
      var p :| p in t && t[p] == v;
      assert t'[p] == v;
    }
  }

  lemma NodeHolds(trees: Forest, trees': Forest, key: Str, at: Path, x: Str, k: Str, v: Str)
    requires if key in trees then at !in trees[key] && trees' == trees[key := trees[key][at := x]]
             else trees' == trees[key := map[at := x]]
    ensures Holds(trees', k, v) <==> Holds(trees, k, v) || (k == key && v == x)
  {
    var t: Tree := if key in trees then trees[key] else map[];
    HoldsAt(trees, trees', key, t[at := x], k, v);
    ValuesAfter(t, at, x, v);
  }

  lemma PlainEnds(w: World, a: Action)
    requires Legal(w, a) && a.Submit? && FirstOpe(a.row).None?
    ensures Ends(w, a, true)
  {
    hide Holds, LastOpe;
  }

  lemma RootEnds(w: World, a: Action)
    requires Legal(w, a) && a.Submit? && FirstOpe(a.row).Some?
    requires TableKey(a.database, a.table) !in w.server.trees
    ensures Ends(w, a, true) && IsNew(w.server.trees, RequestOf(w, a))
  {
    hide FirstOpe, LastOpe, Decimal.Print, Filed, Holds, RowFor, IsOpe;
    var key, w', r := TableKey(a.database, a.table), Next(w, a), RequestOf(w, a);
    OpeFieldsMeaning(a.row);
    CodedRowFor(r, FirstOpe(a.row).value, Decimal.Print(ROOT_CODE));
    NotThere(w.server.trees, key, Filed(a.row));
    forall k, v
      ensures Holds(w'.server.trees, k, v) <==> Holds(w.server.trees, k, v) || IsAckOf(Ack(r, true), k, v)
    {
      NodeHolds(w.server.trees, w'.server.trees, key, [], Filed(a.row), k, v);
    }
  }

  lemma NotThere(trees: Forest, key: Str, v: Str)
    requires key !in trees
    ensures !Holds(trees, key, v)
  {
  }

  lemma OpenGoesOn(w: World, a: Action)
    requires Legal(w, a) && a.Submit? && FirstOpe(a.row).Some?
    requires TableKey(a.database, a.table) in w.server.trees
    ensures GoesOn(w, a)
  {
    hide FirstOpe, LastOpe;
  }

  lemma SubmitEnds(w: World, a: Action)
    requires Legal(w, a) && a.Submit?
    ensures StoredIfNew(w, a)
  {
    hide FirstOpe, LastOpe, Decimal.Print, Ends, GoesOn, Holds;
    if FirstOpe(a.row).None? {
      PlainEnds(w, a);
      EndsNotWaiting(w, a, true);
    } else if TableKey(a.database, a.table) !in w.server.trees {
      RootEnds(w, a);
      EndsNotWaiting(w, a, true);
    } else {
      OpenGoesOn(w, a);
      GoesOnWaiting(w, a);
    }
  }

  lemma EndsNotWaiting(w: World, a: Action, kept: bool)
    requires Legal(w, a) && Ends(w, a, kept)
    ensures a.id !in Next(w, a).waiting
  {
    hide Next, Holds, RowFor;
  }

  lemma GoesOnWaiting(w: World, a: Action)
    requires Legal(w, a) && GoesOn(w, a)
    ensures a.id in Next(w, a).waiting
  {
    hide Next;
  }

  /** The value of a truthful client that is about to create a node is not in the tree. */
  lemma NewValueIsNew(before: (Str, Str) -> bool, w: World, a: Action)
    requires StrictTotalOrder(before) && Inv(w) && AllTruthful(before, Filed, w)
    requires a.Respond? && Legal(w, a) && AnsweredBy(before, Filed, w, a) && IsEdge(a.answer)
    requires Anchored(w.server, a.id) && !Descends(w, a)
    ensures SessionOf(w, a.id).value !in w.server.trees[SessionOf(w, a.id).key].Values
  {
    hide Inv, StrictTotalOrder, AllTruthful, OnSide, Truthful, FirstOpe, Rooted, Ordered, LogOk;
    WaitingFacts(w, a.id);
    TruthOnSide(before, w, a.id);
    var s := SessionOf(w, a.id);
    var t, at := w.server.trees[s.key], s.at + [a.answer == 1];
    TruthOrders(before, w, s.key);
    StepKeepsSide(before, t, s.at, a.answer == 1, s.value);
    assert at[..|at| - 1] == s.at;
    InsertKeepsOrder(before, t, at, s.value);
    if s.value in t.Values {
      var p :| p in t && t[p] == s.value;
      PositionOrderIsValueOrder(before, t[at := s.value], p, at);
    }
  }

  lemma EqualIsThere(before: (Str, Str) -> bool, w: World, a: Action)
    requires StrictTotalOrder(before) && Inv(w)
    requires a.Respond? && Legal(w, a) && AnsweredBy(before, Filed, w, a) && !IsEdge(a.answer)
    ensures Anchored(w.server, a.id)
    ensures SessionOf(w, a.id).value in w.server.trees[SessionOf(w, a.id).key].Values
  {
    hide Inv, LogOk, FirstOpe;
    WaitingFacts(w, a.id);
  }

  lemma EqualEnds(before: (Str, Str) -> bool, w: World, a: Action)
    requires StrictTotalOrder(before) && Inv(w)
    requires a.Respond? && Legal(w, a) && AnsweredBy(before, Filed, w, a) && !IsEdge(a.answer)
    ensures Ends(w, a, false) && !IsNew(w.server.trees, RequestOf(w, a))
  {
    hide Inv, StrictTotalOrder, FirstOpe, LastOpe, LogOk, AnsweredBy, Holds;
    EqualIsThere(before, w, a);
    WaitingFacts(w, a.id);
    HoldsHere(w.server.trees, SessionOf(w, a.id).key, SessionOf(w, a.id).value);
    forall k, v
      ensures IsAckOf(Ack(RequestOf(w, a), false), k, v) ==> Holds(w.server.trees, k, v)
    {
    }
  }

  lemma CreateEnds(before: (Str, Str) -> bool, w: World, a: Action)
    requires StrictTotalOrder(before) && Inv(w) && AllTruthful(before, Filed, w)
    requires a.Respond? && Legal(w, a) && AnsweredBy(before, Filed, w, a) && IsEdge(a.answer)
    requires Anchored(w.server, a.id) && !Descends(w, a)
    ensures Ends(w, a, true) && IsNew(w.server.trees, RequestOf(w, a))
  {
    hide Inv, StrictTotalOrder, AllTruthful, FirstOpe, LastOpe, LogOk, AnsweredBy, Holds, RowFor, Filed, IsOpe;
    hide Next, ContinueStep, Seal, PushBit, Decimal.Print;
    NewValueIsNew(before, w, a);
    WaitingFacts(w, a.id);
    CreateStep(w, a);
    var s, r, w' := SessionOf(w, a.id), RequestOf(w, a), Next(w, a);
    HoldsHere(w.server.trees, s.key, s.value);
    OpeFieldsMeaning(s.row);
    CodedRowFor(r, LastOpe(s.row), Decimal.Print(Seal(PushBit(s.code, a.answer == 1), s.length + 1)));
    forall k, v
      ensures Holds(w'.server.trees, k, v) <==> Holds(w.server.trees, k, v) || IsAckOf(Ack(r, true), k, v)
    {
      NodeHolds(w.server.trees, w'.server.trees, s.key, Target(w, a), s.value, k, v);
    }
  }

  lemma DescendGoesOn(w: World, a: Action)
    requires a.Respond? && Legal(w, a) && IsEdge(a.answer)
    requires Anchored(w.server, a.id) && Descends(w, a)
    ensures GoesOn(w, a)
  {
    hide FirstOpe, LastOpe;
  }

  lemma RespondEnds(before: (Str, Str) -> bool, w: World, a: Action)
    requires StrictTotalOrder(before) && Inv(w) && AllTruthful(before, Filed, w)
    requires a.Respond? && Legal(w, a) && AnsweredBy(before, Filed, w, a)
    ensures StoredIfNew(w, a)
  {
    hide Inv, StrictTotalOrder, AllTruthful, AnsweredBy, Ends, GoesOn;
    hide IsNew, Next, Descends, SessionOk, Rooted, Shallow;
    WaitingFacts(w, a.id);
    if !IsEdge(a.answer) {
      EqualEnds(before, w, a);
      EndsNotWaiting(w, a, false);
    } else if Descends(w, a) {
      DescendGoesOn(w, a);
      GoesOnWaiting(w, a);
    } else {
      CreateEnds(before, w, a);
      EndsNotWaiting(w, a, true);
    }
  }

  lemma HoldsHere(trees: Forest, key: Str, v: Str)
    requires key in trees
    ensures Holds(trees, key, v) <==> v in trees[key].Values
  {
  }

  lemma NextKeepsAcks(before: (Str, Str) -> bool, w: World, a: Action)
    requires StrictTotalOrder(before) && Inv(w) && AllTruthful(before, Filed, w)
    requires FirstKept(w.acks) && AcksMatch(w.server.trees, w.acks)
    requires Legal(w, a) && AnsweredBy(before, Filed, w, a)
    ensures FirstKept(Next(w, a).acks) && AcksMatch(Next(w, a).server.trees, Next(w, a).acks)
  {
    hide StrictTotalOrder, Inv, AllTruthful, AnsweredBy, Next, Acked, Holds, IsAckOf, FirstOpe, FirstKept, RowFor;
    if a.Submit? {
      SubmitEnds(w, a);
    } else {
      RespondEnds(before, w, a);
    }
    var w' := Next(w, a);
    if a.id !in w'.waiting {
      var ack := Ack(RequestOf(w, a), IsNew(w.server.trees, RequestOf(w, a)));
      FirstKeptSnoc(w.server.trees, w.acks, ack);
      forall k, v ensures Holds(w'.server.trees, k, v) <==> Acked(w'.acks, k, v) {
        AckedSnoc(w.acks, ack, k, v);
      }
    }
  }

  lemma {:induction false} RunKeepsAcks(before: (Str, Str) -> bool, w: World, acts: seq<Action>)
    requires StrictTotalOrder(before) && Inv(w) && AllTruthful(before, Filed, w)
    requires FirstKept(w.acks) && AcksMatch(w.server.trees, w.acks)
    requires LegalRun(w, acts) && AnswersBy(before, Filed, w, acts)
    ensures FirstKept(Exec(w, acts).acks) && AcksMatch(Exec(w, acts).server.trees, Exec(w, acts).acks)
    decreases |acts|
  {
    hide StrictTotalOrder, Inv, AllTruthful, AnsweredBy, Legal, Next, FirstKept, AcksMatch;
    if acts == [] {
    } else {
      NextKeepsInv(w, acts[0]);
      NextKeepsTruth(before, Filed, w, acts[0]);
      NextKeepsAcks(before, w, acts[0]);
      RunKeepsAcks(before, Next(w, acts[0]), acts[1..]);
    }
  }

  /** With truthful clients, of the inserts acknowledged for one value of one tree the first one's
      row is stored and the rows of all others are dropped; a value is in a tree exactly when it
      was acknowledged for it, and only once, even when several clients insert it together. */
  lemma FirstInsertIsStored(before: (Str, Str) -> bool, acts: seq<Action>)
    requires StrictTotalOrder(before)
    requires LegalRun(START, acts) && AnswersBy(before, Filed, START, acts)
    ensures var w := Exec(START, acts);
            && FirstKept(w.acks)
            && (forall k, v :: Holds(w.server.trees, k, v) <==> Acked(w.acks, k, v))
            && (forall k | k in w.server.trees ::
                  forall p, q | p in w.server.trees[k] && q in w.server.trees[k] && p != q ::
                    w.server.trees[k][p] != w.server.trees[k][q])
  {
    hide Inv, StrictTotalOrder, AllTruthful, LegalRun, Exec, AnswersBy, IsSearchTree, FirstKept, Holds, Acked;
    StartInv();
    StartAcks();
    assert AllTruthful(before, Filed, START) by { StartTruth(before); }
    RunKeepsAcks(before, START, acts);
    TruthAfter(before, acts);
    var w := Exec(START, acts);
    forall k | k in w.server.trees
      ensures forall p, q | p in w.server.trees[k] && q in w.server.trees[k] && p != q ::
                w.server.trees[k][p] != w.server.trees[k][q]
    {
      TruthOrders(before, w, k);
      DistinctValues(before, w.server.trees[k]);
    }
  }

  lemma StartTruth(before: (Str, Str) -> bool)
    ensures AllTruthful(before, Filed, START)
  {
  }

  lemma StartAcks()
    ensures FirstKept(START.acks) && AcksMatch(START.server.trees, START.acks)
  {
  }

  lemma DistinctValues(before: (Str, Str) -> bool, t: Tree)
    requires StrictTotalOrder(before) && IsSearchTree(before, t)
    ensures forall p, q | p in t && q in t && p != q :: t[p] != t[q]
  {
    hide StrictTotalOrder, Rooted, Ordered;
    forall p, q | p in t && q in t && p != q ensures t[p] != t[q] {
      PositionOrderIsValueOrder(before, t, p, q);
    }
  }

  /** What an action of a truthful client does to its own insert: either it goes on, or its request is
      acknowledged, and one row, that of the request, is appended to the table exactly when the
      request's tree did not hold its value at that moment. */
  lemma StoredExactlyWhenNew(before: (Str, Str) -> bool, acts: seq<Action>, a: Action)
    requires StrictTotalOrder(before)
    requires LegalRun(START, acts) && AnswersBy(before, Filed, START, acts)
    requires Legal(Exec(START, acts), a) && AnsweredBy(before, Filed, Exec(START, acts), a)
    ensures var w := Exec(START, acts);
            if a.id in Next(w, a).waiting then GoesOn(w, a) else Ends(w, a, IsNew(w.server.trees, RequestOf(w, a)))
  {
    hide Inv, StrictTotalOrder, AllTruthful, LegalRun, Exec, AnswersBy, AnsweredBy, Legal, Next, Ends, GoesOn, IsNew;
    TruthAfter(before, acts);
    if a.Submit? {
      SubmitEnds(Exec(START, acts), a);
    } else {
      RespondEnds(before, Exec(START, acts), a);
    }
  }

  /** A row can be lost for good: whatever two rows are inserted one after the other into one table
      with the same value, the second is acknowledged and is not stored. */
  lemma DuplicateRowIsDropped(before: (Str, Str) -> bool, database: Str, table: Str, row: Row, row': Row)
    returns (acts: seq<Action>)
    requires StrictTotalOrder(before)
    requires FirstOpe(row).Some? && FirstOpe(row').Some? && Filed(row) == Filed(row')
    ensures LegalRun(START, acts) && AnswersBy(before, Filed, START, acts)
    ensures var w := Exec(START, acts);
            && w.acks == [Ack(Stored(database, table, row), true), Ack(Stored(database, table, row'), false)]
            && w.waiting == map[] && |w.server.rows| == 1
  {
    hide FirstOpe, LastOpe, Decimal.Print, Filed, Next, Legal;
    acts := [Submit(0, database, table, row), Submit(1, database, table, row'), Respond(1, 1, 0)];
    DuplicateSteps(before, database, table, row, row');
    RunOfThree(before, Filed, START, acts);
  }

  lemma RunOfThree(before: (Str, Str) -> bool, view: Row -> Str, w: World, acts: seq<Action>)
    requires |acts| == 3
    requires Legal(w, acts[0]) && AnsweredBy(before, view, w, acts[0])
    requires var w1 := Next(w, acts[0]);
             && Legal(w1, acts[1]) && AnsweredBy(before, view, w1, acts[1])
             && var w2 := Next(w1, acts[1]);
                Legal(w2, acts[2]) && AnsweredBy(before, view, w2, acts[2])
    ensures LegalRun(w, acts) && AnswersBy(before, view, w, acts)
    ensures Exec(w, acts) == Next(Next(Next(w, acts[0]), acts[1]), acts[2])
  {
    hide Next, Legal, AnsweredBy;
    var w1 := Next(w, acts[0]);
    var w2 := Next(w1, acts[1]);
    var w3 := Next(w2, acts[2]);
    assert acts[1..][1..] == acts[2..] && acts[2..][1..] == [];
    assert LegalRun(w3, []) && Exec(w3, []) == w3;
    assert LegalRun(w2, acts[2..]) && Exec(w2, acts[2..]) == w3;
    assert LegalRun(w1, acts[1..]) && Exec(w1, acts[1..]) == w3;
    assert AnswersBy(before, view, w2, acts[2..]);
    assert AnswersBy(before, view, w1, acts[1..]);
  }

  lemma FirstStep(a: Action)
    requires a.Submit? && FirstOpe(a.row).Some?
    ensures Legal(START, a)
    ensures var w1, key, submitted := Next(START, a), TableKey(a.database, a.table), Stored(a.database, a.table, a.row);
            && w1.server.trees == map[key := map[[] := Filed(a.row)]] && |w1.server.rows| == 1
            && w1.waiting == map[] && w1.acks == [Ack(submitted, true)]
  {
    hide FirstOpe, LastOpe, Decimal.Print;
  }

  lemma OpenStep(w: World, a: Action, v: Str)
    requires a.Submit? && FirstOpe(a.row).Some? && a.id !in w.waiting
    requires w.server.trees == map[TableKey(a.database, a.table) := map[[] := v]]
    ensures Legal(w, a)
    ensures var w1, submitted := Next(w, a), Stored(a.database, a.table, a.row);
            && w1.server.trees == w.server.trees && w1.server.rows == w.server.rows && w1.acks == w.acks
            && w1.waiting == w.waiting[a.id := Waiting(submitted, v, [])]
  {
    hide FirstOpe, LastOpe, Decimal.Print;
  }

  lemma EqualStep(w: World, id: nat)
    requires id in w.waiting
    ensures var a := Respond(id, id, 0);
            && Legal(w, a)
            && Next(w, a).server.rows == w.server.rows
            && Next(w, a).waiting == w.waiting - {id}
            && Next(w, a).acks == w.acks + [Ack(w.waiting[id].submitted, false)]
  {
    hide FirstOpe;
  }

  lemma DuplicateSteps(before: (Str, Str) -> bool, database: Str, table: Str, row: Row, row': Row)
    requires StrictTotalOrder(before)
    requires FirstOpe(row).Some? && FirstOpe(row').Some? && Filed(row) == Filed(row')
    ensures var a0, a1, a2 := Submit(0, database, table, row), Submit(1, database, table, row'), Respond(1, 1, 0);
            && Legal(START, a0) && AnsweredBy(before, Filed, START, a0)
            && var w1 := Next(START, a0);
            && Legal(w1, a1) && AnsweredBy(before, Filed, w1, a1)
            && var w2 := Next(w1, a1);
            && Legal(w2, a2) && AnsweredBy(before, Filed, w2, a2)
            && var w3 := Next(w2, a2);
            && w3.acks == [Ack(Stored(database, table, row), true), Ack(Stored(database, table, row'), false)]
            && w3.waiting == map[] && |w3.server.rows| == 1
  {
    hide FirstOpe, LastOpe, Decimal.Print, Filed, Legal, Next;
    var a0, a1, a2 := Submit(0, database, table, row), Submit(1, database, table, row'), Respond(1, 1, 0);
    FirstStep(a0);
    OpenStep(Next(START, a0), a1, Filed(row));
    EqualStep(Next(Next(START, a0), a1), 1);
  }

  // ---- History ----

  /** Every node, its ciphertext and every stored row are still there later. */
  ghost predicate Extends(w: World, w': World) {
    && w.server.rows <= w'.server.rows
    && w.submitted <= w'.submitted
    && w.places <= w'.places
    && w.acks <= w'.acks
    && (forall k | k in w.server.trees :: k in w'.server.trees && Same(w.server.trees[k], w'.server.trees[k]))
  }

  lemma SubmitExtends(w: World, a: Action)
    requires Legal(w, a) && a.Submit?
    ensures Extends(w, Next(w, a))
  {
    hide FirstOpe, LastOpe, Decimal.Print, Code;
    OpeFieldsMeaning(a.row);
  }

  lemma RespondExtends(w: World, a: Action)
    requires Legal(w, a) && a.Respond?
    ensures Extends(w, Next(w, a))
  {
    hide FirstOpe, LastOpe, Decimal.Print, Code;
  }

  lemma ExtendsTransitive(w: World, w': World, w'': World)
    requires Extends(w, w') && Extends(w', w'')
    ensures Extends(w, w'')
  {
    forall k | k in w.server.trees
      ensures k in w''.server.trees && Same(w.server.trees[k], w''.server.trees[k])
    {
      assert k in w'.server.trees;
    }
  }

  /** No later request, of any client, changes the code or the ciphertext of an existing node. */
  lemma {:induction false} CodesNeverChange(w: World, acts: seq<Action>)
    requires LegalRun(w, acts)
    ensures Extends(w, Exec(w, acts))
    decreases |acts|
  {
    hide Extends, Legal, Next;
    if acts == [] {
      ExtendsSelf(w);
    } else {
      var w' := Next(w, acts[0]);
      if acts[0].Submit? {
        SubmitExtends(w, acts[0]);
      } else {
        RespondExtends(w, acts[0]);
      }
      CodesNeverChange(w', acts[1..]);
      ExtendsTransitive(w, w', Exec(w', acts[1..]));
    }
  }

  lemma ExtendsSelf(w: World)
    ensures Extends(w, w)
  {
  }

  /** No first request and no continuation comes under an id under which a traverse is filed. */
  ghost predicate NewIds(w: World, acts: seq<Action>)
    requires LegalRun(w, acts)
    decreases |acts|
  {
    acts != [] ==>
      && (if acts[0].Submit? then acts[0].id else acts[0].requestId) !in w.server.sessions
      && NewIds(Next(w, acts[0]), acts[1..])
  }

  /** A traverse nobody is waiting on, finished or given up. */
  ghost predicate Idle(w: World, id: nat) {
    id in w.server.sessions && id !in w.waiting
  }

  lemma NextKeepsTraverses(w: World, a: Action)
    requires Legal(w, a) && (if a.Submit? then a.id else a.requestId) !in w.server.sessions
    ensures w.server.sessions.Keys <= Next(w, a).server.sessions.Keys
    ensures forall id | Idle(w, id) ::
              Idle(Next(w, a), id) && Next(w, a).server.sessions[id] == w.server.sessions[id]
  {
    hide FirstOpe, LastOpe, Decimal.Print, Seal, PushBit;
  }

  /** While all ids drawn are new no traverse is ever freed, and one that nobody is waiting on, finished
      or not, stays filed as it is for ever. */
  lemma {:induction false} TraversesPileUp(w: World, acts: seq<Action>)
    requires LegalRun(w, acts) && NewIds(w, acts)
    ensures w.server.sessions.Keys <= Exec(w, acts).server.sessions.Keys
    ensures forall id | Idle(w, id) ::
              Idle(Exec(w, acts), id) && Exec(w, acts).server.sessions[id] == w.server.sessions[id]
    decreases |acts|
  {
    hide Legal, Next;
    if acts == [] {
    } else {
      NextKeepsTraverses(w, acts[0]);
      TraversesPileUp(Next(w, acts[0]), acts[1..]);
    }
  }

  // ---- Progress ----

  /** The answers a waiting client has given are fewer than the nodes of its tree. */
  lemma RoundsBelowSize(acts: seq<Action>, id: nat)
    requires LegalRun(START, acts)
    requires id in Exec(START, acts).waiting
    ensures var w := Exec(START, acts);
            && Anchored(w.server, id)
            && var s := SessionOf(w, id);
               |w.waiting[id].log| == |s.at| < |w.server.trees[s.key]|
  {
    hide Exec, LegalRun, Inv;
    var w := Exec(START, acts);
    StartInv();
    RunKeepsInv(START, acts);
    WaitingFacts(w, id);
    var s := SessionOf(w, id);
    DepthBelowSize(w.server.trees[s.key], s.at);
  }

  /** Every answer either ends a client's insert or takes its traverse exactly one edge further
      down; no answer moves the traverse of another waiting client. */
  lemma EachAnswerAdvances(w: World, a: Action)
    requires Inv(w) && a.Respond? && Legal(w, a)
    ensures Anchored(w.server, a.id)
    ensures var w' := Next(w, a);
            && (a.id in w'.waiting <==> IsEdge(a.answer) && Descends(w, a))
            && (a.id in w'.waiting ==>
                  && Anchored(w'.server, a.id)
                  && SessionOf(w', a.id).key == SessionOf(w, a.id).key
                  && SessionOf(w', a.id).at == SessionOf(w, a.id).at + [a.answer == 1]
                  && SessionOf(w', a.id).length == SessionOf(w, a.id).length + 1)
            && w'.waiting - {a.id} == w.waiting - {a.id}
            && (forall id | id in w.waiting && id != a.id ::
                  id in w'.server.sessions && w'.server.sessions[id] == w.server.sessions[id])
  {
    hide Inv, FirstOpe, LastOpe, Decimal.Print, Code, Seal, LogOk;
    WaitingFacts(w, a.id);
    forall id | id in w.waiting ensures Anchored(w.server, id) {
      WaitingFacts(w, id);
    }
  }

  // ---- Capacity ----

  /** An answer, truthful or not, needs nothing from the server but room below depth 63. */
  lemma AnswerNeedsOnlyDepth(w: World, a: Action)
    requires Inv(w) && a.Respond? && FreshId(w, a)
    ensures Anchored(w.server, a.id)
    ensures Legal(w, a) <==> !IsEdge(a.answer) || |SessionOf(w, a.id).at| < MAX_DEPTH || Descends(w, a)
  {
    hide Inv, LogOk, FirstOpe;
    WaitingFacts(w, a.id);
  }

  /** A run in which ids are fresh and answers are as said; that the server's steps are defined is
      not assumed. */
  ghost predicate FreshRun(before: (Str, Str) -> bool, view: Row -> Str, w: World, acts: seq<Action>)
    decreases |acts|
  {
    acts == [] ||
    (FreshId(w, acts[0]) && AnsweredBy(before, view, w, acts[0]) &&
     (Legal(w, acts[0]) ==> FreshRun(before, view, Next(w, acts[0]), acts[1..])))
  }

  /** The distinct values a run files for one tree. */
  function OpeValues(acts: seq<Action>, key: Str): set<Str>
    decreases |acts|
  {
    if acts == [] then {}
    else ActionValue(acts[0], key) + OpeValues(acts[1..], key)
  }

  function ActionValue(a: Action, key: Str): set<Str> {
    if a.Submit? && TableKey(a.database, a.table) == key && FirstOpe(a.row).Some? then {Filed(a.row)} else {}
  }

  /** Everything stored or waiting is among the given values of its tree. */
  ghost predicate Within(w: World, values: Str -> set<Str>) {
    && (forall k, p | k in w.server.trees && p in w.server.trees[k] :: w.server.trees[k][p] in values(k))
    && (forall id | id in w.waiting && Anchored(w.server, id) ::
          SessionOf(w, id).value in values(SessionOf(w, id).key))
  }

  lemma RoomForOneMore(before: (Str, Str) -> bool, t: Tree, at: Path, v: Str, values: set<Str>)
    requires StrictTotalOrder(before)
    requires Rooted(t) && Ordered(before, t) && at !in t && at != [] && at[..|at| - 1] in t
    requires OnSide(before, t, at, v)
    requires v in values && |values| <= 64 && forall p | p in t :: t[p] in values
    ensures |at| <= MAX_DEPTH
  {
    hide StrictTotalOrder, Rooted, Ordered;
    var t' := t[at := v];
    InsertKeepsOrder(before, t, at, v);
    assert forall x | x in t'.Values :: x in values;
    SizeBelowValues(before, t', values);
    DepthBelowSize(t', at);
  }

  lemma CapacityMakesLegal(before: (Str, Str) -> bool, w: World, a: Action, values: Str -> set<Str>)
    requires StrictTotalOrder(before)
    requires Inv(w) && AllTruthful(before, Filed, w) && Within(w, values)
    requires FreshId(w, a) && AnsweredBy(before, Filed, w, a)
    requires forall k :: |values(k)| <= 64
    ensures Legal(w, a)
  {
    hide StrictTotalOrder, Inv, AllTruthful, Ordered, Legal, LogOk, FirstOpe;
    if a.Submit? {
      SubmitIsLegal(w, a);
    } else {
      AnswerNeedsOnlyDepth(w, a);
      var s := SessionOf(w, a.id);
      var at, t := s.at + [a.answer == 1], w.server.trees[s.key];
      WaitingFacts(w, a.id);
      if IsEdge(a.answer) && !Descends(w, a) {
        TruthOnSide(before, w, a.id);
        TruthOrders(before, w, s.key);
        StepKeepsSide(before, t, s.at, a.answer == 1, s.value);
        assert at[..|at| - 1] == s.at;
        RoomForOneMore(before, t, at, s.value, values(s.key));
      }
    }
  }

  lemma SubmitIsLegal(w: World, a: Action)
    requires Inv(w) && a.Submit? && FreshId(w, a)
    ensures Legal(w, a)
  {
  }

  lemma SubmitStaysWithin(w: World, a: Action, values: Str -> set<Str>)
    requires Inv(w) && Within(w, values) && Legal(w, a) && a.Submit?
    requires ActionValue(a, TableKey(a.database, a.table)) <= values(TableKey(a.database, a.table))
    ensures Within(Next(w, a), values)
  {
    hide Inv, LastOpe, FirstOpe, Decimal.Print, TableKey, SessionOf;
    var w', key := Next(w, a), TableKey(a.database, a.table);
    if FirstOpe(a.row).Some? {
      assert Filed(a.row) in ActionValue(a, key);
      assert key in w.server.trees ==> w'.server.trees == w.server.trees;
      assert key !in w.server.trees ==> w'.server.trees == w.server.trees[key := map[[] := Filed(a.row)]];
    }
    forall id | id in w'.waiting && Anchored(w'.server, id)
      ensures SessionOf(w', id).value in values(SessionOf(w', id).key)
    {
      SubmittedValue(w, a, id);
    }
  }

  /** A traverse after a first request is that of the request or an old one. */
  lemma SubmittedValue(w: World, a: Action, id: nat)
    requires Inv(w) && Legal(w, a) && a.Submit?
    requires id in Next(w, a).waiting && Anchored(Next(w, a).server, id)
    ensures var s := SessionOf(Next(w, a), id);
            if id in w.waiting then Anchored(w.server, id) && s == SessionOf(w, id)
            else FirstOpe(a.row).Some? && s.value == Filed(a.row) && s.key == TableKey(a.database, a.table)
  {
    hide Inv, LastOpe, FirstOpe, Decimal.Print;
    if id in w.waiting {
      WaitingFacts(w, id);
    }
  }

  lemma RespondStaysWithin(w: World, a: Action, values: Str -> set<Str>)
    requires Inv(w) && Within(w, values) && Legal(w, a) && a.Respond?
    ensures Within(Next(w, a), values)
  {
    hide Inv, FirstOpe, LastOpe, Decimal.Print, Code, LogOk;
    EachAnswerAdvances(w, a);
    var w' := Next(w, a);
    forall id | id in w'.waiting && Anchored(w'.server, id)
      ensures SessionOf(w', id).value in values(SessionOf(w', id).key)
    {
      WaitingFacts(w, id);
    }
  }

  lemma {:induction false} CapacityRun(
    before: (Str, Str) -> bool, w: World, acts: seq<Action>, values: Str -> set<Str>)
    requires StrictTotalOrder(before)
    requires Inv(w) && AllTruthful(before, Filed, w) && Within(w, values) && FreshRun(before, Filed, w, acts)
    requires forall k :: OpeValues(acts, k) <= values(k) && |values(k)| <= 64
    ensures LegalRun(w, acts) && AnswersBy(before, Filed, w, acts)
    decreases |acts|
  {
    hide StrictTotalOrder, Inv, AllTruthful, AnsweredBy, Within, Legal, Next;
    if acts == [] {
    } else {
      CapacityMakesLegal(before, w, acts[0], values);
      forall k
        ensures ActionValue(acts[0], k) <= values(k) && OpeValues(acts[1..], k) <= values(k)
      {
        assert OpeValues(acts, k) <= values(k);
      }
      NextKeepsInv(w, acts[0]);
      NextKeepsTruth(before, Filed, w, acts[0]);
      if acts[0].Submit? {
        SubmitStaysWithin(w, acts[0], values);
      } else {
        RespondStaysWithin(w, acts[0], values);
      }
      CapacityRun(before, Next(w, acts[0]), acts[1..], values);
    }
  }

  /** Up to 64 distinct values per tree, every interleaving of truthful clients with fresh ids stays
      within the depth the codes allow: no shift is ever undefined. */
  lemma SixtyFourValuesFit(before: (Str, Str) -> bool, acts: seq<Action>)
    requires StrictTotalOrder(before)
    requires FreshRun(before, Filed, START, acts)
    requires forall k :: |OpeValues(acts, k)| <= 64
    ensures LegalRun(START, acts) && AnswersBy(before, Filed, START, acts)
  {
    StartInv();
    StartTruth(before);
    CapacityRun(before, START, acts, k => OpeValues(acts, k));
  }

  // ---- Two views of a row ----

  /** The two values are the same in every row of a run. */
  ghost predicate SameViews(v: Row -> Str, v': Row -> Str, acts: seq<Action>) {
    forall a | a in acts && a.Submit? :: v(a.row) == v'(a.row)
  }

  ghost predicate WaitingSame(v: Row -> Str, v': Row -> Str, w: World) {
    forall id | id in w.waiting :: v(w.waiting[id].submitted.row) == v'(w.waiting[id].submitted.row)
  }

  lemma NextKeepsSame(v: Row -> Str, v': Row -> Str, w: World, a: Action)
    requires WaitingSame(v, v', w) && Legal(w, a) && (a.Submit? ==> v(a.row) == v'(a.row))
    ensures WaitingSame(v, v', Next(w, a))
  {
    hide AddStep, ContinueStep, FirstOpe;
  }

  /** Clients that take the same value from every row answer alike. */
  lemma {:induction false} SwitchView(
    before: (Str, Str) -> bool, v: Row -> Str, v': Row -> Str, w: World, acts: seq<Action>)
    requires LegalRun(w, acts) && AnswersBy(before, v, w, acts)
    requires SameViews(v, v', acts) && WaitingSame(v, v', w)
    ensures AnswersBy(before, v', w, acts)
    decreases |acts|
  {
    hide Legal, Next;
    if acts == [] {
    } else {
      NextKeepsSame(v, v', w, acts[0]);
      assert forall a | a in acts[1..] :: a in acts;
      SwitchView(before, v, v', Next(w, acts[0]), acts[1..]);
    }
  }

  lemma {:induction false} RunKeepsSame(v: Row -> Str, v': Row -> Str, w: World, acts: seq<Action>)
    requires WaitingSame(v, v', w) && LegalRun(w, acts) && SameViews(v, v', acts)
    ensures WaitingSame(v, v', Exec(w, acts))
    decreases |acts|
  {
    hide Legal, Next;
    if acts == [] {
    } else {
      NextKeepsSame(v, v', w, acts[0]);
      assert forall a | a in acts[1..] :: a in acts;
      RunKeepsSame(v, v', Next(w, acts[0]), acts[1..]);
    }
  }

  lemma {:induction false} FreshSwitch(
    before: (Str, Str) -> bool, v: Row -> Str, v': Row -> Str, w: World, acts: seq<Action>)
    requires FreshRun(before, v, w, acts)
    requires SameViews(v, v', acts) && WaitingSame(v, v', w)
    ensures FreshRun(before, v', w, acts)
    decreases |acts|
  {
    hide Legal, Next;
    if acts == [] {
    } else if Legal(w, acts[0]) {
      NextKeepsSame(v, v', w, acts[0]);
      assert forall a | a in acts[1..] :: a in acts;
      FreshSwitch(before, v, v', Next(w, acts[0]), acts[1..]);
    }
  }
}
