/** Whole runs: the server with any number of clients whose requests interleave freely. A client
    may answer anything. What it was shown and what it answered is on record, so that a theorem
    can say whose answers were truthful, and about which value. */
module Runs {
  import opened Strings
  import opened PathCode
  import opened SearchTree
  import opened Protocol
  import Decimal

  /** A ciphertext a client was shown, and its answer. */
  datatype Asked = Asked(shown: Str, answer: int)

  /** A client between two answers: its request, the ciphertext it was last shown, and the answers
      it has given before. */
  datatype Waiting = Waiting(submitted: Stored, shown: Str, log: seq<Asked>)

  datatype Place = Place(key: Str, path: Path)

  /** An insert reported as done, and whether its row was stored. */
  datatype Ack = Ack(submitted: Stored, kept: bool)

  /** The server, the waiting clients by the id of their first request, and the history: for each
      stored row the request it came from, the node created with it and the answers that led
      there; and the inserts acknowledged, in order. */
  datatype World = World(
    server: Server,
    waiting: map<nat, Waiting>,
    submitted: seq<Stored>,
    places: seq<Option<Place>>,
    logs: seq<seq<Asked>>,
    acks: seq<Ack>)

  datatype Action =
    | Submit(id: nat, database: Str, table: Str, row: Row)
    | Respond(requestId: nat, id: nat, answer: int)

  const START: World := World(EMPTY, map[], [], [], [], [])

  /** The id of a request is not the id under which another client is waiting. */
  predicate FreshId(w: World, a: Action) {
    match a
    case Submit(id, _, _, _) => id !in w.waiting
    case Respond(requestId, id, _) => id in w.waiting && (requestId in w.waiting ==> requestId == id)
  }

  /** A fresh id and an effect the source defines. */
  predicate Legal(w: World, a: Action) {
    && FreshId(w, a)
    && (a.Submit? ==> forall k | k in w.server.trees :: [] in w.server.trees[k])
    && (a.Respond? ==> ContinueDefined(w.server, a.id, a.answer))
  }

  function PlaceOfRoot(submitted: Stored): Option<Place> {
    if FirstOpe(submitted.row).None? then None else Some(Place(TableKey(submitted.database, submitted.table), []))
  }

  function Next(w: World, a: Action): World
    requires Legal(w, a)
  {
    match a
    case Submit(id, database, table, row) =>
      var (server, reply) := AddStep(w.server, id, database, table, row);
      var submitted := Stored(database, table, row);
      if reply.AddTraverse? then
        w.(server := server, waiting := w.waiting[id := Waiting(submitted, reply.ciphertext, [])])
      else
        w.(server := server,
           submitted := w.submitted + [submitted],
           places := w.places + [PlaceOfRoot(submitted)],
           logs := w.logs + [[]],
           acks := w.acks + [Ack(submitted, true)])
    case Respond(requestId, id, answer) =>
      var client := w.waiting[id];
      var (server, reply) := ContinueStep(w.server, requestId, id, answer);
      var log := client.log + [Asked(client.shown, answer)];
      if reply.AddTraverse? then
        w.(server := server,
           waiting := w.waiting[id := client.(shown := reply.ciphertext, log := log)])
      else if answer != 1 && answer != -1 then
        w.(server := server,
           waiting := w.waiting - {id},
           acks := w.acks + [Ack(client.submitted, false)])
      else
        var session := w.server.sessions[id].value;
        w.(server := server,
           waiting := w.waiting - {id},
           submitted := w.submitted + [client.submitted],
           places := w.places + [Some(Place(session.key, session.at + [answer == 1]))],
           logs := w.logs + [log],
           acks := w.acks + [Ack(client.submitted, true)])
  }

  predicate LegalRun(w: World, acts: seq<Action>)
    decreases |acts|
  {
    acts == [] || (Legal(w, acts[0]) && LegalRun(Next(w, acts[0]), acts[1..]))
  }

  function Exec(w: World, acts: seq<Action>): World
    requires LegalRun(w, acts)
    decreases |acts|
  {
    if acts == [] then w else Exec(Next(w, acts[0]), acts[1..])
  }

  // ---- The invariant ----

  type Forest = map<Str, Tree>

  /** The answers of a path: what was shown is what its nodes hold, and -1 is an edge to the left. */
  ghost predicate LogOk(t: Tree, p: Path, log: seq<Asked>) {
    && |log| == |p|
    && forall n | 0 <= n < |p| :: p[..n] in t && log[n] == Asked(t[p[..n]], if p[n] then 1 else -1)
  }

  /** A waiting client's traverse stands on the node its answers lead to and serves its request,
      and the client is shown that node's ciphertext. */
  ghost predicate SessionOk(trees: Forest, s: Session, c: Waiting) {
    && s.key in trees && s.at in trees[s.key]
    && s.key == TableKey(s.database, s.table)
    && c.submitted == Stored(s.database, s.table, s.row)
    && FirstOpe(s.row).Some? && s.value == Filed(s.row)
    && s.code == Walked(s.at) && s.length == |s.at|
    && c.shown == trees[s.key][s.at]
    && LogOk(trees[s.key], s.at, c.log)
  }

  /** The field the code is written to: the first "_ope" field at the root, else the last one. */
  function CodeField(row: Row, path: Path): Str {
    if path == [] && FirstOpe(row).Some? then FirstOpe(row).value else LastOpe(row)
  }

  /** A stored row is the submitted one with the code of its node written into it; the node holds
      the value filed for the row and lies where the client's answers led. */
  ghost predicate RowOk(trees: Forest, submitted: Stored, stored: Stored, place: Option<Place>, log: seq<Asked>) {
    && stored.database == submitted.database && stored.table == submitted.table
    && match place {
         case None => FirstOpe(submitted.row).None? && stored.row == submitted.row && log == []
         case Some(Place(key, path)) =>
           && key == TableKey(submitted.database, submitted.table)
           && key in trees && path in trees[key] && |path| <= MAX_DEPTH
           && FirstOpe(submitted.row).Some? && trees[key][path] == Filed(submitted.row)
           && stored.row == submitted.row[CodeField(submitted.row, path) := Decimal.Print(Code(path))]
           && LogOk(trees[key], path, log)
       }
  }

  ghost predicate TreesOk(trees: Forest) {
    forall k | k in trees :: Rooted(trees[k]) && Shallow(trees[k])
  }

  ghost predicate SessionsOk(trees: Forest, sessions: map<nat, Option<Session>>, waiting: map<nat, Waiting>) {
    forall id | id in waiting ::
      id in sessions && sessions[id].Some? && SessionOk(trees, sessions[id].value, waiting[id])
  }

  ghost predicate RowsOk(
    trees: Forest, submitted: seq<Stored>, rows: seq<Stored>, places: seq<Option<Place>>, logs: seq<seq<Asked>>)
  {
    && |submitted| == |rows| == |places| == |logs|
    && forall i | 0 <= i < |places| :: RowOk(trees, submitted[i], rows[i], places[i], logs[i])
  }

  /** The stored "_ope" rows and the nodes are in bijection. */
  ghost predicate PlacesOk(trees: Forest, places: seq<Option<Place>>) {
    && (forall i, j | 0 <= i < j < |places| && places[i].Some? :: places[i] != places[j])
    && (forall k, p | k in trees && p in trees[k] :: Some(Place(k, p)) in places)
  }

  /** The acknowledged inserts whose rows were stored. */
  function Kept(acks: seq<Ack>): (rows: seq<Stored>) {
    if acks == [] then []
    else
      var last := acks[|acks| - 1];
      Kept(acks[..|acks| - 1]) + (if last.kept then [last.submitted] else [])
  }

  ghost predicate Inv(w: World) {
    && TreesOk(w.server.trees)
    && SessionsOk(w.server.trees, w.server.sessions, w.waiting)
    && RowsOk(w.server.trees, w.submitted, w.server.rows, w.places, w.logs)
    && PlacesOk(w.server.trees, w.places)
    && w.submitted == Kept(w.acks)
  }

  // ---- Preservation ----

  /** The forest with one more node, the root of a new tree when the path is empty. */
  ghost predicate Grown(trees: Forest, trees': Forest, key: Str, path: Path, v: Str) {
    && TreesOk(trees')
    && (if key in trees then path !in trees[key] && trees' == trees[key := trees[key][path := v]]
        else path == [] && trees' == trees[key := map[path := v]])
  }

  /** Every node is still there with its ciphertext. */
  ghost predicate Same(t: Tree, t': Tree) {
    forall p | p in t :: p in t' && t'[p] == t[p]
  }

  lemma LogStays(t: Tree, t': Tree, p: Path, log: seq<Asked>)
    requires Same(t, t') && LogOk(t, p, log)
    ensures LogOk(t', p, log)
  {
  }

  lemma GrownKeeps(trees: Forest, trees': Forest, key: Str, path: Path, v: Str, k: Str)
    requires Grown(trees, trees', key, path, v) && k in trees
    ensures k in trees' && Same(trees[k], trees'[k])
  {
  }

  lemma SessionStays(trees: Forest, trees': Forest, s: Session, c: Waiting)
    requires SessionOk(trees, s, c)
    requires s.key in trees' && Same(trees[s.key], trees'[s.key])
    ensures SessionOk(trees', s, c)
  {
    hide LogOk, FirstOpe;
    LogStays(trees[s.key], trees'[s.key], s.at, c.log);
  }

  lemma GrownKeepsSessions(
    trees: Forest, trees': Forest, key: Str, path: Path, v: Str,
    sessions: map<nat, Option<Session>>, waiting: map<nat, Waiting>)
    requires Grown(trees, trees', key, path, v)
    requires SessionsOk(trees, sessions, waiting)
    ensures SessionsOk(trees', sessions, waiting)
  {
    hide Grown, SessionOk, Same;
    forall id | id in waiting ensures SessionOk(trees', sessions[id].value, waiting[id]) {
      var s := sessions[id].value;
      SessionKey(trees, s, waiting[id]);
      GrownKeeps(trees, trees', key, path, v, s.key);
      SessionStays(trees, trees', s, waiting[id]);
    }
  }

  lemma SessionKey(trees: Forest, s: Session, c: Waiting)
    requires SessionOk(trees, s, c)
    ensures s.key in trees
  {
  }

  lemma RowStays(
    trees: Forest, trees': Forest, key: Str, path: Path, v: Str,
    submitted: Stored, stored: Stored, place: Option<Place>, log: seq<Asked>)
    requires Grown(trees, trees', key, path, v)
    requires RowOk(trees, submitted, stored, place, log)
    ensures RowOk(trees', submitted, stored, place, log)
  {
    hide Grown, LogOk, FirstOpe, LastOpe, Decimal.Print, Code;
    if place.Some? {
      var k := place.value.key;
      GrownKeeps(trees, trees', key, path, v, k);
      LogStays(trees[k], trees'[k], place.value.path, log);
    }
  }

  lemma GrownKeepsRows(
    trees: Forest, trees': Forest, key: Str, path: Path, v: Str,
    submitted: seq<Stored>, rows: seq<Stored>, places: seq<Option<Place>>, logs: seq<seq<Asked>>)
    requires Grown(trees, trees', key, path, v)
    requires RowsOk(trees, submitted, rows, places, logs)
    ensures RowsOk(trees', submitted, rows, places, logs)
  {
    hide Grown, RowOk;
    forall i | 0 <= i < |places| ensures RowOk(trees', submitted[i], rows[i], places[i], logs[i]) {
      RowStays(trees, trees', key, path, v, submitted[i], rows[i], places[i], logs[i]);
    }
  }

  lemma RowHasNode(trees: Forest, submitted: Stored, stored: Stored, place: Option<Place>, log: seq<Asked>)
    requires RowOk(trees, submitted, stored, place, log)
    ensures place.Some? ==> place.value.key in trees && place.value.path in trees[place.value.key]
  {
  }

  lemma PlacesGrow(trees: Forest, trees': Forest, places: seq<Option<Place>>, key: Str, path: Path)
    requires PlacesOk(trees, places)
    requires Some(Place(key, path)) !in places
    requires forall k, p | k in trees' && p in trees'[k] :: (k == key && p == path) || (k in trees && p in trees[k])
    ensures PlacesOk(trees', places + [Some(Place(key, path))])
  {
    var places' := places + [Some(Place(key, path))];
    assert places'[|places|] == Some(Place(key, path));
    assert forall x | x in places :: x in places';
  }

  lemma GrownKeepsPlaces(
    trees: Forest, trees': Forest, key: Str, path: Path, v: Str,
    submitted: seq<Stored>, rows: seq<Stored>, places: seq<Option<Place>>, logs: seq<seq<Asked>>)
    requires Grown(trees, trees', key, path, v)
    requires RowsOk(trees, submitted, rows, places, logs)
    requires PlacesOk(trees, places)
    ensures PlacesOk(trees', places + [Some(Place(key, path))])
  {
    hide PlacesOk, RowOk;
    forall i | 0 <= i < |places| ensures places[i] != Some(Place(key, path)) {
      RowHasNode(trees, submitted[i], rows[i], places[i], logs[i]);
    }
    PlacesGrow(trees, trees', places, key, path);
  }

  lemma AppendRow(trees: Forest, submitted: seq<Stored>, rows: seq<Stored>, places: seq<Option<Place>>,
                  logs: seq<seq<Asked>>,
                  newSubmitted: Stored, newRow: Stored, newPlace: Option<Place>, newLog: seq<Asked>)
    requires RowsOk(trees, submitted, rows, places, logs)
    requires RowOk(trees, newSubmitted, newRow, newPlace, newLog)
    ensures RowsOk(trees, submitted + [newSubmitted], rows + [newRow], places + [newPlace], logs + [newLog])
  {
    hide RowOk;
  }

  lemma KeptSnoc(acks: seq<Ack>, ack: Ack)
    ensures Kept(acks + [ack]) == Kept(acks) + (if ack.kept then [ack.submitted] else [])
  {
    assert (acks + [ack])[..|acks|] == acks;
  }

  /** The history of a stored row. */
  ghost predicate Recorded(
    w: World, w': World, submitted: Stored, stored: Stored, place: Option<Place>, log: seq<Asked>)
  {
    && w'.server.rows == w.server.rows + [stored]
    && w'.submitted == w.submitted + [submitted]
    && w'.places == w.places + [place]
    && w'.logs == w.logs + [log]
    && w'.acks == w.acks + [Ack(submitted, true)]
  }

  /** The step that creates a node, whether it is a root or not. */
  lemma NewNodeKeepsInv(
    w: World, w': World, key: Str, path: Path, v: Str, submitted: Stored, stored: Stored, log: seq<Asked>)
    requires Inv(w)
    requires Grown(w.server.trees, w'.server.trees, key, path, v)
    requires Recorded(w, w', submitted, stored, Some(Place(key, path)), log)
    requires RowOk(w'.server.trees, submitted, stored, Some(Place(key, path)), log)
    requires SessionsOk(w.server.trees, w'.server.sessions, w'.waiting)
    ensures Inv(w')
  {
    hide TreesOk, SessionsOk, RowsOk, PlacesOk, RowOk, Kept;
    var trees, trees' := w.server.trees, w'.server.trees;
    GrownKeepsSessions(trees, trees', key, path, v, w'.server.sessions, w'.waiting);
    GrownKeepsRows(trees, trees', key, path, v, w.submitted, w.server.rows, w.places, w.logs);
    GrownKeepsPlaces(trees, trees', key, path, v, w.submitted, w.server.rows, w.places, w.logs);
    AppendRow(trees', w.submitted, w.server.rows, w.places, w.logs, submitted, stored, Some(Place(key, path)), log);
    KeptSnoc(w.acks, Ack(submitted, true));
  }

  lemma CodeOfRoot()
    ensures Code([]) == ROOT_CODE
  {
    CodeIsAligned([]);
    Pow2_64();
    assert Aligned([], 63) == Pow2(63);
  }

  lemma SessionsUpdated(
    trees: Forest, sessions: map<nat, Option<Session>>, waiting: map<nat, Waiting>, id: nat, s: Session, c: Waiting)
    requires SessionsOk(trees, sessions, waiting)
    requires SessionOk(trees, s, c)
    ensures SessionsOk(trees, sessions[id := Some(s)], waiting[id := c])
  {
    hide SessionOk;
  }

  /** A request that opens a traverse. */
  lemma OpenKeepsInv(w: World, a: Action)
    requires Inv(w) && a.Submit? && Legal(w, a)
    requires FirstOpe(a.row).Some? && TableKey(a.database, a.table) in w.server.trees
    ensures Inv(Next(w, a))
  {
    hide TreesOk, SessionsOk, RowsOk, PlacesOk, Kept;
    var key := TableKey(a.database, a.table);
    var s := Session(key, [], 0, 0, Filed(a.row), a.database, a.table, a.row);
    var c := Waiting(Stored(a.database, a.table, a.row), w.server.trees[key][[]], []);
    assert Next(w, a) == w.(server := w.server.(sessions := w.server.sessions[a.id := Some(s)]),
                            waiting := w.waiting[a.id := c]);
    SessionsUpdated(w.server.trees, w.server.sessions, w.waiting, a.id, s, c);
  }

  lemma RootIsGrown(trees: Forest, key: Str, v: Str)
    requires TreesOk(trees) && key !in trees
    ensures Grown(trees, trees[key := map[[] := v]], key, [], v)
  {
    var t: Tree := map[[] := v];
    assert Rooted(t) && Shallow(t);
  }

  lemma RootRowOk(trees: Forest, submitted: Stored, key: Str)
    requires FirstOpe(submitted.row).Some? && key == TableKey(submitted.database, submitted.table)
    requires key in trees && [] in trees[key] && trees[key][[]] == Filed(submitted.row)
    ensures var row := submitted.row[FirstOpe(submitted.row).value := Decimal.Print(ROOT_CODE)];
            RowOk(trees, submitted, submitted.(row := row), Some(Place(key, [])), [])
  {
    CodeOfRoot();
  }

  /** A request for a table without a tree. */
  lemma RootKeepsInv(w: World, a: Action)
    requires Inv(w) && a.Submit? && Legal(w, a)
    requires FirstOpe(a.row).Some? && TableKey(a.database, a.table) !in w.server.trees
    ensures Inv(Next(w, a))
  {
    hide TreesOk, SessionsOk, RowsOk, PlacesOk, Grown, RowOk, Kept, Decimal.Print, LastOpe;
    var key, submitted := TableKey(a.database, a.table), Stored(a.database, a.table, a.row);
    var w' := Next(w, a);
    RootIsGrown(w.server.trees, key, Filed(a.row));
    RootRowOk(w'.server.trees, submitted, key);
    NewNodeKeepsInv(w, w', key, [], Filed(a.row), submitted, w'.server.rows[|w.server.rows|], []);
  }

  lemma PlainKeepsInv(w: World, a: Action)
    requires Inv(w) && a.Submit? && Legal(w, a)
    requires FirstOpe(a.row).None?
    ensures Inv(Next(w, a))
  {
    hide TreesOk, SessionsOk, RowsOk, Kept;
    var w', submitted := Next(w, a), Stored(a.database, a.table, a.row);
    AppendRow(w.server.trees, w.submitted, w.server.rows, w.places, w.logs, submitted, submitted, None, []);
    KeptSnoc(w.acks, Ack(submitted, true));
    assert forall x | x in w.places :: x in w'.places;
  }

  lemma SubmitKeepsInv(w: World, a: Action)
    requires Inv(w) && a.Submit? && Legal(w, a)
    ensures Inv(Next(w, a))
  {
    hide Inv;
    if FirstOpe(a.row).None? {
      PlainKeepsInv(w, a);
    } else if TableKey(a.database, a.table) in w.server.trees {
      OpenKeepsInv(w, a);
    } else {
      RootKeepsInv(w, a);
    }
  }

  /** The traverse of a waiting client. */
  function SessionOf(w: World, id: nat): Session
    requires id in w.server.sessions && w.server.sessions[id].Some?
  {
    w.server.sessions[id].value
  }

  predicate IsEdge(answer: int) {
    answer == 1 || answer == -1
  }

  /** What the invariant says of one waiting client. */
  lemma WaitingFacts(w: World, id: nat)
    requires Inv(w) && id in w.waiting
    ensures Anchored(w.server, id)
    ensures SessionOk(w.server.trees, SessionOf(w, id), w.waiting[id])
    ensures Rooted(w.server.trees[SessionOf(w, id).key]) && Shallow(w.server.trees[SessionOf(w, id).key])
  {
  }

  lemma WalkedStep(p: Path, b: bool)
    ensures Walked(p + [b]) == PushBit(Walked(p), b)
  {
    assert (p + [b])[..|p|] == p;
  }

  /** One more answer. */
  lemma LogStep(t: Tree, p: Path, log: seq<Asked>, b: bool)
    requires p in t && LogOk(t, p, log)
    ensures LogOk(t, p + [b], log + [Asked(t[p], if b then 1 else -1)])
  {
    var q := p + [b];
    forall n | 0 <= n < |q|
      ensures q[..n] in t && (log + [Asked(t[p], if b then 1 else -1)])[n] == Asked(t[q[..n]], if q[n] then 1 else -1)
    {
      if n == |p| {
        assert q[..n] == p;
      } else {
        assert q[..n] == p[..n];
      }
    }
  }

  /** The place an answer leads to. */
  function Target(w: World, a: Action): Path
    requires a.Respond? && a.id in w.server.sessions && w.server.sessions[a.id].Some?
  {
    SessionOf(w, a.id).at + [a.answer == 1]
  }

  ghost predicate Descends(w: World, a: Action)
    requires a.Respond? && Anchored(w.server, a.id)
  {
    Target(w, a) in w.server.trees[SessionOf(w, a.id).key]
  }

  /** An answer that finds a node where it is sent. */
  lemma DescendKeepsInv(w: World, a: Action)
    requires Inv(w) && a.Respond? && Legal(w, a) && IsEdge(a.answer)
    requires Descends(w, a)
    ensures Inv(Next(w, a))
  {
    hide TreesOk, SessionsOk, RowsOk, PlacesOk, LogOk, FirstOpe, Kept;
    WaitingFacts(w, a.id);
    var s, c, right := SessionOf(w, a.id), w.waiting[a.id], a.answer == 1;
    var t := w.server.trees[s.key];
    WalkedStep(s.at, right);
    LogStep(t, s.at, c.log, right);
    var w' := Next(w, a);
    SessionsUpdated(w.server.trees, w.server.sessions, w.waiting,
                    a.id, w'.server.sessions[a.id].value, w'.waiting[a.id]);
  }

  lemma SessionsClosed(
    trees: Forest, sessions: map<nat, Option<Session>>, waiting: map<nat, Waiting>,
    id: nat, requestId: nat, s: Option<Session>)
    requires SessionsOk(trees, sessions, waiting)
    requires requestId in waiting ==> requestId == id
    ensures SessionsOk(trees, sessions[id := s] - {requestId}, waiting - {id})
  {
    hide SessionOk;
  }

  lemma CreatedRowOk(trees: Forest, s: Session, at: Path, log: seq<Asked>)
    requires s.key == TableKey(s.database, s.table) && s.key in trees
    requires at in trees[s.key] && trees[s.key][at] == s.value && 0 < |at| <= MAX_DEPTH
    requires FirstOpe(s.row).Some? && s.value == Filed(s.row)
    requires LogOk(trees[s.key], at, log)
    ensures RowOk(trees, Stored(s.database, s.table, s.row),
                  Stored(s.database, s.table, CompletedRow(s.row, Code(at))), Some(Place(s.key, at)), log)
  {
    hide LogOk;
  }

  lemma CreateIsGrown(trees: Forest, key: Str, at: Path, v: Str)
    requires TreesOk(trees) && key in trees && at !in trees[key]
    requires at != [] && |at| <= MAX_DEPTH && at[..|at| - 1] in trees[key]
    ensures Grown(trees, trees[key := trees[key][at := v]], key, at, v)
  {
    InsertKeepsRooted(trees[key], at, v);
  }

  /** The step of an answer that creates a node. */
  lemma CreateStep(w: World, a: Action)
    requires a.Respond? && Legal(w, a) && IsEdge(a.answer)
    requires Anchored(w.server, a.id) && !Descends(w, a)
    ensures var s, c, w' := SessionOf(w, a.id), w.waiting[a.id], Next(w, a);
            var at, code := Target(w, a), Seal(PushBit(s.code, a.answer == 1), s.length + 1);
            var row := CompletedRow(s.row, code);
            && w'.server.trees == w.server.trees[s.key := w.server.trees[s.key][at := s.value]]
            && w'.server.sessions ==
                 w.server.sessions[a.id := Some(s.(at := at, code := code, length := s.length + 1, row := row))]
                 - {a.requestId}
            && w'.waiting == w.waiting - {a.id}
            && Recorded(w, w', c.submitted, Stored(s.database, s.table, row), Some(Place(s.key, at)),
                        c.log + [Asked(c.shown, a.answer)])
  {
    hide PushBit, Seal, CompletedRow;
  }

  /** An answer that creates a node. */
  lemma CreateKeepsInv(w: World, a: Action)
    requires Inv(w) && a.Respond? && Legal(w, a) && IsEdge(a.answer)
    requires !(Anchored(w.server, a.id) && Descends(w, a))
    ensures Inv(Next(w, a))
  {
    hide TreesOk, SessionsOk, RowsOk, PlacesOk, RowOk, Grown, LogOk, Rooted, FirstOpe, LastOpe, Kept;
    hide Next, ContinueStep, Recorded, CompletedRow, Filed;
    WaitingFacts(w, a.id);
    CreateStep(w, a);
    var s, c, right := SessionOf(w, a.id), w.waiting[a.id], a.answer == 1;
    var at, t := s.at + [right], w.server.trees[s.key];
    var log := c.log + [Asked(c.shown, a.answer)];
    var trees' := w.server.trees[s.key := t[at := s.value]];
    WalkedStep(s.at, right);
    LogStep(t, s.at, c.log, right);
    LogStays(t, t[at := s.value], at, log);
    CreateIsGrown(w.server.trees, s.key, at, s.value);
    SessionsClosed(w.server.trees, w.server.sessions, w.waiting, a.id, a.requestId,
                   Some(s.(at := at, code := Code(at), length := |at|, row := CompletedRow(s.row, Code(at)))));
    CreatedRowOk(trees', s, at, log);
    NewNodeKeepsInv(w, Next(w, a), s.key, at, s.value, c.submitted,
                    Stored(s.database, s.table, CompletedRow(s.row, Code(at))), log);
  }

  lemma SessionsLeft(trees: Forest, sessions: map<nat, Option<Session>>, waiting: map<nat, Waiting>, id: nat)
    requires SessionsOk(trees, sessions, waiting)
    ensures SessionsOk(trees, sessions, waiting - {id})
  {
    hide SessionOk;
  }

  /** An answer of equality: nothing is stored. */
  lemma EqualKeepsInv(w: World, a: Action)
    requires Inv(w) && a.Respond? && Legal(w, a) && !IsEdge(a.answer)
    ensures Inv(Next(w, a))
  {
    hide TreesOk, SessionsOk, RowsOk, PlacesOk, Kept;
    WaitingFacts(w, a.id);
    SessionsLeft(w.server.trees, w.server.sessions, w.waiting, a.id);
    KeptSnoc(w.acks, Ack(w.waiting[a.id].submitted, false));
  }

  lemma RespondKeepsInv(w: World, a: Action)
    requires Inv(w) && a.Respond? && Legal(w, a)
    ensures Inv(Next(w, a))
  {
    hide Inv;
    WaitingFacts(w, a.id);
    if !IsEdge(a.answer) {
      EqualKeepsInv(w, a);
    } else if Descends(w, a) {
      DescendKeepsInv(w, a);
    } else {
      CreateKeepsInv(w, a);
    }
  }
}
