/** Any requests at all, in any order and from anyone: first requests under ids in use, continuations
    of traverses that have finished, of traverses opened by somebody else, of none. What a traverse
    has been through is on record with the traverse, whoever sent the requests. */
module AnyRequests {
  import opened Strings
  import opened PathCode
  import opened SearchTree
  import opened Protocol
  import opened Runs
  import opened RunTheorems
  import Decimal

  datatype Request =
    | First(id: nat, database: Str, table: Str, row: Row)
    | Again(requestId: nat, id: nat, answer: int)

  /** A traverse: the request it serves, the answers that led it to where it is, and the nodes it has
      made on its way. */
  datatype Walk = Walk(submitted: Stored, log: seq<Asked>, made: seq<Path>)

  /** Where a stored row comes from: the node made with it, and the traverse as it arrived there. */
  datatype Origin = Origin(place: Option<Place>, walk: Walk)

  datatype Trace = Trace(server: Server, walks: map<nat, Walk>, origins: seq<Origin>)

  const NOTHING: Trace := Trace(EMPTY, map[], [])

  /** A request with an effect the source defines. */
  predicate Defined(t: Trace, r: Request) {
    match r
    case First(_, _, _, _) => forall k | k in t.server.trees :: [] in t.server.trees[k]
    case Again(_, id, answer) => ContinueDefined(t.server, id, answer) && (IsEdge(answer) ==> id in t.walks)
  }

  function Opened(submitted: Stored): Walk {
    Walk(submitted, [], [])
  }

  /** One more edge. */
  function Led(walk: Walk, shown: Str, answer: int): Walk {
    walk.(log := walk.log + [Asked(shown, answer)])
  }

  /** A node is made. */
  function Finished(walk: Walk, at: Path): Walk {
    walk.(made := walk.made + [at])
  }

  function Step(t: Trace, r: Request): Trace
    requires Defined(t, r)
  {
    match r
    case First(id, database, table, row) =>
      var (server, reply) := AddStep(t.server, id, database, table, row);
      var submitted := Stored(database, table, row);
      if reply.AddTraverse? then t.(server := server, walks := t.walks[id := Opened(submitted)])
      else t.(server := server, origins := t.origins + [Origin(PlaceOfRoot(submitted), Opened(submitted))])
    case Again(requestId, id, answer) =>
      var (server, reply) := ContinueStep(t.server, requestId, id, answer);
      if !IsEdge(answer) then t.(server := server)
      else
        var session := t.server.sessions[id].value;
        var at := session.at + [answer == 1];
        var walk := Led(t.walks[id], t.server.trees[session.key][session.at], answer);
        if reply.AddTraverse? then t.(server := server, walks := t.walks[id := walk])
        else t.(server := server,
                walks := t.walks[id := Finished(walk, at)],
                origins := t.origins + [Origin(Some(Place(session.key, at)), walk)])
  }

  predicate DefinedRun(t: Trace, rs: seq<Request>)
    decreases |rs|
  {
    rs == [] || (Defined(t, rs[0]) && DefinedRun(Step(t, rs[0]), rs[1..]))
  }

  function After(t: Trace, rs: seq<Request>): Trace
    requires DefinedRun(t, rs)
    decreases |rs|
  {
    if rs == [] then t else After(Step(t, rs[0]), rs[1..])
  }

  // ---- The register ----

  /** The nodes made lie one below the other on the way to p, none too deep for a code. */
  predicate OnTheWay(made: seq<Path>, p: Path) {
    made == [] ||
    var n := |made| - 1;
    made[n] <= p && |made[n]| <= MAX_DEPTH && OnTheWay(made[..n], made[n])
  }

  /** The bits that have been shifted into the register: the path, but where a node was made, what
      sealing the register left in it. */
  function Bits(made: seq<Path>, p: Path): (y: seq<bool>)
    requires OnTheWay(made, p)
    ensures |p| <= |y|
    decreases |made|
  {
    if made == [] then p
    else
      var n := |made| - 1;
      SealedBits(Bits(made[..n], made[n]), |made[n]|) + p[|made[n]|..]
  }

  lemma BitsLed(made: seq<Path>, p: Path, b: bool)
    requires OnTheWay(made, p)
    ensures OnTheWay(made, p + [b]) && Bits(made, p + [b]) == Bits(made, p) + [b]
  {
    hide SealedBits;
    if made != [] {
      var q := made[|made| - 1];
      assert (p + [b])[..|q|] == p[..|q|] == q;
      assert (p + [b])[|q|..] == p[|q|..] + [b];
    }
  }

  lemma BitsFinished(made: seq<Path>, p: Path)
    requires OnTheWay(made, p) && |p| <= MAX_DEPTH
    ensures OnTheWay(made + [p], p) && Bits(made + [p], p) == SealedBits(Bits(made, p), |p|)
  {
    hide SealedBits;
    assert (made + [p])[..|made|] == made;
    assert p[|p|..] == [];
  }

  // ---- The invariant ----

  /** The value is in the tree at p or above it. */
  ghost predicate Passed(t: Tree, p: Path, v: Str) {
    exists n :: 0 <= n <= |p| && p[..n] in t && t[p[..n]] == v
  }

  /** The same fields and, but for the last "_ope" field, the same cells. */
  ghost predicate SameBut(row: Row, row': Row) {
    row'.Keys == row.Keys && row' - {LastOpe(row)} == row - {LastOpe(row)}
  }

  /** The path that the last bits of the register spell, as many as p has edges. */
  function Spelled(made: seq<Path>, p: Path): (q: Path)
    requires OnTheWay(made, p)
    ensures |q| == |p|
  {
    Tail(Bits(made, p), |p|)
  }

  ghost predicate WalkOk(trees: Forest, s: Session, w: Walk) {
    && s.key in trees && s.at in trees[s.key]
    && s.key == TableKey(s.database, s.table)
    && w.submitted.database == s.database && w.submitted.table == s.table
    && FirstOpe(w.submitted.row).Some? && s.value == Filed(w.submitted.row)
    && SameBut(w.submitted.row, s.row)
    && s.length == |s.at| && OnTheWay(w.made, s.at) && s.code == Walked(Bits(w.made, s.at))
    && LogOk(trees[s.key], s.at, w.log)
    && (if w.made == [] then s.row == w.submitted.row else Passed(trees[s.key], s.at, s.value))
  }

  /** A stored row is the submitted one with a code written into it: that of the path spelled by the
      last bits of the register, as many as the node is deep. */
  ghost predicate OriginOk(trees: Forest, stored: Stored, o: Origin) {
    var r := o.walk.submitted;
    && stored.database == r.database && stored.table == r.table
    && match o.place {
         case None => FirstOpe(r.row).None? && stored.row == r.row
         case Some(Place(key, path)) =>
           && key == TableKey(r.database, r.table)
           && key in trees && path in trees[key] && |path| <= MAX_DEPTH
           && FirstOpe(r.row).Some? && trees[key][path] == Filed(r.row)
           && LogOk(trees[key], path, o.walk.log)
           && OnTheWay(o.walk.made, path)
           && stored.row == r.row[CodeField(r.row, path) := Decimal.Print(Code(Spelled(o.walk.made, path)))]
           && (o.walk.made != [] ==> path != [] && Passed(trees[key], path[..|path| - 1], Filed(r.row)))
       }
  }

  ghost predicate WalksOk(trees: Forest, sessions: map<nat, Option<Session>>, walks: map<nat, Walk>) {
    forall id | id in sessions && sessions[id].Some? :: id in walks && WalkOk(trees, sessions[id].value, walks[id])
  }

  ghost predicate OriginsOk(trees: Forest, rows: seq<Stored>, origins: seq<Origin>) {
    |rows| == |origins| && forall i | 0 <= i < |rows| :: OriginOk(trees, rows[i], origins[i])
  }

  ghost predicate Sound(t: Trace) {
    && TreesOk(t.server.trees)
    && WalksOk(t.server.trees, t.server.sessions, t.walks)
    && OriginsOk(t.server.trees, t.server.rows, t.origins)
  }

  // ---- Preservation ----

  lemma PassedStays(t: Tree, t': Tree, p: Path, v: Str)
    requires Same(t, t') && Passed(t, p, v)
    ensures Passed(t', p, v)
  {
    var n :| 0 <= n <= |p| && p[..n] in t && t[p[..n]] == v;
    assert p[..n] in t' && t'[p[..n]] == v;
  }

  lemma PassedFurther(t: Tree, p: Path, b: bool, v: Str)
    requires Passed(t, p, v)
    ensures Passed(t, p + [b], v)
  {
    var n :| 0 <= n <= |p| && p[..n] in t && t[p[..n]] == v;
    assert (p + [b])[..n] == p[..n];
  }

  lemma WalkStays(trees: Forest, trees': Forest, s: Session, w: Walk)
    requires WalkOk(trees, s, w) && s.key in trees' && Same(trees[s.key], trees'[s.key])
    ensures WalkOk(trees', s, w)
  {
    hide LogOk, Passed, FirstOpe, LastOpe, Filed, Walked;
    LogStays(trees[s.key], trees'[s.key], s.at, w.log);
    if w.made != [] {
      PassedStays(trees[s.key], trees'[s.key], s.at, s.value);
    }
  }

  lemma OriginStays(trees: Forest, trees': Forest, stored: Stored, o: Origin)
    requires OriginOk(trees, stored, o)
    requires o.place.Some? ==> o.place.value.key in trees && o.place.value.key in trees' &&
                               Same(trees[o.place.value.key], trees'[o.place.value.key])
    ensures OriginOk(trees', stored, o)
  {
    hide LogOk, Passed, FirstOpe, LastOpe, Filed, Code, Decimal.Print, Tail;
    if o.place.Some? {
      var Place(key, path) := o.place.value;
      LogStays(trees[key], trees'[key], path, o.walk.log);
      if o.walk.made != [] {
        PassedStays(trees[key], trees'[key], path[..|path| - 1], Filed(o.walk.submitted.row));
      }
    }
  }

  lemma WalkKey(trees: Forest, s: Session, w: Walk)
    requires WalkOk(trees, s, w)
    ensures s.key in trees
  {
  }

  lemma OriginKey(trees: Forest, stored: Stored, o: Origin)
    requires OriginOk(trees, stored, o)
    ensures o.place.Some? ==> o.place.value.key in trees
  {
  }

  lemma GrownKeepsWalks(
    trees: Forest, trees': Forest, key: Str, path: Path, v: Str,
    sessions: map<nat, Option<Session>>, walks: map<nat, Walk>)
    requires Grown(trees, trees', key, path, v) && WalksOk(trees, sessions, walks)
    ensures WalksOk(trees', sessions, walks)
  {
    hide Grown, WalkOk, Same;
    forall id | id in sessions && sessions[id].Some?
      ensures id in walks && WalkOk(trees', sessions[id].value, walks[id])
    {
      WalkKey(trees, sessions[id].value, walks[id]);
      GrownKeeps(trees, trees', key, path, v, sessions[id].value.key);
      WalkStays(trees, trees', sessions[id].value, walks[id]);
    }
  }

  lemma GrownKeepsOrigins(
    trees: Forest, trees': Forest, key: Str, path: Path, v: Str, rows: seq<Stored>, origins: seq<Origin>)
    requires Grown(trees, trees', key, path, v) && OriginsOk(trees, rows, origins)
    ensures OriginsOk(trees', rows, origins)
  {
    hide Grown, OriginOk, Same;
    forall i | 0 <= i < |rows| ensures OriginOk(trees', rows[i], origins[i]) {
      OriginKey(trees, rows[i], origins[i]);
      if origins[i].place.Some? {
        GrownKeeps(trees, trees', key, path, v, origins[i].place.value.key);
      }
      OriginStays(trees, trees', rows[i], origins[i]);
    }
  }

  lemma OneMoreRow(trees: Forest, rows: seq<Stored>, origins: seq<Origin>, stored: Stored, o: Origin)
    requires OriginsOk(trees, rows, origins) && OriginOk(trees, stored, o)
    ensures OriginsOk(trees, rows + [stored], origins + [o])
  {
    hide OriginOk;
  }

  lemma OneMoreWalk(
    trees: Forest, sessions: map<nat, Option<Session>>, walks: map<nat, Walk>, id: nat, s: Session, w: Walk)
    requires WalksOk(trees, sessions, walks) && WalkOk(trees, s, w)
    ensures WalksOk(trees, sessions[id := Some(s)], walks[id := w])
  {
    hide WalkOk;
  }

  lemma FewerWalks(trees: Forest, sessions: map<nat, Option<Session>>, walks: map<nat, Walk>, id: nat)
    requires WalksOk(trees, sessions, walks)
    ensures WalksOk(trees, sessions - {id}, walks)
  {
    hide WalkOk;
  }

  lemma SoundParts(t: Trace)
    requires Sound(t)
    ensures TreesOk(t.server.trees)
    ensures WalksOk(t.server.trees, t.server.sessions, t.walks)
    ensures OriginsOk(t.server.trees, t.server.rows, t.origins)
  {
  }

  lemma SameRow(row: Row)
    ensures SameBut(row, row)
  {
  }

  // ---- A first request ----

  lemma PlainKeepsSound(t: Trace, r: Request)
    requires Sound(t) && r.First? && Defined(t, r) && FirstOpe(r.row).None?
    ensures Sound(Step(t, r))
  {
    hide TreesOk, WalksOk, OriginsOk, LastOpe;
    var submitted := Stored(r.database, r.table, r.row);
    OneMoreRow(t.server.trees, t.server.rows, t.origins, submitted, Origin(None, Opened(submitted)));
  }

  lemma OpenedOk(trees: Forest, s: Session, submitted: Stored)
    requires s.key in trees && [] in trees[s.key] && s.key == TableKey(s.database, s.table)
    requires submitted == Stored(s.database, s.table, s.row) && FirstOpe(s.row).Some? && s.value == Filed(s.row)
    requires s.at == [] && s.code == 0 && s.length == 0
    ensures WalkOk(trees, s, Opened(submitted))
  {
    hide FirstOpe, LastOpe, Filed;
  }

  lemma OpenKeepsSound(t: Trace, r: Request)
    requires Sound(t) && r.First? && Defined(t, r)
    requires FirstOpe(r.row).Some? && TableKey(r.database, r.table) in t.server.trees
    ensures Sound(Step(t, r))
  {
    hide TreesOk, WalksOk, OriginsOk, WalkOk, LastOpe;
    var key, submitted := TableKey(r.database, r.table), Stored(r.database, r.table, r.row);
    var s := Session(key, [], 0, 0, Filed(r.row), r.database, r.table, r.row);
    OpenedOk(t.server.trees, s, submitted);
    OneMoreWalk(t.server.trees, t.server.sessions, t.walks, r.id, s, Opened(submitted));
  }

  lemma RootOriginOk(trees: Forest, r: Stored, key: Str)
    requires FirstOpe(r.row).Some? && key == TableKey(r.database, r.table)
    requires key in trees && [] in trees[key] && trees[key][[]] == Filed(r.row)
    ensures var row := r.row[FirstOpe(r.row).value := Decimal.Print(ROOT_CODE)];
            OriginOk(trees, r.(row := row), Origin(Some(Place(key, [])), Opened(r)))
  {
    hide LastOpe, Decimal.Print, Code;
    CodeOfRoot();
    assert Tail([], 0) == [];
  }

  lemma RootKeepsSound(t: Trace, r: Request)
    requires Sound(t) && r.First? && Defined(t, r)
    requires FirstOpe(r.row).Some? && TableKey(r.database, r.table) !in t.server.trees
    ensures Sound(Step(t, r))
  {
    hide TreesOk, WalksOk, OriginsOk, OriginOk, Grown, LastOpe, Decimal.Print;
    var key, submitted := TableKey(r.database, r.table), Stored(r.database, r.table, r.row);
    var trees, trees' := t.server.trees, Step(t, r).server.trees;
    RootIsGrown(trees, key, Filed(r.row));
    GrownTrees(trees, trees', key, [], Filed(r.row));
    GrownKeepsWalks(trees, trees', key, [], Filed(r.row), t.server.sessions, t.walks);
    GrownKeepsOrigins(trees, trees', key, [], Filed(r.row), t.server.rows, t.origins);
    RootOriginOk(trees', submitted, key);
    OneMoreRow(trees', t.server.rows, t.origins,
               submitted.(row := r.row[FirstOpe(r.row).value := Decimal.Print(ROOT_CODE)]),
               Origin(Some(Place(key, [])), Opened(submitted)));
  }

  lemma GrownTrees(trees: Forest, trees': Forest, key: Str, path: Path, v: Str)
    requires Grown(trees, trees', key, path, v)
    ensures TreesOk(trees')
  {
  }

  // ---- A continuation ----

  lemma WalkFacts(t: Trace, id: nat)
    requires Sound(t) && Anchored(t.server, id)
    ensures id in t.walks && WalkOk(t.server.trees, t.server.sessions[id].value, t.walks[id])
  {
  }

  lemma NullKeepsSound(t: Trace, r: Request)
    requires Sound(t) && r.Again? && Defined(t, r) && !IsEdge(r.answer)
    ensures Sound(Step(t, r))
  {
    hide TreesOk, OriginsOk, WalkOk;
  }

  /** The traverse after one more edge, before anything else is done to it. */
  lemma LedOk(trees: Forest, s: Session, w: Walk, answer: int)
    requires WalkOk(trees, s, w) && IsEdge(answer)
    requires s.at + [answer == 1] in trees[s.key]
    ensures var right := answer == 1;
            WalkOk(trees, s.(at := s.at + [right], code := PushBit(s.code, right), length := s.length + 1),
                   Led(w, trees[s.key][s.at], answer))
  {
    hide LogOk, Passed, FirstOpe, LastOpe, Filed, Walked, SameBut, OnTheWay, Bits;
    LogStep(trees[s.key], s.at, w.log, answer == 1);
    BitsLed(w.made, s.at, answer == 1);
    WalkedStep(Bits(w.made, s.at), answer == 1);
    if w.made != [] {
      PassedFurther(trees[s.key], s.at, answer == 1, s.value);
    }
  }

  lemma DescendKeepsSound(t: Trace, r: Request)
    requires Sound(t) && r.Again? && Defined(t, r) && IsEdge(r.answer)
    requires Anchored(t.server, r.id)
    requires var s := t.server.sessions[r.id].value; s.at + [r.answer == 1] in t.server.trees[s.key]
    ensures Sound(Step(t, r))
  {
    hide TreesOk, WalksOk, OriginsOk, WalkOk, PushBit, LastOpe, Led;
    WalkFacts(t, r.id);
    var s, w := t.server.sessions[r.id].value, t.walks[r.id];
    LedOk(t.server.trees, s, w, r.answer);
    var s' := s.(at := s.at + [r.answer == 1], code := PushBit(s.code, r.answer == 1), length := s.length + 1);
    OneMoreWalk(t.server.trees, t.server.sessions, t.walks, r.id, s',
                Led(w, t.server.trees[s.key][s.at], r.answer));
  }

  lemma CellReplaced(row: Row, row': Row, field: Str, cell: Str)
    requires row'.Keys == row.Keys && row' - {field} == row - {field}
    ensures row'[field := cell] == row[field := cell]
    ensures (row'[field := cell]) - {field} == row - {field}
  {
    forall f | f in row && f != field ensures f in row' && row'[f] == row[f] {
      assert f in row - {field} && (row - {field})[f] == (row' - {field})[f];
    }
  }

  /** The row a traverse stores, whether or not it has stored one before. */
  lemma RowCompleted(row: Row, row': Row, code: nat)
    requires SameBut(row, row')
    ensures CompletedRow(row', code) == row[LastOpe(row) := Decimal.Print(code)]
    ensures FirstOpe(row).Some? ==> SameBut(row, CompletedRow(row', code))
  {
    hide Decimal.Print, FirstOpeIn, LastOpeIn, SortedKeys, Own;
    OpeFieldsMeaning(row);
    assert LastOpe(row') == LastOpe(row);
    CellReplaced(row, row', LastOpe(row), Decimal.Print(code));
  }

  /** What a traverse leaves when it makes a node: the new row, and itself with a sealed register. */
  lemma MadeOk(trees: Forest, s: Session, w: Walk)
    requires WalkOk(trees, s, w) && 0 < s.length <= MAX_DEPTH && trees[s.key][s.at] == s.value
    requires w.made != [] ==> Passed(trees[s.key], s.at[..|s.at| - 1], s.value)
    ensures var code := Seal(s.code, s.length);
            var stored := Stored(s.database, s.table, CompletedRow(s.row, code));
            && OriginOk(trees, stored, Origin(Some(Place(s.key, s.at)), w))
            && WalkOk(trees, s.(code := code, row := stored.row), Finished(w, s.at))
  {
    hide LogOk, FirstOpe, LastOpe, Filed, Walked, Seal, Code;
    hide Decimal.Print, Tail, SameBut, CompletedRow, SealedBits, OnTheWay, Bits;
    var code := Seal(s.code, s.length);
    BitsFinished(w.made, s.at);
    SealIsCodeOfTail(Bits(w.made, s.at), s.length);
    SealIsBits(Bits(w.made, s.at), s.length);
    RowCompleted(w.submitted.row, s.row, code);
    assert s.at[..|s.at|] == s.at;
    assert Passed(trees[s.key], s.at, s.value);
  }

  lemma MakeStep(t: Trace, r: Request)
    requires r.Again? && Defined(t, r) && IsEdge(r.answer) && Anchored(t.server, r.id)
    requires var s := t.server.sessions[r.id].value; s.at + [r.answer == 1] !in t.server.trees[s.key]
    ensures var s, t' := t.server.sessions[r.id].value, Step(t, r);
            var at, length := s.at + [r.answer == 1], s.length + 1;
            var code := Seal(PushBit(s.code, r.answer == 1), length);
            var row, walk := CompletedRow(s.row, code), Led(t.walks[r.id], t.server.trees[s.key][s.at], r.answer);
            && t'.server.trees == t.server.trees[s.key := t.server.trees[s.key][at := s.value]]
            && t'.server.sessions ==
                 t.server.sessions[r.id := Some(s.(at := at, code := code, length := length, row := row))]
                 - {r.requestId}
            && t'.walks == t.walks[r.id := Finished(walk, at)]
            && t'.server.rows == t.server.rows + [Stored(s.database, s.table, row)]
            && t'.origins == t.origins + [Origin(Some(Place(s.key, at)), walk)]
  {
    hide PushBit, Seal, CompletedRow, Led, Finished;
  }

  lemma MakeKeepsSound(t: Trace, r: Request)
    requires Sound(t) && r.Again? && Defined(t, r) && IsEdge(r.answer)
    requires Anchored(t.server, r.id)
    requires var s := t.server.sessions[r.id].value; s.at + [r.answer == 1] !in t.server.trees[s.key]
    ensures Sound(Step(t, r))
  {
    hide TreesOk, WalksOk, OriginsOk, WalkOk, OriginOk, Grown, Step;
    hide PushBit, Seal, CompletedRow, Finished, Passed, LogOk;
    WalkFacts(t, r.id);
    var s, w, right := t.server.sessions[r.id].value, t.walks[r.id], r.answer == 1;
    WalkPlace(t.server.trees, s, w);
    var at, trees, key := s.at + [right], t.server.trees, s.key;
    var trees' := trees[key := trees[key][at := s.value]];
    assert at[..|at| - 1] == s.at;
    MakeStep(t, r);
    CreateIsGrown(trees, key, at, s.value);
    GrownTrees(trees, trees', key, at, s.value);
    GrownKeeps(trees, trees', key, at, s.value, key);
    GrownKeepsWalks(trees, trees', key, at, s.value, t.server.sessions, t.walks);
    GrownKeepsOrigins(trees, trees', key, at, s.value, t.server.rows, t.origins);
    WalkStays(trees, trees', s, w);
    LedOk(trees', s, w, r.answer);
    var s' := s.(at := at, code := PushBit(s.code, right), length := s.length + 1);
    var w' := Led(w, trees[key][s.at], r.answer);
    if w.made != [] {
      FinishedPassed(trees', s, w);
    }
    MadeOk(trees', s', w');
    var code := Seal(s'.code, s'.length);
    var row := CompletedRow(s.row, code);
    OneMoreRow(trees', t.server.rows, t.origins, Stored(s.database, s.table, row), Origin(Some(Place(key, at)), w'));
    OneMoreWalk(trees', t.server.sessions, t.walks, r.id, s'.(code := code, row := row), Finished(w', at));
    FewerWalks(trees', t.server.sessions[r.id := Some(s'.(code := code, row := row))],
               t.walks[r.id := Finished(w', at)], r.requestId);
  }

  lemma WalkPlace(trees: Forest, s: Session, w: Walk)
    requires WalkOk(trees, s, w)
    ensures s.key in trees && s.at in trees[s.key] && s.length == |s.at|
  {
  }

  lemma FinishedPassed(trees: Forest, s: Session, w: Walk)
    requires WalkOk(trees, s, w) && w.made != []
    ensures s.key in trees && Passed(trees[s.key], s.at, s.value)
  {
  }

  lemma StepKeepsSound(t: Trace, r: Request)
    requires Sound(t) && Defined(t, r)
    ensures Sound(Step(t, r))
  {
    hide Sound, Step, FirstOpe;
    match r
    case First(_, database, table, row) =>
      if FirstOpe(row).None? {
        PlainKeepsSound(t, r);
      } else if TableKey(database, table) in t.server.trees {
        OpenKeepsSound(t, r);
      } else {
        RootKeepsSound(t, r);
      }
    case Again(_, id, answer) =>
      if !IsEdge(answer) {
        NullKeepsSound(t, r);
      } else if t.server.sessions[id].value.at + [answer == 1] in t.server.trees[t.server.sessions[id].value.key] {
        DescendKeepsSound(t, r);
      } else {
        MakeKeepsSound(t, r);
      }
  }

  lemma {:induction false} RunKeepsSound(t: Trace, rs: seq<Request>)
    requires Sound(t) && DefinedRun(t, rs)
    ensures Sound(After(t, rs))
    decreases |rs|
  {
    hide Sound, Defined, Step;
    if rs == [] {
    } else {
      StepKeepsSound(t, rs[0]);
      RunKeepsSound(Step(t, rs[0]), rs[1..]);
    }
  }

  lemma NothingSound()
    ensures Sound(NOTHING)
  {
  }

  /** After any requests whatever no tree has a gap, every traverse stands where the answers it was
      given have led it, and every stored row is the one submitted with the code in it that its
      traverse's register makes of the depth of its node. */
  lemma AlwaysSound(rs: seq<Request>)
    requires DefinedRun(NOTHING, rs)
    ensures Sound(After(NOTHING, rs))
  {
    hide Sound;
    NothingSound();
    RunKeepsSound(NOTHING, rs);
  }

  /** After any requests whatever a first request is defined, and a continuation with an edge exactly
      when its id has a traverse, finished or not, that finds a node there or room below depth 63: no
      traverse ever points out of its tree. */
  lemma DefinedExactly(rs: seq<Request>, r: Request)
    requires DefinedRun(NOTHING, rs)
    ensures r.First? ==> Defined(After(NOTHING, rs), r)
    ensures var s := After(NOTHING, rs).server;
            r.Again? ==>
              (Defined(After(NOTHING, rs), r) <==>
               (r.answer == 1 || r.answer == -1 ==>
                  && r.id in s.sessions && s.sessions[r.id].Some?
                  && var t := s.sessions[r.id].value;
                     && t.key in s.trees
                     && (t.at + [r.answer == 1] in s.trees[t.key] || |t.at| < 63)))
  {
    hide DefinedRun, After, OriginsOk, LogOk, FirstOpe;
    AlwaysSound(rs);
    var s := After(NOTHING, rs).server;
    if r.Again? && r.id in s.sessions && s.sessions[r.id].Some? {
      WalkAnchored(s.trees, s.sessions[r.id].value, After(NOTHING, rs).walks[r.id]);
    }
  }

  lemma WalkAnchored(trees: Forest, s: Session, w: Walk)
    requires WalkOk(trees, s, w)
    ensures s.key in trees && s.at in trees[s.key] && s.length == |s.at|
  {
  }

  // ---- The order of truthful rows ----

  lemma OriginFacts(t: Trace, i: nat)
    requires Sound(t) && i < |t.origins|
    ensures |t.origins| == |t.server.rows| && OriginOk(t.server.trees, t.server.rows[i], t.origins[i])
    ensures t.origins[i].place.Some? ==>
              var key := t.origins[i].place.value.key;
              key in t.server.trees && Rooted(t.server.trees[key]) && Shallow(t.server.trees[key])
  {
    hide LogOk, FirstOpe, LastOpe, Filed, Code, Decimal.Print, Tail, Passed;
    var o := t.origins[i];
    assert OriginOk(t.server.trees, t.server.rows[i], o);
  }

  lemma PassedIsUntruthful(before: (Str, Str) -> bool, t: Tree, p: Path, log: seq<Asked>, v: Str)
    requires StrictTotalOrder(before) && LogOk(t, p, log)
    requires p != [] && Passed(t, p[..|p| - 1], v)
    ensures !Truthful(before, v, log)
  {
    var above := p[..|p| - 1];
    var n :| 0 <= n <= |above| && above[..n] in t && t[above[..n]] == v;
    assert p[..n] == above[..n];
    assert log[n].shown == v && log[n].answer != 0;
    assert Answer(before, v, v) == 0;
  }

  /** Answers that are all truthful about a value end at the node that holds it; a traverse that goes
      on from there has been given another. */
  lemma TruthfulMakesOneNode(before: (Str, Str) -> bool, trees: Forest, stored: Stored, o: Origin)
    requires StrictTotalOrder(before) && OriginOk(trees, stored, o) && o.place.Some?
    requires Truthful(before, Filed(o.walk.submitted.row), o.walk.log)
    ensures o.walk.made == []
  {
    hide FirstOpe, LastOpe, Filed, Code, Decimal.Print, Tail, LogOk, Passed, Truthful;
    if o.walk.made != [] {
      var Place(key, path) := o.place.value;
      PassedIsUntruthful(before, trees[key], path, o.walk.log, Filed(o.walk.submitted.row));
    }
  }

  /** The cell of a row with one "_ope" field. */
  lemma OriginCell(t: Trace, i: nat, field: Str)
    requires Sound(t) && i < |t.origins| && SingleOpe(t.origins[i].walk.submitted.row, field)
    ensures |t.origins| == |t.server.rows| && t.origins[i].place.Some?
    ensures var o := t.origins[i];
            var Place(key, path) := o.place.value;
            && key == TableKey(o.walk.submitted.database, o.walk.submitted.table)
            && key in t.server.trees && path in t.server.trees[key]
            && t.server.trees[key][path] == o.walk.submitted.row[field]
            && OnTheWay(o.walk.made, path) && |path| <= MAX_DEPTH
            && field in t.server.rows[i].row
            && Decimal.Value(t.server.rows[i].row[field]) == Code(Spelled(o.walk.made, path))
  {
    hide Sound, LogOk, Passed, FirstOpe, LastOpe, Filed, Code, Decimal.Print, Decimal.Value, SingleOpe, Tail;
    OriginFacts(t, i);
    var o := t.origins[i];
    SingleOpeIsBoth(o.walk.submitted.row, field);
    var Place(key, path) := o.place.value;
    Decimal.PrintValue(Code(Spelled(o.walk.made, path)));
  }

  lemma TruthfulSide(before: (Str, Str) -> bool, t: Trace, i: nat, field: Str)
    requires StrictTotalOrder(before) && Sound(t)
    requires i < |t.origins| && SingleOpe(t.origins[i].walk.submitted.row, field)
    requires Truthful(before, t.origins[i].walk.submitted.row[field], t.origins[i].walk.log)
    ensures t.origins[i].place.Some?
    ensures var Place(key, path) := t.origins[i].place.value;
            && key in t.server.trees && path in t.server.trees[key] && t.origins[i].walk.made == []
            && OnSide(before, t.server.trees[key], path, t.server.trees[key][path])
  {
    hide Sound, StrictTotalOrder, LogOk, Passed, FirstOpe, LastOpe;
    hide Filed, Code, Decimal.Print, SingleOpe, Truthful, OnSide;
    hide Tail;
    OriginFacts(t, i);
    OriginCell(t, i, field);
    var o := t.origins[i];
    SingleOpeIsBoth(o.walk.submitted.row, field);
    TruthfulMakesOneNode(before, t.server.trees, t.server.rows[i], o);
    var Place(key, path) := o.place.value;
    TruthIsSide(before, t.server.trees[key], path, o.walk.log, Filed(o.walk.submitted.row));
  }

  lemma WholeTail(p: Path)
    ensures Tail(p, |p|) == p
  {
  }

  /** The stored codes of two rows of one table whose traverses were given only truthful answers about
      their own values, read as numbers, are ordered exactly as the values, whatever other requests
      the server gets, from whomever, under whatever ids and however many a traverse. */
  lemma TruthfulCodesFollowOrder(
    before: (Str, Str) -> bool, rs: seq<Request>, i: nat, j: nat, fi: Str, fj: Str)
    requires StrictTotalOrder(before) && DefinedRun(NOTHING, rs)
    requires var t := After(NOTHING, rs);
             && i < |t.origins| && j < |t.origins|
             && var a, b := t.origins[i].walk, t.origins[j].walk;
             && SingleOpe(a.submitted.row, fi) && SingleOpe(b.submitted.row, fj)
             && a.submitted.database == b.submitted.database && a.submitted.table == b.submitted.table
             && Truthful(before, a.submitted.row[fi], a.log) && Truthful(before, b.submitted.row[fj], b.log)
    ensures var t := After(NOTHING, rs);
            && |t.server.rows| == |t.origins|
            && fi in t.server.rows[i].row && fj in t.server.rows[j].row
            && (Decimal.Value(t.server.rows[i].row[fi]) < Decimal.Value(t.server.rows[j].row[fj]) <==>
                before(t.origins[i].walk.submitted.row[fi], t.origins[j].walk.submitted.row[fj]))
  {
    hide Sound, StrictTotalOrder, DefinedRun, After, Truthful, OnSide, SingleOpe, Decimal.Value, Code, Rooted, Shallow;
    hide Tail;
    AlwaysSound(rs);
    var t := After(NOTHING, rs);
    OriginCell(t, i, fi);
    OriginCell(t, j, fj);
    TruthfulSide(before, t, i, fi);
    TruthfulSide(before, t, j, fj);
    var Place(key, p) := t.origins[i].place.value;
    var Place(_, q) := t.origins[j].place.value;
    WholeTail(p);
    WholeTail(q);
    OriginFacts(t, i);
    CodeOrderIsValueOrder(before, t.server.trees[key], p, q);
  }

  // ---- When the stored code is that of the node ----

  lemma CodeSpelled(t: Trace, i: nat, path: Path)
    requires Sound(t) && i < |t.origins| && t.origins[i].place.Some? && t.origins[i].place.value.path == path
    ensures var row := t.origins[i].walk.submitted.row;
            && |t.server.rows| == |t.origins|
            && |path| <= MAX_DEPTH && OnTheWay(t.origins[i].walk.made, path)
            && CodeField(row, path) in t.server.rows[i].row
            && Decimal.Value(t.server.rows[i].row[CodeField(row, path)]) ==
                 Code(Spelled(t.origins[i].walk.made, path))
  {
    hide Sound, LogOk, Passed, FirstOpe, LastOpe, Filed, Code, Decimal.Print, Decimal.Value, Tail;
    OriginFacts(t, i);
    Decimal.PrintValue(Code(Spelled(t.origins[i].walk.made, path)));
  }

  /** Of every stored "_ope" row: the code in it is that of its node exactly when the last bits of the
      traverse's register, as many as the node is deep, spell the path of the node. What they spell
      depends only on the nodes the traverse had made before; they are right if it had made none. */
  lemma CodeIsNodesExactly(rs: seq<Request>, i: nat)
    requires DefinedRun(NOTHING, rs)
    requires i < |After(NOTHING, rs).origins| && After(NOTHING, rs).origins[i].place.Some?
    ensures var t := After(NOTHING, rs);
            var o := t.origins[i];
            var path, row := o.place.value.path, o.walk.submitted.row;
            && |t.server.rows| == |t.origins|
            && |path| <= MAX_DEPTH && OnTheWay(o.walk.made, path)
            && CodeField(row, path) in t.server.rows[i].row
            && (Decimal.Value(t.server.rows[i].row[CodeField(row, path)]) == Code(path) <==>
                Spelled(o.walk.made, path) == path)
            && (o.walk.made == [] ==> Spelled(o.walk.made, path) == path)
  {
    hide Sound, DefinedRun, After, FirstOpe, LastOpe, Code, Decimal.Value, Tail;
    AlwaysSound(rs);
    var t := After(NOTHING, rs);
    var o := t.origins[i];
    var path := o.place.value.path;
    CodeSpelled(t, i, path);
    CodeInjective(path);
    CodeInjective(Spelled(o.walk.made, path));
    WholeTail(path);
  }

  /** A node above p where the register was sealed, and the edges from there to p. */
  lemma SpelledAfterOne(p: Path, path: Path)
    requires OnTheWay([p], path)
    ensures |p| <= MAX_DEPTH && p <= path
    ensures Spelled([p], path) == path <==> Tail(SealedBits(p, |p|), |p|) == p
  {
    hide SealedBits, Tail;
    var made := [p];
    assert made[..0] == [] && made[0] == p;
    assert Bits([], p) == p;
    assert Bits(made, path) == SealedBits(p, |p|) + path[|p|..];
    assert path == p + path[|p|..] && |path| == |p| + |path[|p|..]|;
    SpellsItsPath(p, path[|p|..]);
  }

  /** The second node of a traverse that made its first one at p: the code in its row is that of the
      node if and only if p is the last bits of its own code, which down to depth 31 means that p has
      only turned left. */
  lemma SecondNode(rs: seq<Request>, i: nat, p: Path)
    requires DefinedRun(NOTHING, rs)
    requires i < |After(NOTHING, rs).origins| && After(NOTHING, rs).origins[i].place.Some?
    requires After(NOTHING, rs).origins[i].walk.made == [p]
    ensures var t := After(NOTHING, rs);
            var path, row := t.origins[i].place.value.path, t.origins[i].walk.submitted.row;
            && |t.server.rows| == |t.origins| && |path| <= MAX_DEPTH && p <= path
            && CodeField(row, path) in t.server.rows[i].row
            && (Decimal.Value(t.server.rows[i].row[CodeField(row, path)]) == Code(path) <==>
                Tail(SealedBits(p, |p|), |p|) == p)
            && (|p| <= 31 ==> (Tail(SealedBits(p, |p|), |p|) == p <==> p == Zeros(|p|)))
  {
    hide DefinedRun, After, FirstOpe, LastOpe, Code, Decimal.Value, Tail, SealedBits, Zeros, Spelled, OnTheWay;
    CodeIsNodesExactly(rs, i);
    SpelledAfterOne(p, After(NOTHING, rs).origins[i].place.value.path);
    if |p| <= 31 {
      ShallowSpells(p);
    }
  }

  // ---- An input on which it is not ----

  /** A root, a first request under it, the answer that makes its node at [true], and the same answer
      once more. */
  function Stale(database: Str, table: Str, root: Row, row: Row): seq<Request> {
    [First(0, database, table, root), First(1, database, table, row), Again(2, 1, 1), Again(3, 1, 1)]
  }

  lemma StaleFirst(database: Str, table: Str, root: Row, row: Row)
    requires FirstOpe(root).Some? && FirstOpe(row).Some?
    ensures var rs, key := Stale(database, table, root, row), TableKey(database, table);
            && Defined(NOTHING, rs[0])
            && var t1 := Step(NOTHING, rs[0]);
            && Defined(t1, rs[1])
            && var t2 := Step(t1, rs[1]);
            && t2.server.trees == map[key := map[[] := Filed(root)]]
            && t2.server.sessions == map[1 := Some(Session(key, [], 0, 0, Filed(row), database, table, row))]
            && t2.walks == map[1 := Opened(Stored(database, table, row))]
            && |t2.origins| == 1
  {
    hide FirstOpe, LastOpe, Decimal.Print;
  }

  lemma StaleNode(t: Trace, key: Str, database: Str, table: Str, root: Str, row: Row)
    requires t.server.trees == map[key := map[[] := root]]
    requires t.server.sessions == map[1 := Some(Session(key, [], 0, 0, Filed(row), database, table, row))]
    requires t.walks == map[1 := Opened(Stored(database, table, row))] && |t.origins| == 1
    ensures Defined(t, Again(2, 1, 1))
    ensures var t', at := Step(t, Again(2, 1, 1)), [true];
            && t'.server.trees == map[key := map[[] := root, at := Filed(row)]]
            && 1 in t'.server.sessions && t'.server.sessions[1].Some?
            && var s := t'.server.sessions[1].value;
            && s.key == key && s.at == at && s.length == 1
            && 1 in t'.walks && t'.walks[1].made == [at]
            && t'.walks[1].submitted == Stored(database, table, row) && |t'.origins| == 2
  {
    hide FirstOpe, LastOpe, Decimal.Print, Seal, PushBit, SealedBits, Filed;
    assert [] + [true] == [true];
  }

  lemma StaleSecond(t: Trace, key: Str, root: Str, v: Str)
    requires t.server.trees == map[key := map[[] := root, [true] := v]]
    requires 1 in t.server.sessions && t.server.sessions[1].Some?
    requires var s := t.server.sessions[1].value; s.key == key && s.at == [true] && s.length == 1
    requires 1 in t.walks && t.walks[1].made == [[true]] && |t.origins| == 2
    ensures Defined(t, Again(3, 1, 1))
    ensures var t' := Step(t, Again(3, 1, 1));
            && |t'.origins| == 3
            && t'.origins[2].place == Some(Place(key, [true] + [true]))
            && t'.origins[2].walk.submitted == t.walks[1].submitted
            && t'.origins[2].walk.made == [[true]]
  {
    hide FirstOpe, LastOpe, Decimal.Print, Seal, PushBit, SealedBits;
    assert ([true] + [true])[1] == true;
  }

  lemma RunOfFour(t: Trace, rs: seq<Request>)
    requires |rs| == 4 && Defined(t, rs[0])
    requires var t1 := Step(t, rs[0]);
             && Defined(t1, rs[1])
             && var t2 := Step(t1, rs[1]);
             && Defined(t2, rs[2])
             && var t3 := Step(t2, rs[2]);
                Defined(t3, rs[3])
    ensures DefinedRun(t, rs) && After(t, rs) == Step(Step(Step(Step(t, rs[0]), rs[1]), rs[2]), rs[3])
  {
    hide Step, Defined;
    var t1 := Step(t, rs[0]);
    var t2 := Step(t1, rs[1]);
    var t3 := Step(t2, rs[2]);
    var t4 := Step(t3, rs[3]);
    assert rs[1..][1..] == rs[2..] && rs[2..][1..] == rs[3..] && rs[3..][1..] == [];
    assert DefinedRun(t4, []) && After(t4, []) == t4;
    assert DefinedRun(t3, rs[3..]) && After(t3, rs[3..]) == t4;
    assert DefinedRun(t2, rs[2..]) && After(t2, rs[2..]) == t4;
    assert DefinedRun(t1, rs[1..]) && After(t1, rs[1..]) == t4;
  }

  /** One answer too many: whatever two rows are inserted, the traverse of the second, continued once
      more after it has made its node at [true], makes another at [true, true], and stores its row
      again, with the code that belongs to [false, true]. */
  lemma StaleContinuation(database: Str, table: Str, root: Row, row: Row) returns (rs: seq<Request>)
    requires FirstOpe(root).Some? && FirstOpe(row).Some?
    ensures DefinedRun(NOTHING, rs)
    ensures var t := After(NOTHING, rs);
            && |t.server.rows| == |t.origins| == 3
            && t.origins[2].place == Some(Place(TableKey(database, table), [true, true]))
            && t.origins[2].walk.submitted == Stored(database, table, row)
            && CodeField(row, [true, true]) in t.server.rows[2].row
            && Decimal.Value(t.server.rows[2].row[CodeField(row, [true, true])]) ==
                 Code([false, true]) != Code([true, true])
  {
    hide FirstOpe, LastOpe, Decimal.Print, Decimal.Value, Code, Filed;
    hide Step, Defined, DefinedRun, After, Sound, SealedBits;
    hide Tail;
    var key := TableKey(database, table);
    rs := Stale(database, table, root, row);
    StaleFirst(database, table, root, row);
    var t2 := Step(Step(NOTHING, rs[0]), rs[1]);
    StaleNode(t2, key, database, table, Filed(root), row);
    var t3 := Step(t2, rs[2]);
    StaleSecond(t3, key, Filed(root), Filed(row));
    RunOfFour(NOTHING, rs);
    AlwaysSound(rs);
    CodeSpelled(After(NOTHING, rs), 2, [true, true]);
    StaleTail();
    CodeInjective([false, true]);
    CodeInjective([true, true]);
  }

  lemma StaleTail()
    ensures OnTheWay([[true]], [true, true]) && Spelled([[true]], [true, true]) == [false, true]
  {
    var made, p := [[true]], [true, true];
    assert made[..0] == [] && p[1..] == [true];
    assert Bits(made, p) == SealedBits([true], 1) + [true];
  }

  // ---- Runs of clients are such runs ----

  function RequestFor(a: Action): Request {
    match a
    case Submit(id, database, table, row) => First(id, database, table, row)
    case Respond(requestId, id, answer) => Again(requestId, id, answer)
  }

  function RequestsFor(acts: seq<Action>): seq<Request> {
    if acts == [] then [] else [RequestFor(acts[0])] + RequestsFor(acts[1..])
  }

  lemma ActionIsRequest(w: World, t: Trace, a: Action)
    requires Sound(t) && t.server == w.server && Legal(w, a)
    ensures Defined(t, RequestFor(a)) && Step(t, RequestFor(a)).server == Next(w, a).server
  {
    hide Sound, AddStep, ContinueStep, FirstOpe;
    if a.Respond? && IsEdge(a.answer) {
      WalkFacts(t, a.id);
    }
  }

  /** Every run of clients is a run of requests, on the same server. */
  lemma {:induction false} RunsAreRequests(w: World, t: Trace, acts: seq<Action>)
    requires Sound(t) && t.server == w.server && LegalRun(w, acts)
    ensures DefinedRun(t, RequestsFor(acts))
    ensures After(t, RequestsFor(acts)).server == Exec(w, acts).server
    decreases |acts|
  {
    hide Sound, Legal, Next, Defined, Step;
    if acts == [] {
    } else {
      var rs := RequestsFor(acts);
      assert rs[0] == RequestFor(acts[0]) && rs[1..] == RequestsFor(acts[1..]);
      ActionIsRequest(w, t, acts[0]);
      StepKeepsSound(t, rs[0]);
      RunsAreRequests(Next(w, acts[0]), Step(t, rs[0]), acts[1..]);
    }
  }
}
