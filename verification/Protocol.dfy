/** What one request does to the server: its index trees, its open traverses and its tables.
    The steps are exact for any client, honest or not. */
module Protocol {
  import opened Strings
  import opened PathCode
  import opened SearchTree
  import Decimal

  /** A `BTreeTraverse`: where it stands, the bits it has collected, and the request it serves. */
  datatype Session = Session(
    key: Str, at: Path,
    code: nat, length: nat,
    value: Str, database: Str, table: Str, row: Row)

  datatype Stored = Stored(database: Str, table: Str, row: Row)

  datatype Reply = AddOk | AddTraverse(initRequestId: nat, ciphertext: Str)

  /** A traverse slot is None where `operator[]` has inserted a null pointer. */
  datatype Server = Server(
    trees: map<Str, Tree>,
    sessions: map<nat, Option<Session>>,
    rows: seq<Stored>)

  const EMPTY: Server := Server(map[], map[], [])

  /** The root's code, 9223372036854775808. */
  const ROOT_CODE: nat := 0x8000_0000_0000_0000

  /** "." */
  const DOT: Str := [46]

  function TableKey(database: Str, table: Str): (k: Str) {
    database + DOT + table
  }

  /** Database names without a dot give every table a tree of its own ... */
  lemma TableKeyInjective(db: Str, table: Str, db': Str, table': Str)
    requires 46 !in db && 46 !in db'
    ensures TableKey(db, table) == TableKey(db', table') <==> db == db' && table == table'
  {
    var k, k' := TableKey(db, table), TableKey(db', table');
    assert k[|db|] == 46 && k'[|db'|] == 46;
    assert k[..|db|] == db && k'[..|db'|] == db';
    assert k[|db| + 1..] == table && k'[|db'| + 1..] == table';
    assert |db| < |db'| ==> k'[|db|] == db'[|db|];
    assert |db'| < |db| ==> k[|db'|] == db[|db'|];
  }

  /** In general two tables share a tree exactly when one database name is the other, a dot and
      the beginning of the other's table name up to a dot. */
  lemma TablesShareTree(db: Str, table: Str, db': Str, table': Str)
    requires |db| <= |db'|
    ensures TableKey(db, table) == TableKey(db', table') <==>
            (db == db' && table == table') ||
            (db + DOT <= db' && table == db'[|db| + 1..] + DOT + table')
  {
    var k, k' := TableKey(db, table), TableKey(db', table');
    assert k[..|db|] == db && k[|db|] == 46 && k[|db| + 1..] == table;
    assert k == k[..|db|] + DOT + k[|db| + 1..];
    if |db| == |db'| {
      assert k'[..|db'|] == db' && k'[|db'| + 1..] == table';
    } else {
      assert k'[..|db|] == db'[..|db|] && k'[|db|] == db'[|db|];
      assert k'[|db| + 1..] == db'[|db| + 1..] + DOT + table';
      assert k' == k'[..|db|] + [k'[|db|]] + k'[|db| + 1..];
      assert db + DOT <= db' <==> db'[..|db|] == db && db'[|db|] == 46;
    }
  }

  /** ... and with dots two tables can share one: "a"."b.c" and "a.b"."c". */
  lemma TableKeyCollision()
    ensures TableKey([97], [98, 46, 99]) == TableKey([97, 46, 98], [99])
  {
    assert TableKey([97], [98, 46, 99]) == [97, 46, 98, 46, 99];
  }

  /** `OnRequestAdd`. */
  function AddStep(s: Server, id: nat, database: Str, table: Str, row: Row): (r: (Server, Reply))
    requires forall k | k in s.trees :: [] in s.trees[k]
  {
    match FirstOpe(row)
    case None => (s.(rows := s.rows + [Stored(database, table, row)]), AddOk)
    case Some(field) =>
      OpeFieldsMeaning(row);
      var key := TableKey(database, table);
      if key !in s.trees then
        (s.(trees := s.trees[key := map[[] := row[field]]],
            rows := s.rows + [Stored(database, table, row[field := Decimal.Print(ROOT_CODE)])]),
         AddOk)
      else
        (s.(sessions := s.sessions[id := Some(Session(key, [], 0, 0, row[field], database, table, row))]),
         AddTraverse(id, s.trees[key][[]]))
  }

  /** A traverse that holds a live pointer into a tree. */
  predicate Anchored(s: Server, id: nat) {
    && id in s.sessions && s.sessions[id].Some?
    && var session := s.sessions[id].value;
       session.key in s.trees && session.at in s.trees[session.key]
  }

  /** When a continuation has a defined effect: a comparison of -1 or 1 dereferences the traverse,
      and creating a node shifts by 63 minus the length, which must not be negative. */
  predicate ContinueDefined(s: Server, initId: nat, answer: int) {
    answer == -1 || answer == 1 ==>
      && Anchored(s, initId)
      && var session := s.sessions[initId].value;
         session.at + [answer == 1] in s.trees[session.key] || session.length < MAX_DEPTH
  }

  /** The null pointer that looking up an unknown id leaves in the holder. */
  function Looked(sessions: map<nat, Option<Session>>, id: nat): map<nat, Option<Session>> {
    if id in sessions then sessions else sessions[id := None]
  }

  /** The completed row: the code replaces the ciphertext of the last "_ope" field. */
  function CompletedRow(row: Row, code: nat): Row {
    row[LastOpe(row) := Decimal.Print(code)]
  }

  /** `OnRequestAddContinue`. The traverse removed on completion is the one filed under the id
      of the continuing request. */
  function ContinueStep(s: Server, id: nat, initId: nat, answer: int): (r: (Server, Reply))
    requires ContinueDefined(s, initId, answer)
  {
    var sessions := Looked(s.sessions, initId);
    if answer != -1 && answer != 1 then
      (s.(sessions := sessions), AddOk)
    else
      var session := s.sessions[initId].value;
      var right := answer == 1;
      var tree := s.trees[session.key];
      var moved := session.(at := session.at + [right],
                            code := PushBit(session.code, right),
                            length := session.length + 1);
      if moved.at in tree then
        (s.(sessions := sessions[initId := Some(moved)]), AddTraverse(initId, tree[moved.at]))
      else
        var code := Seal(moved.code, moved.length);
        var row := CompletedRow(session.row, code);
        (s.(trees := s.trees[session.key := tree[moved.at := session.value]],
            sessions := sessions[initId := Some(moved.(code := code, row := row))] - {id},
            rows := s.rows + [Stored(session.database, session.table, row)]),
         AddOk)
  }

  // ---- What holds for arbitrary clients ----

  /** Every tree has no gaps and every traverse stands on a node. */
  ghost predicate Linked(s: Server) {
    && (forall k | k in s.trees :: Rooted(s.trees[k]))
    && (forall id | id in s.sessions && s.sessions[id].Some? :: Anchored(s, id))
  }

  lemma RootAlone(v: Str)
    ensures Rooted(map[[] := v])
  {
  }

  lemma RootsThere(s: Server)
    requires Linked(s)
    ensures forall k | k in s.trees :: [] in s.trees[k]
  {
  }

  lemma AddKeepsLinked(s: Server, id: nat, database: Str, table: Str, row: Row)
    requires Linked(s)
    ensures Linked(AddStep(s, id, database, table, row).0)
  {
    hide FirstOpe, LastOpe, Rooted, Decimal.Print;
    OpeFieldsMeaning(row);
    RootsThere(s);
    if FirstOpe(row).Some? {
      RootAlone(row[FirstOpe(row).value]);
    }
  }

  lemma ContinueKeepsLinked(s: Server, id: nat, initId: nat, answer: int)
    requires Linked(s) && ContinueDefined(s, initId, answer)
    ensures Linked(ContinueStep(s, id, initId, answer).0)
  {
    var s' := ContinueStep(s, id, initId, answer).0;
    if answer == -1 || answer == 1 {
      var session := s.sessions[initId].value;
      var tree := s.trees[session.key];
      var at := session.at + [answer == 1];
      if at !in tree {
        var tree' := tree[at := session.value];
        forall p, n | p in tree' && 0 <= n <= |p| ensures p[..n] in tree' {
          if p == at && n <= |session.at| {
            assert p[..n] == session.at[..n];
          } else if n == |p| {
            assert p[..n] == p;
          }
        }
      }
    }
  }

  /** Whatever a client answers, nodes, their ciphertexts and stored rows are never changed or lost. */
  lemma ContinueOnlyGrows(s: Server, id: nat, initId: nat, answer: int)
    requires ContinueDefined(s, initId, answer)
    ensures var s' := ContinueStep(s, id, initId, answer).0;
            && s.rows <= s'.rows
            && (forall k | k in s.trees :: k in s'.trees && s.trees[k].Items <= s'.trees[k].Items)
  {
    if answer == -1 || answer == 1 {
      var session := s.sessions[initId].value;
      var tree := s.trees[session.key];
      var at := session.at + [answer == 1];
      if at !in tree {
        assert tree.Items <= tree[at := session.value].Items;
      }
    }
  }

  /** What a continuation reported as done leaves in the holder. An answer that creates a node
      takes out the traverse filed under the continuing request's id, so a finished traverse goes
      exactly when that id is its own; an answer of equality takes out nothing, whatever the id. */
  lemma CompletionRemoves(s: Server, id: nat, initId: nat, answer: int)
    requires ContinueDefined(s, initId, answer)
    requires ContinueStep(s, id, initId, answer).1.AddOk?
    ensures var s' := ContinueStep(s, id, initId, answer).0;
            && s'.sessions.Keys ==
                 (if answer == 1 || answer == -1 then s.sessions.Keys - {id} else s.sessions.Keys + {initId})
            && (initId in s.sessions ==>
                  (initId !in s'.sessions <==> id == initId && (answer == 1 || answer == -1)))
  {
    hide CompletedRow, PushBit, Seal;
  }

  /** The traverse of a duplicate stays even when the last request bears its id, and keeps pointing
      into the tree: here the root of the tree ".", shown to a client with the same value. */
  lemma DuplicateStays() returns (s: Server, id: nat)
    ensures Linked(s) && Anchored(s, id) && ContinueDefined(s, id, 0)
    ensures var session := s.sessions[id].value; session.value == s.trees[session.key][session.at]
    ensures ContinueStep(s, id, id, 0) == (s, AddOk)
  {
    var session := Session(DOT, [], 0, 0, [109], [], [], map[OPE_SUFFIX := [109]]);
    id, s := 7, Server(map[DOT := map[[] := [109]]], map[7 := Some(session)], []);
    RootAlone([109]);
  }
}
