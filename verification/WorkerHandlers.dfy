/** The worker's handlers for the two insert requests, on the heap, against the protocol's steps. */
module WorkerHandlers {
  import opened Strings
  import opened PathCode
  import opened Protocol
  import opened Forest
  import opened BTree
  import opened MessageObjects
  import Decimal

  /** The tables, as the rows handed to `Database::add`. */
  class Database {
    var rows: seq<Stored>

    constructor ()
      ensures rows == []
    {
      rows := [];
    }

    method Add(database: Str, table: Str, row: Row)
      modifies this
      ensures rows == old(rows) + [Stored(database, table, row)]
    {
      rows := rows + [Stored(database, table, row)];
    }
  }

  /** The loop of `OnRequestAdd` over the row: it stops at the first "_ope" field. */
  method FindFirstOpe(row: Row) returns (isOpe: bool, field: Str)
    ensures FirstOpe(row) == if isOpe then Some(field) else None
    ensures isOpe ==> field in row
  {
    var keys := SortedKeys(row.Keys);
    isOpe, field := false, [];
    var i := 0;
    while i < |keys|
      invariant i <= |keys|
      invariant FirstOpeIn(keys) == FirstOpeIn(keys[i..])
    {
      if IsOpe(keys[i]) {
        return true, keys[i];
      }
      i := i + 1;
    }
  }

  lemma LastOpeStart()
    ensures LastOpeIn([]) == []
  {
  }

  lemma LastOpeStep(keys: seq<Str>, i: nat)
    requires i < |keys|
    ensures LastOpeIn(keys[..i + 1]) == if IsOpe(keys[i]) then keys[i] else LastOpeIn(keys[..i])
  {
    assert keys[..i + 1][..i] == keys[..i];
  }

  /** The loop of `OnRequestAddContinue`: it goes through the whole row. */
  method FindLastOpe(row: Row) returns (field: Str)
    ensures field == LastOpe(row)
  {
    hide SortedKeys, LastOpeIn, IsOpe;
    var keys := SortedKeys(row.Keys);
    field := [];
    LastOpeStart();
    for i := 0 to |keys|
      invariant field == LastOpeIn(keys[..i])
    {
      LastOpeStep(keys, i);
      if IsOpe(keys[i]) {
        field := keys[i];
      }
    }
    assert keys[..|keys|] == keys;
  }

  /** The session and the server after one edge; without a step a new node is sealed and linked. */
  function Moved(s: Session, right: bool, step: bool): Session
    requires step || s.length < MAX_DEPTH
  {
    var code := PushBit(s.code, right);
    s.(at := s.at + [right], code := if step then code else Seal(code, s.length + 1), length := s.length + 1)
  }

  function Advanced(s: Server, id: nat, right: bool, step: bool): Server
    requires Anchored(s, id) && (step || s.sessions[id].value.length < MAX_DEPTH)
  {
    var session := s.sessions[id].value;
    s.(trees := if step then s.trees
                else s.trees[session.key := s.trees[session.key][session.at + [right] := session.value]],
       sessions := s.sessions[id := Some(Moved(session, right, step))])
  }

  predicate LeadsToNode(s: Server, id: nat, right: bool)
    requires Anchored(s, id)
  {
    s.sessions[id].value.at + [right] in s.trees[s.sessions[id].value.key]
  }

  /** The protocol's step when the edge leads to a node. */
  lemma StepTaken(s: Server, requestId: nat, id: nat, right: bool)
    requires Anchored(s, id) && LeadsToNode(s, id, right)
    ensures var session := s.sessions[id].value;
            ContinueStep(s, requestId, id, if right then 1 else -1) ==
            (Advanced(s, id, right, true), AddTraverse(id, s.trees[session.key][session.at + [right]]))
  {
  }

  /** The server when the code of a completed traverse has been stored. */
  function CodeStored(s: Server, id: nat): Server
    requires id in s.sessions && s.sessions[id].Some?
  {
    var session := s.sessions[id].value;
    var row := CompletedRow(session.row, session.code);
    s.(sessions := s.sessions[id := Some(session.(row := row))],
       rows := s.rows + [Stored(session.database, session.table, row)])
  }

  lemma DepthDefined(s: Server, id: nat, right: bool)
    requires Anchored(s, id) && ContinueDefined(s, id, if right then 1 else -1)
    ensures LeadsToNode(s, id, right) || s.sessions[id].value.length < MAX_DEPTH
  {
  }

  /** A traverse that has taken an edge stands on a node; with a step, on the one that was there. */
  lemma AdvancedAnchored(s: Server, id: nat, right: bool, step: bool)
    requires Anchored(s, id) && (step || s.sessions[id].value.length < MAX_DEPTH)
    requires step <==> LeadsToNode(s, id, right)
    ensures var s' := Advanced(s, id, right, step);
            && Anchored(s', id)
            && var session, session' := s.sessions[id].value, s'.sessions[id].value;
               session'.key == session.key && session'.at == session.at + [right] &&
               (step ==> s'.trees == s.trees)
  {
  }

  /** The protocol's step when it does not. */
  lemma LeafMade(s: Server, requestId: nat, id: nat, right: bool)
    requires Anchored(s, id) && !LeadsToNode(s, id, right) && s.sessions[id].value.length < MAX_DEPTH
    ensures var stored := CodeStored(Advanced(s, id, right, false), id);
            ContinueStep(s, requestId, id, if right then 1 else -1) ==
            (stored.(sessions := stored.sessions - {requestId}), AddOk)
  {
    hide CompletedRow, PushBit, Seal;
    var stored := CodeStored(Advanced(s, id, right, false), id);
    assert stored.sessions == s.sessions[id := stored.sessions[id]];
  }

  class Worker {
    const forest: BTreeForest
    const holder: BTreeTraverseHolder
    const database: Database

    /** The traverses ever opened, and the requests they serve. */
    ghost var walks: set<BTreeTraverse>
    ghost var requests: set<RequestAdd>

    constructor ()
      ensures Valid() && fresh(forest) && fresh(holder) && fresh(database) && Abs() == EMPTY
      ensures forest.all == {} && walks == {} && requests == {}
    {
      forest := new BTreeForest();
      holder := new BTreeTraverseHolder();
      database := new Database();
      walks, requests := {}, {};
    }

    /** A traverse of the holder stands in the forest and owns its request. */
    ghost predicate Live(t: BTreeTraverse)
      reads this, forest, t
    {
      t.On(forest) && t.requestAdd != null && t.requestAdd in requests
    }

    ghost predicate Valid()
      reads this, forest, forest.all`left, forest.all`right, holder, walks
    {
      && forest.Valid()
      && (forall id | id in holder.traverses && holder.traverses[id] != null ::
            holder.traverses[id] in walks && Live(holder.traverses[id]))
      && (forall id, id' | id in holder.traverses && id' in holder.traverses && id != id' &&
                           holder.traverses[id] != null && holder.traverses[id'] != null ::
            holder.traverses[id] != holder.traverses[id'] &&
            holder.traverses[id].requestAdd != holder.traverses[id'].requestAdd)
    }

    ghost function Slot(t: BTreeTraverse?): Option<Session>
      reads t, if t == null then {} else {t.requestAdd}
    {
      if t == null || t.requestAdd == null then None
      else Some(Session(t.key, t.at, t.path, t.pathLength, t.ciphertext,
                        t.requestAdd.database, t.requestAdd.table, t.requestAdd.row))
    }

    ghost function Sessions(): map<nat, Option<Session>>
      requires Valid()
      reads this, forest, forest.all`left, forest.all`right, holder, walks, requests
    {
      map id | id in holder.traverses :: Slot(holder.traverses[id])
    }

    /** The server as a value. */
    ghost function Abs(): (s: Server)
      requires Valid()
      ensures forall k | k in s.trees :: [] in s.trees[k]
      reads this, forest, forest.all`left, forest.all`right, holder, database, walks, requests
    {
      Server(forest.Trees(), Sessions(), database.rows)
    }

    // ---- The request that opens an insert ----

    /** A request without an "_ope" field is stored as it is. */
    method AddPlain(request: RequestAdd)
      requires Valid() && FirstOpe(request.row).None?
      modifies database
      ensures Valid()
      ensures Abs() == old(Abs()).(rows := old(Abs().rows) + [Stored(request.database, request.table, request.row)])
    {
      database.Add(request.database, request.table, request.row);
    }

    /** A tree of one node. */
    method Plant(database: Str, table: Str, ciphertext: Str)
      requires Valid() && TableKey(database, table) !in forest.Trees()
      modifies forest
      ensures Valid() && fresh(forest.all - old(forest.all))
      ensures Abs() == old(Abs()).(trees := old(Abs()).trees[TableKey(database, table) := map[[] := ciphertext]])
    {
      hide BTreeForest.Valid, BTreeForest.Trees;
      forest.TreeMeansNodes(TableKey(database, table));
      forest.CreateTree(database, table, ciphertext);
      assert Sessions() == old(Sessions());
    }

    /** The root's code goes into the request's row and the row into the table. */
    method StoreRoot(request: RequestAdd, field: Str)
      requires Valid() && request !in requests
      modifies database, request
      ensures Valid()
      ensures request.database == old(request.database) && request.table == old(request.table)
      ensures Abs() == old(Abs()).(rows := old(Abs()).rows +
                [Stored(request.database, request.table, old(request.row)[field := Decimal.Print(ROOT_CODE)])])
    {
      hide BTreeForest.Valid, BTreeForest.Trees, Decimal.Print;
      request.row := request.row[field := Decimal.Print(ROOT_CODE)];
      database.Add(request.database, request.table, request.row);
      assert Sessions() == old(Sessions());
    }

    /** A new tree. */
    method AddRoot(request: RequestAdd, field: Str)
      requires Valid() && request !in requests && field in request.row
      requires TableKey(request.database, request.table) !in forest.Trees()
      modifies forest, database, request
      ensures Valid() && fresh(forest.all - old(forest.all))
      ensures request.database == old(request.database) && request.table == old(request.table)
      ensures var key, row := TableKey(request.database, request.table), old(request.row);
              Abs() == Server(old(Abs()).trees[key := map[[] := row[field]]],
                              old(Abs()).sessions,
                              old(Abs()).rows + [Stored(request.database, request.table,
                                                        row[field := Decimal.Print(ROOT_CODE)])])
    {
      hide Valid, Sessions, BTreeForest.Trees, Decimal.Print;
      Plant(request.database, request.table, request.row[field]);
      StoreRoot(request, field);
    }

    /** A traverse at the root of an existing tree is filed under the request's id. */
    method FileTraverse(requestId: nat, request: RequestAdd, field: Str, tree: BTreeNode)
      returns (traverse: BTreeTraverse)
      requires Valid() && request !in requests && field in request.row
      requires var key := TableKey(request.database, request.table);
               key in forest.nodes && [] in forest.nodes[key] && tree == forest.nodes[key][[]]
      modifies this, holder
      ensures Valid() && fresh(traverse)
      ensures walks == old(walks) + {traverse} && requests == old(requests) + {request}
      ensures holder.traverses == old(holder.traverses)[requestId := traverse]
      ensures var key, row := TableKey(request.database, request.table), request.row;
              Slot(traverse) == Some(Session(key, [], 0, 0, row[field], request.database, request.table, row))
    {
      hide BTreeForest.Valid;
      traverse := holder.CreateTraverse(requestId, tree, request.row[field],
                                        TableKey(request.database, request.table));
      traverse.requestAdd := request;
      walks, requests := walks + {traverse}, requests + {request};
    }

    /** It takes the place of any traverse filed there before. */
    method OpenTraverse(requestId: nat, request: RequestAdd, field: Str, tree: BTreeNode)
      requires Valid() && request !in requests && field in request.row
      requires var key := TableKey(request.database, request.table);
               key in forest.nodes && [] in forest.nodes[key] && tree == forest.nodes[key][[]]
      modifies this, holder
      ensures Valid() && fresh(walks - old(walks)) && requests == old(requests) + {request}
      ensures var key, row := TableKey(request.database, request.table), request.row;
              Abs() == old(Abs()).(sessions := old(Abs()).sessions[requestId :=
                Some(Session(key, [], 0, 0, row[field], request.database, request.table, row))])
    {
      hide BTreeForest.Valid, BTreeForest.Trees, Valid;
      ForestOk();
      var traverse := FileTraverse(requestId, request, field, tree);
      assert Sessions() == old(Sessions())[requestId := Slot(traverse)];
    }

    /** `OnRequestAdd` up to its reply. */
    method HandleAdd(requestId: nat, request: RequestAdd) returns (reply: Reply)
      requires Valid() && request !in requests
      modifies this, forest, holder, database, request
      ensures Valid()
      ensures fresh(forest.all - old(forest.all)) && fresh(walks - old(walks))
      ensures old(requests) <= requests <= old(requests) + {request}
      ensures var step := AddStep(old(Abs()), requestId, old(request.database), old(request.table), old(request.row));
              Abs() == step.0 && reply == step.1
    {
      hide BTreeForest.Valid, BTreeForest.Trees, Valid, Sessions, Slot, FirstOpe, Decimal.Print;
      ForestOk();
      var isOpe, opeField := FindFirstOpe(request.row);
      if !isOpe {
        AddPlain(request);
        reply := AddOk;
      } else {
        var tree := forest.GetTree(request.database, request.table);
        if tree == null {
          AddRoot(request, opeField);
          reply := AddOk;
        } else {
          OpenTraverse(requestId, request, opeField, tree);
          reply := AddTraverse(requestId, tree.ciphertext);
        }
      }
    }

    lemma ForestOk()
      requires Valid()
      ensures forest.Valid()
    {
    }

    lemma LiveMeans(t: BTreeTraverse)
      requires Valid() && Live(t)
      ensures forest.Valid() && t.On(forest)
    {
    }

    // ---- The request that continues it ----

    /** A live traverse under an id, as the protocol sees it. */
    lemma AnchoredMeans(id: nat)
      requires Valid()
      ensures Anchored(Abs(), id) <==> id in holder.traverses && holder.traverses[id] != null
      ensures id in holder.traverses && holder.traverses[id] != null ==>
                var t := holder.traverses[id];
                && t in walks && Live(t)
                && Abs().sessions[id] == Slot(t)
                && Abs().sessions[id].value.key == t.key && Abs().sessions[id].value.at == t.at
                && t.current in forest.all
                && t.at in Abs().trees[t.key] && t.current.ciphertext == Abs().trees[t.key][t.at]
                && forest.nodes[t.key].Keys == Abs().trees[t.key].Keys
    {
    }

    /** One edge of the traverse under an id. */
    method Advance(id: nat, right: bool) returns (step: bool)
      requires Valid() && Anchored(Abs(), id)
      requires LeadsToNode(Abs(), id, right) || Abs().sessions[id].value.length < MAX_DEPTH
      modifies forest.all, walks, forest`nodes, forest`all
      ensures Valid() && fresh(forest.all - old(forest.all))
      ensures step <==> LeadsToNode(old(Abs()), id, right)
      ensures Abs() == Advanced(old(Abs()), id, right, step)
    {
      hide BTreeForest.Valid, BTreeForest.Trees, PushBit, Seal;
      AnchoredMeans(id);
      var t := holder.traverses[id];
      step := t.GoTo(right, forest);
      assert Sessions() == old(Sessions())[id := Slot(t)];
    }

    /** The end of an insert: the code goes into the request's row and the row into the table. */
    method StoreCode(traverse: BTreeTraverse, ghost id: nat)
      requires Valid() && id in holder.traverses && holder.traverses[id] == traverse && Live(traverse)
      modifies database, traverse.requestAdd
      ensures Valid()
      ensures id in old(Abs()).sessions && old(Abs()).sessions[id].Some?
      ensures Abs() == CodeStored(old(Abs()), id)
    {
      hide BTreeForest.Valid, BTreeForest.Trees, Decimal.Print, LastOpe;
      var opeFieldName := FindLastOpe(traverse.requestAdd.row);
      traverse.requestAdd.row := traverse.requestAdd.row[opeFieldName := Decimal.Print(traverse.path)];
      database.Add(traverse.requestAdd.database, traverse.requestAdd.table, traverse.requestAdd.row);
      assert Sessions() == old(Sessions())[id := Slot(traverse)];
    }

    /** The traverse filed under an id goes. */
    method Drop(id: nat)
      requires Valid()
      modifies holder
      ensures Valid()
      ensures Abs() == old(Abs()).(sessions := old(Abs()).sessions - {id})
    {
      hide BTreeForest.Valid, BTreeForest.Trees;
      holder.RemoveTraverse(id);
    }

    lemma NoSlot()
      ensures Slot(null) == None
    {
    }

    /** Looking a traverse up. */
    method Find(id: nat) returns (traverse: BTreeTraverse?)
      requires Valid()
      modifies holder
      ensures Valid() && id in holder.traverses && traverse == holder.traverses[id]
      ensures Abs() == old(Abs()).(sessions := Looked(old(Abs()).sessions, id))
      ensures traverse == if id in old(holder.traverses) then old(holder.traverses)[id] else null
    {
      hide BTreeForest.Valid, BTreeForest.Trees, BTreeTraverse.On;
      NoSlot();
      traverse := holder.GetTraverse(id);
      assert Sessions() == Looked(old(Sessions()), id);
    }

    /** What the client is asked about next. */
    method Shown(traverse: BTreeTraverse) returns (ciphertext: Str)
      requires Valid() && Live(traverse)
      ensures traverse.key in Abs().trees && traverse.at in Abs().trees[traverse.key]
      ensures ciphertext == Abs().trees[traverse.key][traverse.at]
    {
      hide Valid, BTreeForest.Valid, BTreeForest.Trees, BTreeTraverse.On, Sessions;
      LiveMeans(traverse);
      ciphertext := traverse.Value(forest);
    }

    /** A comparison of -1 or 1: the traverse takes one edge, and the insert goes on or ends. */
    method Walk(requestId: nat, initRequestId: nat, right: bool) returns (reply: Reply)
      requires Valid() && ContinueDefined(Abs(), initRequestId, if right then 1 else -1)
      requires Anchored(Abs(), initRequestId)
      modifies forest, forest.all, holder, database, walks, requests
      ensures Valid() && fresh(forest.all - old(forest.all))
      ensures var step := ContinueStep(old(Abs()), requestId, initRequestId, if right then 1 else -1);
              Abs() == step.0 && reply == step.1
    {
      hide BTreeForest.Valid, BTreeForest.Trees, Valid, Sessions, Slot;
      hide Advanced, CodeStored, ContinueStep, BTreeTraverse.On, Anchored;
      ghost var server := Abs();
      DepthDefined(server, initRequestId, right);
      AnchoredMeans(initRequestId);
      var traverse := holder.traverses[initRequestId];
      var step := Advance(initRequestId, right);
      AdvancedAnchored(server, initRequestId, right, step);
      AnchoredMeans(initRequestId);
      if step {
        var ciphertext := Shown(traverse);
        reply := AddTraverse(initRequestId, ciphertext);
        StepTaken(server, requestId, initRequestId, right);
      } else {
        StoreCode(traverse, initRequestId);
        Drop(requestId);
        reply := AddOk;
        LeafMade(server, requestId, initRequestId, right);
      }
    }

    /** `OnRequestAddContinue` up to its reply. */
    method HandleContinue(requestId: nat, initRequestId: nat, compareResult: int) returns (reply: Reply)
      requires Valid() && ContinueDefined(Abs(), initRequestId, compareResult)
      modifies forest, forest.all, holder, database, walks, requests
      ensures Valid() && fresh(forest.all - old(forest.all))
      ensures var step := ContinueStep(old(Abs()), requestId, initRequestId, compareResult);
              Abs() == step.0 && reply == step.1
    {
      hide Valid, Sessions;
      if compareResult == -1 {
        reply := Walk(requestId, initRequestId, false);
      } else if compareResult == 1 {
        reply := Walk(requestId, initRequestId, true);
      } else {
        var _ := Find(initRequestId);
        reply := AddOk;
      }
    }
  }
}
