/** The two insert handlers as the worker runs them, from request object to bytes sent, and the
    shipped client's side of the conversation. */
module Daemon {
  import opened Strings
  import opened CborFormat
  import opened Messages
  import opened MessageObjects
  import opened Truncation
  import opened Exchange
  import opened Protocol
  import opened Runs
  import opened RunTheorems
  import opened Sizes
  import opened WorkerHandlers
  import opened ShippedClient
  import Wire

  /** The end of both handlers: the response object of the reply, in a buffer. */
  method SendReply(requestId: nat, reply: Reply, capacity: nat) returns (data: array<byte>, size: nat)
    requires reply.AddOk? ==> InRange(requestId, AddOkResponse)
    requires reply.AddTraverse? ==> InRange(requestId, TraverseResponse(reply.initRequestId, reply.ciphertext))
    ensures fresh(data) && size <= data.Length
    ensures reply.AddOk? ==> data[..size] == Sent(requestId, AddOkResponse, capacity)
    ensures reply.AddTraverse? ==>
              data[..size] == Sent(requestId, TraverseResponse(reply.initRequestId, reply.ciphertext), capacity)
  {
    hide Sent, InRange;
    var payload := AddedOk;
    if reply.AddTraverse? {
      var response := new ResponseAddTraverse();
      response.initRequestId := reply.initRequestId;
      response.ciphertext := reply.ciphertext;
      payload := Traverse(response);
    }
    var wrapper := new Wrapper(requestId, payload);
    data, size := Send(wrapper, capacity);
  }

  lemma ReplyInRange(requestId: nat, initRequestId: nat, reply: Reply)
    requires ReplyOk(reply, initRequestId, TWO_31)
    requires requestId < TWO_32 && initRequestId < TWO_32
    ensures InRange(requestId, AddOkResponse)
    ensures reply.AddTraverse? ==> InRange(requestId, TraverseResponse(reply.initRequestId, reply.ciphertext))
  {
  }

  lemma FieldsInRange(requestId: nat, database: Str, table: Str, row: Row)
    requires InRange(requestId, AddRequest(database, table, row))
    ensures requestId < TWO_32 && FiledBelow(row, TWO_31)
  {
  }

  /** `Worker::OnRequestAdd`, for a request that came in a message and a server that holds what came
      in messages. */
  method OnRequestAdd(worker: Worker, requestId: nat, request: RequestAdd)
    returns (data: array<byte>, size: nat)
    requires worker.Valid() && request !in worker.requests
    requires SizesOk(worker.Abs(), TWO_31)
    requires InRange(requestId, AddRequest(request.database, request.table, request.row))
    modifies worker, worker.forest, worker.holder, worker.database, request
    ensures worker.Valid() && fresh(data) && size <= data.Length
    ensures fresh(worker.forest.all - old(worker.forest.all))
    ensures fresh(worker.walks - old(worker.walks))
    ensures old(worker.requests) <= worker.requests <= old(worker.requests) + {request}
    ensures SizesOk(worker.Abs(), TWO_31)
    ensures var step := AddStep(old(worker.Abs()), requestId,
                                old(request.database), old(request.table), old(request.row));
            && worker.Abs() == step.0
            && (step.1.AddOk? ==>
                  InRange(requestId, AddOkResponse) && data[..size] == Sent(requestId, AddOkResponse, 9000))
            && (step.1.AddTraverse? ==>
                  InRange(requestId, TraverseResponse(step.1.initRequestId, step.1.ciphertext)) &&
                  data[..size] == Sent(requestId, TraverseResponse(step.1.initRequestId, step.1.ciphertext), 9000))
  {
    hide Worker.Valid, Worker.Sessions, AddStep, Sent, InRange, SizesOk, ReplyOk, FiledBelow;
    FieldsInRange(requestId, request.database, request.table, request.row);
    AddKeepsSizes(worker.Abs(), requestId, request.database, request.table, request.row, TWO_31);
    var reply := worker.HandleAdd(requestId, request);
    ReplyInRange(requestId, requestId, reply);
    data, size := SendReply(requestId, reply, 9000);
  }

  /** `Worker::OnRequestAddContinue`. */
  method OnRequestAddContinue(worker: Worker, requestId: nat, request: RequestAddContinue)
    returns (data: array<byte>, size: nat)
    requires worker.Valid() && ContinueDefined(worker.Abs(), request.initRequestId, request.compareResult)
    requires SizesOk(worker.Abs(), TWO_31)
    requires requestId < TWO_32 && request.initRequestId < TWO_32
    modifies worker.forest, worker.forest.all, worker.holder, worker.database, worker.walks, worker.requests
    ensures worker.Valid() && fresh(data) && size <= data.Length
    ensures fresh(worker.forest.all - old(worker.forest.all))
    ensures SizesOk(worker.Abs(), TWO_31)
    ensures var step := ContinueStep(old(worker.Abs()), requestId, request.initRequestId, request.compareResult);
            && worker.Abs() == step.0
            && (step.1.AddOk? ==>
                  InRange(requestId, AddOkResponse) && data[..size] == Sent(requestId, AddOkResponse, 10000))
            && (step.1.AddTraverse? ==>
                  InRange(requestId, TraverseResponse(step.1.initRequestId, step.1.ciphertext)) &&
                  data[..size] == Sent(requestId, TraverseResponse(step.1.initRequestId, step.1.ciphertext), 10000))
  {
    hide Worker.Valid, Worker.Sessions, ContinueStep, Sent, InRange, SizesOk, ReplyOk;
    ContinueKeepsSizes(worker.Abs(), requestId, request.initRequestId, request.compareResult, TWO_31);
    var reply := worker.HandleContinue(requestId, request.initRequestId, request.compareResult);
    ReplyInRange(requestId, request.initRequestId, reply);
    data, size := SendReply(requestId, reply, 10000);
  }

  /** In every run in which no filed value is longer than 8979 bytes, whatever the clients answer, the
      reply to a request is that the insert is done if its client no longer waits, and otherwise the
      ciphertext the client is now shown; and as that it reaches the client. */
  lemma EveryReplyArrives(acts: seq<Action>, a: Action, capacity: nat)
    requires LegalRun(START, acts) && Legal(Exec(START, acts), a)
    requires forall b | b in acts + [a] :: ActionBelow(b, 8980)
    requires a.id < TWO_32 && (a.Respond? ==> a.requestId < TWO_32) && capacity >= 9000
    ensures var w := Next(Exec(START, acts), a);
            var requestId := if a.Submit? then a.id else a.requestId;
            && (a.id !in w.waiting ==>
                  && ReplyTo(Exec(START, acts), a) == (requestId, AddOk)
                  && InRange(requestId, AddOkResponse)
                  && Wire.Delivered(Sent(requestId, AddOkResponse, capacity)) == [Dispatch(requestId, AddOkResponse)])
            && (a.id in w.waiting ==>
                  var shown := w.waiting[a.id].shown;
                  && ReplyTo(Exec(START, acts), a) == (requestId, AddTraverse(a.id, shown))
                  && InRange(requestId, TraverseResponse(a.id, shown))
                  && Wire.Delivered(Sent(requestId, TraverseResponse(a.id, shown), capacity)) ==
                     [Dispatch(requestId, TraverseResponse(a.id, shown))])
  {
    hide LegalRun, Exec, Legal, Next, ReplyTo, ActionBelow, Sent, Wire.Delivered, InRange;
    RunsKeepSizes(acts, a, 8980);
    ReplyIsWaiting(Exec(START, acts), a);
    var (requestId, reply) := ReplyTo(Exec(START, acts), a);
    ReplyArrives(requestId, a.id, reply, capacity);
  }

  /** A client waits on exactly when it is shown a ciphertext. */
  lemma ReplyIsWaiting(w: World, a: Action)
    requires Legal(w, a)
    requires ReplyOk(ReplyTo(w, a).1, a.id, 8980)
    ensures var w' := Next(w, a);
            ReplyTo(w, a) == (if a.Submit? then a.id else a.requestId,
                              if a.id in w'.waiting then AddTraverse(a.id, w'.waiting[a.id].shown) else AddOk)
  {
    hide AddStep, ContinueStep;
  }

  lemma ReplyArrives(requestId: nat, initRequestId: nat, reply: Reply, capacity: nat)
    requires ReplyOk(reply, initRequestId, 8980)
    requires requestId < TWO_32 && initRequestId < TWO_32 && capacity >= 9000
    ensures reply.AddOk? ==>
              && InRange(requestId, AddOkResponse)
              && Wire.Delivered(Sent(requestId, AddOkResponse, capacity)) == [Dispatch(requestId, AddOkResponse)]
    ensures reply.AddTraverse? ==>
              var m := TraverseResponse(initRequestId, reply.ciphertext);
              && InRange(requestId, m) && Wire.Delivered(Sent(requestId, m, capacity)) == [Dispatch(requestId, m)]
  {
    hide Sent, Wire.Delivered;
    match reply
    case AddOk =>
      AddOkLength(requestId);
      SentArrival(requestId, AddOkResponse, capacity);
    case AddTraverse(_, ciphertext) =>
      TraverseReplyArrives(requestId, initRequestId, ciphertext, capacity);
  }

  /** A client that writes its numbers as section 2.1 of RFC 7049 says and answers that its value goes
      before what it is shown, -1, is heard to answer that it is equal: its insert is reported as
      done, and nothing is stored. */
  lemma ConformingBeforeIsLost(s: Server, id: nat, initRequestId: nat)
    requires id < TWO_32 && initRequestId < TWO_32
    ensures Wire.Delivered(Wire.ConformingContinue(id, initRequestId, -1)) ==
            [Dispatch(id, ContinueRequest(initRequestId, 0))]
    ensures var (s', reply) := ContinueStep(s, id, initRequestId, 0);
            reply == AddOk && s'.trees == s.trees && s'.rows == s.rows
  {
    hide Wire.Delivered, Wire.ConformingContinue;
    Wire.ConformingAnswer(id, initRequestId, -1);
  }

  // ---- The client ----

  /** The client's executors by the id of the request each waits for an answer to. */
  class RequestListeners {
    var listeners: map<nat, InsertExecutor>

    constructor ()
      ensures listeners == map[]
    {
      listeners := map[];
    }
  }

  /** The value of the last "_ope" field among the keys, empty without one. */
  function OwnIn(row: Row, keys: seq<Str>): Str
    requires forall k | k in keys :: k in row
  {
    if keys == [] then []
    else if IsOpe(keys[|keys| - 1]) then row[keys[|keys| - 1]]
    else OwnIn(row, keys[..|keys| - 1])
  }

  lemma {:induction false} OwnInMeaning(row: Row, keys: seq<Str>)
    requires forall k | k in keys :: k in row
    ensures (forall k | k in keys :: !IsOpe(k)) ==> OwnIn(row, keys) == []
    ensures (exists k :: k in keys && IsOpe(k)) ==>
              LastOpeIn(keys) in row && OwnIn(row, keys) == row[LastOpeIn(keys)]
  {
    if keys == [] {
    } else {
      var n := |keys| - 1;
      assert keys == keys[..n] + [keys[n]];
      OwnInMeaning(row, keys[..n]);
    }
  }

  lemma OwnIsOwnIn(row: Row)
    ensures OwnIn(row, SortedKeys(row.Keys)) == Own(row)
  {
    hide SortedKeys, LastOpeIn, OwnIn, IsOpe;
    OwnInMeaning(row, SortedKeys(row.Keys));
    OpeFieldsMeaning(row);
  }

  lemma OwnInNothing(row: Row)
    ensures OwnIn(row, []) == []
  {
  }

  lemma OwnInStep(row: Row, keys: seq<Str>, i: nat)
    requires i < |keys| && forall k | k in keys :: k in row
    ensures OwnIn(row, keys[..i + 1]) == if IsOpe(keys[i]) then row[keys[i]] else OwnIn(row, keys[..i])
  {
    assert keys[..i + 1][..i] == keys[..i];
  }

  /** The loop of the executor's constructor over the row. */
  method FindOwn(row: Row) returns (value: Str)
    ensures value == Own(row)
  {
    hide SortedKeys, Own, FirstOpe, LastOpe, OwnIn, IsOpe;
    OwnInNothing(row);
    var keys := SortedKeys(row.Keys);
    value := [];
    for i := 0 to |keys|
      invariant value == OwnIn(row, keys[..i])
    {
      OwnInStep(row, keys, i);
      if IsOpe(keys[i]) {
        value := row[keys[i]];
      }
    }
    assert keys[..|keys|] == keys;
    OwnIsOwnIn(row);
  }

  /** One insert of the client; encryption is the identity. */
  class InsertExecutor {
    const database: Str
    const table: Str
    const row: Row
    const opeValue: Str
    const requestListeners: RequestListeners

    /** The loop over the row does not stop, so the value is that of the last "_ope" field; with no
        such field it stays empty. */
    constructor (database: Str, table: Str, row: Row, requestListeners: RequestListeners)
      ensures this.database == database && this.table == table && this.row == row
      ensures this.requestListeners == requestListeners
      ensures opeValue == Own(row)
      ensures FirstOpe(row).Some? ==> IsLastOpe(row, LastOpe(row)) && opeValue == row[LastOpe(row)]
      ensures (forall f | f in row :: !IsOpe(f)) ==> opeValue == []
    {
      OpeFieldsMeaning(row);
      var value := FindOwn(row);
      this.database, this.table, this.row, this.requestListeners := database, table, row, requestListeners;
      opeValue := value;
    }

    /** `InsertExecutor::Run`: the first request, under a new id. */
    method Run(requestId: nat) returns (data: array<byte>, size: nat)
      requires InRange(requestId, AddRequest(database, table, row))
      modifies requestListeners
      ensures fresh(data) && size <= data.Length
      ensures data[..size] == Sent(requestId, AddRequest(database, table, row), 10000)
      ensures requestListeners.listeners == old(requestListeners.listeners)[requestId := this]
    {
      hide Sent, InRange;
      var request := new RequestAdd();
      request.database, request.table, request.row := database, table, row;
      var wrapper := new Wrapper(requestId, Add(request));
      data, size := Send(wrapper, 10000);
      requestListeners.listeners := requestListeners.listeners[requestId := this];
    }

    /** `InsertExecutor::OnResponseAddTraverse`: compare the ciphertext shown with the own value and
        continue under a new id. */
    method OnResponseAddTraverse(requestId: nat, response: ResponseAddTraverse, addContinueRequestId: nat)
      returns (data: array<byte>, size: nat)
      requires addContinueRequestId < TWO_32 && response.initRequestId < TWO_32
      modifies requestListeners
      ensures fresh(data) && size <= data.Length
      ensures var m := ContinueRequest(response.initRequestId, Answer(Larger, opeValue, response.ciphertext));
              InRange(addContinueRequestId, m) && data[..size] == Sent(addContinueRequestId, m, 10000)
      ensures requestListeners.listeners ==
              (old(requestListeners.listeners) - {requestId})[addContinueRequestId := this]
    {
      hide Sent;
      requestListeners.listeners := requestListeners.listeners - {requestId};
      ShippedAnswer(opeValue, response.ciphertext);
      var request := new RequestAddContinue();
      request.initRequestId := response.initRequestId;
      request.compareResult := Compare(response.ciphertext, opeValue);
      var wrapper := new Wrapper(addContinueRequestId, Continue(request));
      data, size := Send(wrapper, 10000);
      requestListeners.listeners := requestListeners.listeners[addContinueRequestId := this];
    }

    /** `InsertExecutor::OnResponseAddOk`. */
    method OnResponseAddOk(requestId: nat)
      modifies requestListeners
      ensures requestListeners.listeners == old(requestListeners.listeners) - {requestId}
    {
      requestListeners.listeners := requestListeners.listeners - {requestId};
    }
  }

  /** The client's value and the one the server files come from the same field if and only if the
      row has one "_ope" field; then they are the same. */
  lemma ClientAndServerValue(row: Row)
    requires FirstOpe(row).Some?
    ensures FirstOpe(row).value in row && Filed(row) == row[FirstOpe(row).value]
    ensures LastOpe(row) in row && Own(row) == row[LastOpe(row)]
    ensures (forall f, g | f in row && g in row && IsOpe(f) && IsOpe(g) :: f == g) <==>
            FirstOpe(row).value == LastOpe(row)
  {
    OpeFieldsMeaning(row);
    OpeFieldsAgree(row);
  }
}
