/** Runs on the wire: shipped clients and the worker exchange nothing but the bytes in their
    buffers, and the worker goes through the run of the protocol all the same. */
module Conversation {
  import opened Strings
  import opened CborFormat
  import opened Messages
  import opened MessageObjects
  import opened Truncation
  import opened Wire
  import opened Exchange
  import opened Protocol
  import opened Runs
  import opened RunTheorems
  import opened Sizes
  import opened WorkerHandlers
  import opened ShippedClient
  import opened Daemon
  import opened Serving

  /** Filed values of at most 8979 bytes. */
  const BOUND: nat := 8980

  lemma SmallSizes(s: Server)
    requires SizesOk(s, BOUND)
    ensures SizesOk(s, TWO_31)
  {
  }

  /** A first request that fits the client's buffer. */
  ghost predicate RequestFits(id: nat, database: Str, table: Str, row: Row) {
    var m := AddRequest(database, table, row);
    && InRange(id, m) && row != map[] && |Serialized(id, m)| <= 10000 && FiledBelow(row, BOUND)
  }

  /** A buffer arrives: one call of the other side's handler. */
  method Deliver(data: array<byte>, size: nat, ghost id: nat, ghost m: Message, ghost capacity: nat)
    returns (call: Call)
    requires size <= data.Length && InRange(id, m) && data[..size] == Sent(id, m, capacity)
    requires Delivered(Sent(id, m, capacity)) == [Dispatch(id, m)]
    ensures call == Dispatch(id, m)
  {
    hide Sent, Delivered, InRange, Read, Serialized;
    SentArrival(id, m, capacity);
    var listener := Receive(data, size);
    call := listener.log[0];
  }

  lemma RequestArrives(id: nat, database: Str, table: Str, row: Row)
    requires RequestFits(id, database, table, row)
    ensures InRange(id, AddRequest(database, table, row)) && id < TWO_32 && FiledBelow(row, BOUND)
    ensures Delivered(Sent(id, AddRequest(database, table, row), 10000)) ==
            [Dispatch(id, AddRequest(database, table, row))]
  {
    hide Sent, Delivered, Serialized, FiledBelow;
    SentArrival(id, AddRequest(database, table, row), 10000);
  }

  /** A first request reaches the worker. */
  method SendInsert(executor: InsertExecutor, id: nat) returns (call: Call)
    requires RequestFits(id, executor.database, executor.table, executor.row)
    modifies executor.requestListeners
    ensures call == Dispatch(id, AddRequest(executor.database, executor.table, executor.row))
  {
    hide Sent, Delivered, InRange, RequestFits;
    RequestArrives(id, executor.database, executor.table, executor.row);
    var data, size := executor.Run(id);
    call := Deliver(data, size, id, AddRequest(executor.database, executor.table, executor.row), 10000);
  }

  /** The worker's reply reaches the client. */
  method AnswerInsert(worker: Worker, id: nat, request: RequestAdd) returns (reply: Call)
    requires worker.Valid() && SizesOk(worker.Abs(), BOUND) && request !in worker.requests
    requires RequestFits(id, request.database, request.table, request.row)
    modifies worker, worker.forest, worker.holder, worker.database, request
    ensures worker.Valid()
    ensures fresh(worker.forest.all - old(worker.forest.all))
    ensures fresh(worker.walks - old(worker.walks))
    ensures old(worker.requests) <= worker.requests <= old(worker.requests) + {request}
    ensures var step := AddStep(old(worker.Abs()), id, old(request.database), old(request.table), old(request.row));
            && worker.Abs() == step.0 && SizesOk(step.0, BOUND)
            && reply == Dispatch(id, if step.1.AddOk? then AddOkResponse
                                     else TraverseResponse(step.1.initRequestId, step.1.ciphertext))
  {
    hide Worker.Valid, Worker.Sessions, Worker.Abs, AddStep, Sent, Delivered;
    hide InRange, SizesOk, FiledBelow, RequestFits;
    ghost var s, database, table, row := worker.Abs(), request.database, request.table, request.row;
    RequestArrives(id, database, table, row);
    SmallSizes(s);
    AddKeepsSizes(s, id, database, table, row, BOUND);
    ghost var answer := AddStep(s, id, database, table, row).1;
    ReplyArrives(id, id, answer, 9000);
    var data, size := OnRequestAdd(worker, id, request);
    ghost var m := if answer.AddOk? then AddOkResponse else TraverseResponse(answer.initRequestId, answer.ciphertext);
    reply := Deliver(data, size, id, m, 9000);
  }

  /** A first request and its reply. */
  method OpenInsert(worker: Worker, executor: InsertExecutor, id: nat) returns (reply: Call)
    requires worker.Valid() && SizesOk(worker.Abs(), BOUND)
    requires RequestFits(id, executor.database, executor.table, executor.row)
    modifies executor.requestListeners, worker, worker.forest, worker.holder, worker.database
    ensures worker.Valid()
    ensures fresh(worker.forest.all - old(worker.forest.all))
    ensures fresh(worker.walks - old(worker.walks)) && fresh(worker.requests - old(worker.requests))
    ensures var step := AddStep(old(worker.Abs()), id, executor.database, executor.table, executor.row);
            && worker.Abs() == step.0 && SizesOk(step.0, BOUND)
            && reply == Dispatch(id, if step.1.AddOk? then AddOkResponse
                                     else TraverseResponse(step.1.initRequestId, step.1.ciphertext))
  {
    hide Worker.Valid, Worker.Sessions, Worker.Abs, AddStep, SizesOk, RequestFits;
    var call := SendInsert(executor, id);
    var request := new RequestAdd();
    request.database, request.table, request.row := call.message.database, call.message.table, call.message.row;
    reply := AnswerInsert(worker, id, request);
  }

  /** A client's answer reaches the worker. */
  method SendAnswer(executor: InsertExecutor, shown: Call, requestId: nat) returns (call: Call)
    requires shown.Dispatch? && shown.message.TraverseResponse?
    requires requestId < TWO_32 && shown.message.initRequestId < TWO_32
    modifies executor.requestListeners
    ensures call == Dispatch(requestId, ContinueRequest(
              shown.message.initRequestId, Answer(Larger, executor.opeValue, shown.message.ciphertext)))
  {
    hide Sent, Delivered, Answer;
    var response := new ResponseAddTraverse();
    response.initRequestId, response.ciphertext := shown.message.initRequestId, shown.message.ciphertext;
    ghost var id, answer := shown.message.initRequestId, Answer(Larger, executor.opeValue, shown.message.ciphertext);
    var data, size := executor.OnResponseAddTraverse(shown.id, response, requestId);
    ContinueArrives(requestId, id, answer);
    call := Deliver(data, size, requestId, ContinueRequest(id, answer), 10000);
  }

  /** The worker's reply to it reaches the client. */
  method AnswerContinue(worker: Worker, requestId: nat, request: RequestAddContinue) returns (reply: Call)
    requires worker.Valid() && SizesOk(worker.Abs(), BOUND)
    requires requestId < TWO_32 && request.initRequestId < TWO_32
    requires ContinueDefined(worker.Abs(), request.initRequestId, request.compareResult)
    modifies worker.forest, worker.forest.all, worker.holder, worker.database, worker.walks, worker.requests
    ensures worker.Valid()
    ensures fresh(worker.forest.all - old(worker.forest.all))
    ensures var step := ContinueStep(old(worker.Abs()), requestId, request.initRequestId, request.compareResult);
            && worker.Abs() == step.0 && SizesOk(step.0, BOUND)
            && reply == Dispatch(requestId, if step.1.AddOk? then AddOkResponse
                                            else TraverseResponse(step.1.initRequestId, step.1.ciphertext))
  {
    hide Worker.Valid, Worker.Sessions, Worker.Abs, ContinueStep, ContinueDefined;
    hide Sent, Delivered, InRange, SizesOk;
    ghost var s, id, answer := worker.Abs(), request.initRequestId, request.compareResult;
    SmallSizes(s);
    ContinueKeepsSizes(s, requestId, id, answer, BOUND);
    ghost var result := ContinueStep(s, requestId, id, answer).1;
    ReplyArrives(requestId, id, result, 10000);
    var data, size := OnRequestAddContinue(worker, requestId, request);
    ghost var m := if result.AddOk? then AddOkResponse else TraverseResponse(result.initRequestId, result.ciphertext);
    reply := Deliver(data, size, requestId, m, 10000);
  }

  /** The answer to the reply that came under one id, sent under another, and its reply. */
  method ContinueInsert(worker: Worker, executor: InsertExecutor, shown: Call, requestId: nat) returns (reply: Call)
    requires worker.Valid() && SizesOk(worker.Abs(), BOUND)
    requires shown.Dispatch? && shown.message.TraverseResponse?
    requires requestId < TWO_32 && shown.message.initRequestId < TWO_32
    requires ContinueDefined(worker.Abs(), shown.message.initRequestId,
                             Answer(Larger, executor.opeValue, shown.message.ciphertext))
    modifies executor.requestListeners,
             worker.forest, worker.forest.all, worker.holder, worker.database, worker.walks, worker.requests
    ensures worker.Valid()
    ensures fresh(worker.forest.all - old(worker.forest.all))
    ensures var step := ContinueStep(old(worker.Abs()), requestId, shown.message.initRequestId,
                                     Answer(Larger, executor.opeValue, shown.message.ciphertext));
            && worker.Abs() == step.0 && SizesOk(step.0, BOUND)
            && reply == Dispatch(requestId, if step.1.AddOk? then AddOkResponse
                                            else TraverseResponse(step.1.initRequestId, step.1.ciphertext))
  {
    hide Worker.Valid, Worker.Sessions, Worker.Abs, ContinueStep, ContinueDefined, SizesOk, Answer;
    var call := SendAnswer(executor, shown, requestId);
    var request := new RequestAddContinue();
    request.initRequestId, request.compareResult := call.message.initRequestId, call.message.compareResult;
    reply := AnswerContinue(worker, requestId, request);
  }

  // ---- Whole runs ----

  type Clients = map<nat, InsertExecutor>
  type Replies = map<nat, Call>

  /** Ids are 32 bits wide and first requests fit. */
  ghost predicate ActionFits(a: Action) {
    match a
    case Submit(id, database, table, row) => RequestFits(id, database, table, row)
    case Respond(requestId, id, _) => requestId < TWO_32 && id < TWO_32
  }

  /** A waiting client has its executor, and has last heard what the run shows it. */
  ghost predicate Talking(listeners: RequestListeners, c: Waiting, id: nat, executor: InsertExecutor, reply: Call) {
    && executor.opeValue == Own(c.submitted.row) && executor.requestListeners == listeners
    && reply.Dispatch? && reply.message == TraverseResponse(id, c.shown)
  }

  ghost predicate AllTalking(listeners: RequestListeners, w: World, clients: Clients, replies: Replies) {
    forall id | id in w.waiting ::
      id in clients && id in replies && Talking(listeners, w.waiting[id], id, clients[id], replies[id])
  }

  lemma NowTalking(listeners: RequestListeners, w: World, w': World, clients: Clients, replies: Replies,
                   id: nat, executor: InsertExecutor, reply: Call)
    requires AllTalking(listeners, w, clients, replies)
    requires id in w'.waiting && w'.waiting == w.waiting[id := w'.waiting[id]]
    requires Talking(listeners, w'.waiting[id], id, executor, reply)
    ensures AllTalking(listeners, w', clients[id := executor], replies[id := reply])
  {
    hide Talking;
  }

  lemma DoneTalking(listeners: RequestListeners, w: World, w': World, clients: Clients, replies: Replies)
    requires AllTalking(listeners, w, clients, replies)
    requires forall id | id in w'.waiting :: id in w.waiting && w'.waiting[id] == w.waiting[id]
    ensures AllTalking(listeners, w', clients, replies)
  {
    hide Talking;
  }

  /** What a client hears when a step is over: success once it no longer waits. */
  function Heard(w: World, id: nat): Message {
    if id in w.waiting then TraverseResponse(id, w.waiting[id].shown) else AddOkResponse
  }

  lemma SubmitIsFresh(w: World, a: Action)
    requires Legal(w, a) && a.Submit?
    ensures a.id !in w.waiting
  {
  }

  lemma SuccessIsAck(w: World, a: Action)
    requires Legal(w, a)
    ensures |Next(w, a).acks| == |w.acks| + if Heard(Next(w, a), a.id) == AddOkResponse then 1 else 0
  {
    hide AddStep, ContinueStep;
  }

  /** A first request of the run. */
  method ConverseSubmit(worker: Worker, listeners: RequestListeners, clients: Clients, replies: Replies,
                        ghost w: World, a: Action)
    returns (clients': Clients, replies': Replies, reply: Call)
    requires worker.Valid() && worker.Abs() == w.server && SizesOk(w.server, BOUND)
    requires AllTalking(listeners, w, clients, replies)
    requires Legal(w, a) && a.Submit? && ActionFits(a)
    modifies listeners, worker, worker.forest, worker.holder, worker.database
    ensures worker.Valid() && worker.Abs() == Next(w, a).server && SizesOk(worker.Abs(), BOUND)
    ensures AllTalking(listeners, Next(w, a), clients', replies')
    ensures reply == Dispatch(a.id, Heard(Next(w, a), a.id))
    ensures fresh(worker.forest.all - old(worker.forest.all))
    ensures fresh(worker.walks - old(worker.walks)) && fresh(worker.requests - old(worker.requests))
  {
    hide Worker.Valid, Worker.Sessions, Worker.Abs, AddStep, SizesOk, RequestFits;
    hide Legal, Next, AllTalking, FirstOpe, LastOpe, Own;
    var executor := new InsertExecutor(a.database, a.table, a.row, listeners);
    SubmitTo(w, a);
    SubmitIsFresh(w, a);
    reply := OpenInsert(worker, executor, a.id);
    clients', replies' := clients, replies;
    if reply.message.AddOkResponse? {
      executor.OnResponseAddOk(reply.id);
      DoneTalking(listeners, w, Next(w, a), clients, replies);
    } else {
      clients', replies' := clients[a.id := executor], replies[a.id := reply];
      AddReplyId(w.server, a.id, a.database, a.table, a.row);
      NowTalking(listeners, w, Next(w, a), clients, replies, a.id, executor, reply);
    }
  }

  lemma AddReplyId(s: Server, id: nat, database: Str, table: Str, row: Row)
    requires forall k | k in s.trees :: [] in s.trees[k]
    ensures var reply := AddStep(s, id, database, table, row).1;
            reply.AddTraverse? ==> reply.initRequestId == id
  {
  }

  lemma ContinueReplyId(s: Server, requestId: nat, id: nat, answer: int)
    requires ContinueDefined(s, id, answer)
    ensures var reply := ContinueStep(s, requestId, id, answer).1;
            reply.AddTraverse? ==> reply.initRequestId == id
  {
  }

  /** An answer of the run. */
  method ConverseRespond(worker: Worker, listeners: RequestListeners, clients: Clients, replies: Replies,
                         ghost w: World, a: Action)
    returns (replies': Replies, reply: Call)
    requires worker.Valid() && worker.Abs() == w.server && SizesOk(w.server, BOUND)
    requires AllTalking(listeners, w, clients, replies)
    requires Legal(w, a) && a.Respond? && ActionFits(a) && AnsweredBy(Larger, Own, w, a)
    modifies listeners,
             worker.forest, worker.forest.all, worker.holder, worker.database, worker.walks, worker.requests
    ensures worker.Valid() && worker.Abs() == Next(w, a).server && SizesOk(worker.Abs(), BOUND)
    ensures AllTalking(listeners, Next(w, a), clients, replies')
    ensures reply == Dispatch(a.requestId, Heard(Next(w, a), a.id))
    ensures fresh(worker.forest.all - old(worker.forest.all))
  {
    hide Worker.Valid, Worker.Sessions, Worker.Abs, ContinueStep, ContinueDefined, SizesOk;
    hide Next, AllTalking, FirstOpe, LastOpe, Own, Answer;
    IsTalking(listeners, w, clients, replies, a.id);
    var executor, shown := clients[a.id], replies[a.id];
    RespondTo(w, a);
    reply := ContinueInsert(worker, executor, shown, a.requestId);
    replies' := replies;
    if reply.message.AddOkResponse? {
      executor.OnResponseAddOk(reply.id);
      DoneTalking(listeners, w, Next(w, a), clients, replies);
    } else {
      replies' := replies[a.id := reply];
      ContinueReplyId(w.server, a.requestId, a.id, a.answer);
      NowTalking(listeners, w, Next(w, a), clients, replies, a.id, executor, reply);
      assert clients[a.id := executor] == clients;
    }
  }

  lemma IsTalking(listeners: RequestListeners, w: World, clients: Clients, replies: Replies, id: nat)
    requires AllTalking(listeners, w, clients, replies) && id in w.waiting
    ensures id in clients && id in replies && Talking(listeners, w.waiting[id], id, clients[id], replies[id])
  {
    hide Talking;
  }

  /** A request of either kind, and whether its reply is a success. */
  method ConverseOne(worker: Worker, listeners: RequestListeners, clients: Clients, replies: Replies,
                     ghost w: World, a: Action)
    returns (clients': Clients, replies': Replies, success: bool)
    requires worker.Valid() && worker.Abs() == w.server && SizesOk(w.server, BOUND)
    requires AllTalking(listeners, w, clients, replies)
    requires Legal(w, a) && ActionFits(a) && AnsweredBy(Larger, Own, w, a)
    modifies listeners, worker,
             worker.forest, worker.forest.all, worker.holder, worker.database, worker.walks, worker.requests
    ensures worker.Valid() && worker.Abs() == Next(w, a).server && SizesOk(worker.Abs(), BOUND)
    ensures AllTalking(listeners, Next(w, a), clients', replies')
    ensures |Next(w, a).acks| == |w.acks| + if success then 1 else 0
    ensures fresh(worker.forest.all - old(worker.forest.all))
    ensures fresh(worker.walks - old(worker.walks)) && fresh(worker.requests - old(worker.requests))
  {
    hide Worker.Valid, Worker.Sessions, Worker.Abs, Legal, Next, AnsweredBy, AllTalking, SizesOk, ActionFits;
    SuccessIsAck(w, a);
    var reply: Call;
    clients' := clients;
    if a.Submit? {
      clients', replies', reply := ConverseSubmit(worker, listeners, clients, replies, w, a);
    } else {
      replies', reply := ConverseRespond(worker, listeners, clients, replies, w, a);
    }
    success := reply.message.AddOkResponse?;
  }

  /** Requests in the order in which they arrive, whoever they are from; every request and every reply
      crosses the wire as bytes. In the end the worker is where the run is, every waiting client has
      heard what the run shows it, and one success has been heard for each acknowledged insert. */
  method Converse(acts: seq<Action>)
    returns (worker: Worker, listeners: RequestListeners, clients: Clients, replies: Replies, successes: nat)
    requires ShippedRun(acts) && forall a | a in acts :: ActionFits(a)
    ensures worker.Valid() && worker.Abs() == Exec(START, acts).server
    ensures AllTalking(listeners, Exec(START, acts), clients, replies)
    ensures successes == |Exec(START, acts).acks|
  {
    hide Worker.Valid, Worker.Sessions, Worker.Abs, Legal, Next, AnsweredBy;
    hide AllTalking, LegalRun, Exec, AnswersBy, SizesOk, ActionFits;
    worker := new Worker();
    listeners := new RequestListeners();
    clients, replies, successes := map[], map[], 0;
    ghost var w := START;
    StartTalking(listeners);
    StartSizes(BOUND);
    assert acts[0..] == acts;
    for i := 0 to |acts|
      invariant worker.Valid() && worker.Abs() == w.server && SizesOk(w.server, BOUND)
      invariant AllTalking(listeners, w, clients, replies) && successes == |w.acks|
      invariant LegalRun(w, acts[i..]) && AnswersBy(Larger, Own, w, acts[i..])
      invariant Exec(START, acts) == Exec(w, acts[i..])
      invariant fresh(worker) && fresh(worker.forest) && fresh(worker.holder) && fresh(worker.database)
      invariant fresh(worker.forest.all) && fresh(worker.walks) && fresh(worker.requests) && fresh(listeners)
    {
      FirstOfRun(w, acts, i);
      assert acts[i] in acts;
      var success: bool;
      clients, replies, success := ConverseOne(worker, listeners, clients, replies, w, acts[i]);
      if success {
        successes := successes + 1;
      }
      w := Next(w, acts[i]);
    }
    assert acts[|acts|..] == [];
    NothingLeft(w);
  }

  lemma StartTalking(listeners: RequestListeners)
    ensures AllTalking(listeners, START, map[], map[])
  {
  }
}
