/** Runs on the heap: the worker, driven by shipped clients in any interleaving, is at every
    moment the server of the corresponding run of the protocol. */
module Serving {
  import opened PathCode
  import opened Strings
  import opened Protocol
  import opened Runs
  import opened RunTheorems
  import opened Forest
  import opened MessageObjects
  import opened WorkerHandlers
  import opened ShippedClient
  import opened Daemon

  /** The clients between two answers: their executors, and the ciphertexts in the last replies. */
  type Clients = map<nat, InsertExecutor>
  type Replies = map<nat, Str>

  /** They are those of the run. */
  ghost predicate ClientsOk(w: World, clients: Clients, replies: Replies) {
    forall id | id in w.waiting ::
      && id in clients && clients[id].opeValue == Own(w.waiting[id].submitted.row)
      && id in replies && replies[id] == w.waiting[id].shown
  }

  /** The run's next state from the reply of the server. */
  lemma SubmitTo(w: World, a: Action)
    requires Legal(w, a) && a.Submit?
    ensures var (server, reply) := AddStep(w.server, a.id, a.database, a.table, a.row);
            && Next(w, a).server == server
            && Next(w, a).waiting ==
                 if reply.AddOk? then w.waiting
                 else w.waiting[a.id := Waiting(Stored(a.database, a.table, a.row), reply.ciphertext, [])]
  {
    hide FirstOpe, LastOpe, Filed;
  }

  lemma RespondTo(w: World, a: Action)
    requires Legal(w, a) && a.Respond?
    ensures var (server, reply) := ContinueStep(w.server, a.requestId, a.id, a.answer);
            var c := w.waiting[a.id];
            && Next(w, a).server == server
            && Next(w, a).waiting ==
                 if reply.AddOk? then w.waiting - {a.id}
                 else w.waiting[a.id := Waiting(c.submitted, reply.ciphertext, c.log + [Asked(c.shown, a.answer)])]
  {
    hide FirstOpe, LastOpe, Seal, PushBit;
  }

  /** A first request: a new executor takes its value from the row. */
  method ServeSubmit(worker: Worker, listeners: RequestListeners, clients: Clients, replies: Replies,
                     ghost w: World, a: Action)
    returns (clients': Clients, replies': Replies)
    requires worker.Valid() && worker.Abs() == w.server && ClientsOk(w, clients, replies)
    requires Legal(w, a) && a.Submit?
    modifies worker, worker.forest, worker.holder, worker.database
    ensures worker.Valid() && worker.Abs() == Next(w, a).server && ClientsOk(Next(w, a), clients', replies')
    ensures fresh(worker.forest.all - old(worker.forest.all))
    ensures fresh(worker.walks - old(worker.walks)) && fresh(worker.requests - old(worker.requests))
  {
    hide Worker.Valid, Worker.Sessions, AddStep, FirstOpe, LastOpe, BTreeForest.Trees;
    hide Worker.Abs, Next, Own, ClientsOk, Legal;
    var executor := new InsertExecutor(a.database, a.table, a.row, listeners);
    var request := new RequestAdd();
    request.database, request.table, request.row := a.database, a.table, a.row;
    SubmitTo(w, a);
    var reply := worker.HandleAdd(a.id, request);
    clients', replies' := clients, replies;
    if reply.AddTraverse? {
      clients', replies' := clients[a.id := executor], replies[a.id := reply.ciphertext];
      NewClient(w, Next(w, a), clients, replies, a.id, executor, Next(w, a).waiting[a.id]);
    } else {
      SameClients(w, Next(w, a), clients, replies);
    }
  }

  lemma NewClient(w: World, w': World, clients: Clients, replies: Replies,
                  id: nat, executor: InsertExecutor, c: Waiting)
    requires ClientsOk(w, clients, replies) && w'.waiting == w.waiting[id := c]
    requires executor.opeValue == Own(c.submitted.row)
    ensures ClientsOk(w', clients[id := executor], replies[id := c.shown])
  {
    hide Own;
  }

  lemma SameClients(w: World, w': World, clients: Clients, replies: Replies)
    requires ClientsOk(w, clients, replies) && w'.waiting == w.waiting
    ensures ClientsOk(w', clients, replies)
  {
    hide Own;
  }

  /** An answer: the executor compares the ciphertext in the reply with its own value. */
  method ServeRespond(worker: Worker, clients: Clients, replies: Replies, ghost w: World, a: Action)
    returns (replies': Replies)
    requires worker.Valid() && worker.Abs() == w.server && ClientsOk(w, clients, replies)
    requires Legal(w, a) && a.Respond? && AnsweredBy(Larger, Own, w, a)
    modifies worker.forest, worker.forest.all, worker.holder, worker.database, worker.walks, worker.requests
    ensures worker.Valid() && worker.Abs() == Next(w, a).server && ClientsOk(Next(w, a), clients, replies')
    ensures fresh(worker.forest.all - old(worker.forest.all))
  {
    hide Worker.Valid, Worker.Sessions, ContinueStep, ContinueDefined, FirstOpe;
    hide LastOpe, BTreeForest.Trees, Next, Compare, Answer;
    var executor := clients[a.id];
    ShippedAnswer(executor.opeValue, replies[a.id]);
    RespondTo(w, a);
    var reply := worker.HandleContinue(a.requestId, a.id, Compare(replies[a.id], executor.opeValue));
    replies' := if reply.AddTraverse? then replies[a.id := reply.ciphertext] else replies;
  }

  /** Requests in the order in which they arrive, whoever they are from. The answers are those the
      clients' executors give to the replies the worker gives. */
  method Serve(acts: seq<Action>) returns (worker: Worker)
    requires ShippedRun(acts)
    ensures worker.Valid() && worker.Abs() == Exec(START, acts).server
  {
    hide Worker.Valid, Worker.Sessions, Worker.Abs, Legal, Next, AnsweredBy, ClientsOk, LegalRun, Exec, AnswersBy;
    worker := new Worker();
    var listeners := new RequestListeners();
    var clients: Clients, replies: Replies := map[], map[];
    ghost var w := START;
    StartClients();
    assert acts[0..] == acts;
    for i := 0 to |acts|
      invariant worker.Valid() && worker.Abs() == w.server && ClientsOk(w, clients, replies)
      invariant LegalRun(w, acts[i..]) && AnswersBy(Larger, Own, w, acts[i..])
      invariant Exec(START, acts) == Exec(w, acts[i..])
      invariant fresh(worker) && fresh(worker.forest) && fresh(worker.holder) && fresh(worker.database)
      invariant fresh(worker.forest.all) && fresh(worker.walks) && fresh(worker.requests)
    {
      FirstOfRun(w, acts, i);
      if acts[i].Submit? {
        clients, replies := ServeSubmit(worker, listeners, clients, replies, w, acts[i]);
      } else {
        replies := ServeRespond(worker, clients, replies, w, acts[i]);
      }
      w := Next(w, acts[i]);
    }
    assert acts[|acts|..] == [];
    NothingLeft(w);
  }

  lemma FirstOfRun(w: World, acts: seq<Action>, i: nat)
    requires i < |acts| && LegalRun(w, acts[i..]) && AnswersBy(Larger, Own, w, acts[i..])
    ensures Legal(w, acts[i]) && AnsweredBy(Larger, Own, w, acts[i])
    ensures var w' := Next(w, acts[i]);
            && LegalRun(w', acts[i + 1..]) && AnswersBy(Larger, Own, w', acts[i + 1..])
            && Exec(w, acts[i..]) == Exec(w', acts[i + 1..])
  {
    hide Legal, Next, AnsweredBy;
    assert acts[i..][0] == acts[i] && acts[i..][1..] == acts[i + 1..];
  }

  lemma NothingLeft(w: World)
    ensures LegalRun(w, []) && Exec(w, []) == w
  {
  }

  lemma StartClients()
    ensures ClientsOk(START, map[], map[])
  {
  }
}
