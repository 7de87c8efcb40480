/** Sizes of what the server holds: everything it has came in a message. */
module Sizes {
  import opened Strings
  import opened PathCode
  import opened Protocol
  import opened Runs
  import Decimal

  /** Every ciphertext the server holds has fewer bytes than the bound. */
  ghost predicate SizesOk(s: Server, bound: nat) {
    && (forall k, p | k in s.trees && p in s.trees[k] :: |s.trees[k][p]| < bound)
    && (forall id | id in s.sessions && s.sessions[id].Some? :: |s.sessions[id].value.value| < bound)
  }

  ghost predicate ReplyOk(r: Reply, initRequestId: nat, bound: nat) {
    r.AddTraverse? ==> r.initRequestId == initRequestId && |r.ciphertext| < bound
  }

  /** Of a row only the filed value is held in a tree or shown to a client. */
  ghost predicate FiledBelow(row: Row, bound: nat) {
    FirstOpe(row).Some? ==> |Filed(row)| < bound
  }

  /** No request makes the server hold or show a ciphertext longer than those it was sent. */
  lemma AddKeepsSizes(s: Server, id: nat, database: Str, table: Str, row: Row, bound: nat)
    requires SizesOk(s, bound) && forall k | k in s.trees :: [] in s.trees[k]
    requires FiledBelow(row, bound)
    ensures var step := AddStep(s, id, database, table, row);
            SizesOk(step.0, bound) && ReplyOk(step.1, id, bound)
  {
    hide FirstOpe, LastOpe, Decimal.Print;
    OpeFieldsMeaning(row);
  }

  lemma ContinueKeepsSizes(s: Server, id: nat, initId: nat, answer: int, bound: nat)
    requires SizesOk(s, bound) && ContinueDefined(s, initId, answer)
    ensures var step := ContinueStep(s, id, initId, answer);
            SizesOk(step.0, bound) && ReplyOk(step.1, initId, bound)
  {
    hide FirstOpe, LastOpe, Decimal.Print, PushBit, Seal, CompletedRow;
  }

  /** The id a request comes with and the reply it draws. */
  function ReplyTo(w: World, a: Action): (r: (nat, Reply))
    requires Legal(w, a)
  {
    match a
    case Submit(id, database, table, row) => (id, AddStep(w.server, id, database, table, row).1)
    case Respond(requestId, id, answer) => (requestId, ContinueStep(w.server, requestId, id, answer).1)
  }

  ghost predicate ActionBelow(a: Action, bound: nat) {
    a.Submit? ==> FiledBelow(a.row, bound)
  }

  lemma NextKeepsSizes(w: World, a: Action, bound: nat)
    requires SizesOk(w.server, bound) && Legal(w, a) && ActionBelow(a, bound)
    ensures SizesOk(Next(w, a).server, bound) && ReplyOk(ReplyTo(w, a).1, a.id, bound)
  {
    hide SizesOk, AddStep, ContinueStep, FirstOpe;
    if a.Submit? {
      AddKeepsSizes(w.server, a.id, a.database, a.table, a.row, bound);
    } else {
      ContinueKeepsSizes(w.server, a.requestId, a.id, a.answer, bound);
    }
  }

  lemma {:induction false} RunKeepsSizes(w: World, acts: seq<Action>, bound: nat)
    requires SizesOk(w.server, bound) && LegalRun(w, acts)
    requires forall a | a in acts :: ActionBelow(a, bound)
    ensures SizesOk(Exec(w, acts).server, bound)
    decreases |acts|
  {
    hide SizesOk, Legal, Next, ActionBelow;
    if acts == [] {
    } else {
      NextKeepsSizes(w, acts[0], bound);
      RunKeepsSizes(Next(w, acts[0]), acts[1..], bound);
    }
  }

  /** In every run, whatever clients answer, the server holds and shows no ciphertext longer than
      the values filed. */
  lemma RunsKeepSizes(acts: seq<Action>, a: Action, bound: nat)
    requires LegalRun(START, acts) && Legal(Exec(START, acts), a)
    requires forall b | b in acts + [a] :: ActionBelow(b, bound)
    ensures SizesOk(Exec(START, acts).server, bound)
    ensures ReplyOk(ReplyTo(Exec(START, acts), a).1, a.id, bound)
  {
    hide LegalRun, Exec, Legal, Next, ActionBelow, ReplyTo, ReplyOk, SizesOk;
    assert SizesOk(START.server, bound) by { StartSizes(bound); }
    assert forall b | b in acts :: b in acts + [a];
    assert a in acts + [a];
    RunKeepsSizes(START, acts, bound);
    NextKeepsSizes(Exec(START, acts), a, bound);
  }

  lemma StartSizes(bound: nat)
    ensures SizesOk(START.server, bound)
  {
  }
}
