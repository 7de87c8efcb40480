/** What the parser accepts: the events it heeds are always a run of whole messages and the
    beginning of one more, and every whole message is dispatched, once, as itself. */
module Grammar {
  import opened CborFormat
  import opened Messages

  /** The events of the message at hand that have been taken in. */
  function Pending(p: Progress): seq<Event> {
    match p
    case Init => []
    case RequestArray => [OnTag(TAG_REQUEST_WRAPPER)]
    case RequestId => [OnTag(TAG_REQUEST_WRAPPER), OnArray(2)]
    case RequestBody(id) => RequestEvents(id)
    case GetArray(id) => RequestEvents(id) + [OnTag(TAG_REQUEST_GET)]
    case GetDatabase(id) => RequestEvents(id) + [OnTag(TAG_REQUEST_GET), OnArray(3)]
    case GetTable(id, database) => RequestEvents(id) + [OnTag(TAG_REQUEST_GET), OnArray(3), OnString(database)]
    case GetPk(id, database, table) =>
      RequestEvents(id) + [OnTag(TAG_REQUEST_GET), OnArray(3), OnString(database), OnString(table)]
    case ResponseArray => [OnTag(TAG_RESPONSE_WRAPPER)]
    case ResponseId => [OnTag(TAG_RESPONSE_WRAPPER), OnArray(2)]
    case ResponseBody(id) => ResponseEvents(id)
    case EmptyMap(id) => ResponseEvents(id) + [OnTag(TAG_RESPONSE_GET_NOT_FOUND)]
    case OkMap(id) => ResponseEvents(id) + [OnTag(TAG_RESPONSE_GET_OK)]
    case OkKey(id, size, entries) => GetOkEvents(id, size, entries)
    case OkValue(id, size, entries, key) => GetOkEvents(id, size, entries) + [OnString(key)]
    case AddArray(id) => RequestEvents(id) + [OnTag(TAG_REQUEST_ADD)]
    case AddDatabase(id) => RequestEvents(id) + [OnTag(TAG_REQUEST_ADD), OnArray(3)]
    case AddTable(id, database) => RequestEvents(id) + [OnTag(TAG_REQUEST_ADD), OnArray(3), OnString(database)]
    case AddRow(id, database, table) =>
      RequestEvents(id) + [OnTag(TAG_REQUEST_ADD), OnArray(3), OnString(database), OnString(table)]
    case AddKey(id, database, table, size, entries) => AddEvents(id, database, table, size, entries)
    case AddValue(id, database, table, size, entries, key) =>
      AddEvents(id, database, table, size, entries) + [OnString(key)]
    case AddOkMap(id) => ResponseEvents(id) + [OnTag(TAG_RESPONSE_ADD_OK)]
    case TraverseArray(id) => ResponseEvents(id) + [OnTag(TAG_RESPONSE_ADD_TRAVERSE)]
    case TraverseId(id) => ResponseEvents(id) + [OnTag(TAG_RESPONSE_ADD_TRAVERSE), OnArray(2)]
    case TraverseData(id, initRequestId) =>
      ResponseEvents(id) + [OnTag(TAG_RESPONSE_ADD_TRAVERSE), OnArray(2), OnInteger(initRequestId)]
    case ContinueArray(id) => RequestEvents(id) + [OnTag(TAG_REQUEST_ADD_CONTINUE)]
    case ContinueId(id) => RequestEvents(id) + [OnTag(TAG_REQUEST_ADD_CONTINUE), OnArray(2)]
    case ContinueCompare(id, initRequestId) =>
      RequestEvents(id) + [OnTag(TAG_REQUEST_ADD_CONTINUE), OnArray(2), OnInteger(initRequestId)]
  }

  lemma PairEventsSnoc(es: seq<Entry>, e: Entry)
    ensures PairEvents(es + [e]) == PairEvents(es) + [OnString(e.0), OnString(e.1)]
  {
    assert (es + [e])[..|es|] == es;
  }

  /** An accepted event lengthens the message at hand by itself, and a completed message is
      what was at hand with its last event. */
  ghost predicate Extended(p: Progress, e: Event) {
    match React(p, e)
    case Accept(next) => Pending(next) == Pending(p) + [e]
    case Complete(item) => ItemEvents(item) == Pending(p) + [e] && WellFormed(item)
    case Reject => true
  }

  lemma ExtendedByNumber(p: Progress, e: Event)
    requires e.OnInteger? || e.OnBytes? || e.OnSpecial? || e.OnError?
    ensures Extended(p, e)
  {
  }

  lemma ExtendedByTag(p: Progress, e: Event)
    requires e.OnTag?
    ensures Extended(p, e)
  {
  }

  lemma ExtendedByArray(p: Progress, e: Event)
    requires e.OnArray?
    ensures Extended(p, e)
  {
  }

  lemma ExtendedByMap(p: Progress, e: Event)
    requires e.OnMap?
    ensures Extended(p, e)
  {
  }

  lemma ExtendedByName(p: Progress, e: Event)
    requires e.OnString? && !p.OkValue? && !p.AddValue?
    ensures Extended(p, e)
  {
  }

  lemma ExtendedByResultValue(p: Progress, e: Event)
    requires e.OnString? && p.OkValue?
    ensures Extended(p, e)
  {
    hide PairEvents;
    PairEventsSnoc(p.entries, (p.key, e.str));
  }

  lemma ExtendedByRowValue(p: Progress, e: Event)
    requires e.OnString? && p.AddValue?
    ensures Extended(p, e)
  {
    hide PairEvents;
    PairEventsSnoc(p.entries, (p.key, e.str));
  }

  lemma ReactExtends(p: Progress, e: Event)
    ensures Extended(p, e)
  {
    hide Extended;
    if e.OnTag? { ExtendedByTag(p, e); }
    else if e.OnArray? { ExtendedByArray(p, e); }
    else if e.OnMap? { ExtendedByMap(p, e); }
    else if !e.OnString? { ExtendedByNumber(p, e); }
    else if p.OkValue? { ExtendedByResultValue(p, e); }
    else if p.AddValue? { ExtendedByRowValue(p, e); }
    else { ExtendedByName(p, e); }
  }

  // ---- Soundness on arbitrary events ----

  /** The events that did not draw an error. */
  function Accepted(p: Progress, es: seq<Event>): seq<Event>
    decreases |es|
  {
    if es == [] then []
    else
      var r := React(p, es[0]);
      (if r == Reject then [] else [es[0]]) + Accepted(Target(p, r), es[1..])
  }

  /** The messages completed. */
  function Completed(p: Progress, es: seq<Event>): seq<Item>
    decreases |es|
  {
    if es == [] then []
    else
      var r := React(p, es[0]);
      (if r.Complete? then [r.item] else []) + Completed(Target(p, r), es[1..])
  }

  function Flat(items: seq<Item>): seq<Event> {
    if items == [] then [] else ItemEvents(items[0]) + Flat(items[1..])
  }

  function Dispatches(calls: seq<Call>): seq<Call> {
    if calls == [] then []
    else (if calls[0].Dispatch? then [calls[0]] else []) + Dispatches(calls[1..])
  }

  function Meanings(items: seq<Item>): seq<Call> {
    if items == [] then [] else [Meaning(items[0])] + Meanings(items[1..])
  }

  /** One event, in the form the induction uses. */
  lemma SoundStep(p: Progress, e: Event)
    ensures var r := React(p, e);
            match r {
              case Accept(next) => Pending(next) == Pending(p) + [e]
              case Complete(item) => ItemEvents(item) == Pending(p) + [e] && WellFormed(item) && Pending(Init) == []
              case Reject => true
            }
  {
    hide React, Pending, ItemEvents, WellFormed;
    ReactExtends(p, e);
    PendingInit();
  }

  lemma PendingInit()
    ensures Pending(Init) == []
  {
  }

  lemma {:induction false} AcceptedIsFlat(p: Progress, es: seq<Event>)
    ensures Pending(p) + Accepted(p, es) == Flat(Completed(p, es)) + Pending(ParserAfter(p, es))
    decreases |es|
  {
    hide Pending, React, ItemEvents, WellFormed, Meaning;
    if es == [] {
    } else {
      var e, r := es[0], React(p, es[0]);
      var next, tail := Target(p, r), es[1..];
      AcceptedIsFlat(next, tail);
      SoundStep(p, e);
      if r != Reject {
        assert Pending(p) + ([e] + Accepted(next, tail)) == (Pending(p) + [e]) + Accepted(next, tail);
      }
      if r == Reject {
        assert Accepted(p, es) == Accepted(next, tail);
      }
      if !r.Complete? {
        assert Completed(p, es) == Completed(next, tail);
      } else {
        assert Completed(p, es) == [r.item] + Completed(next, tail);
        CompleteFlat(r.item, Completed(next, tail), Pending(ParserAfter(next, tail)), Accepted(next, tail));
      }
    }
  }

  lemma CompleteFlat(item: Item, items: seq<Item>, pending: seq<Event>, accepted: seq<Event>)
    requires Pending(Init) + accepted == Flat(items) + pending
    ensures ItemEvents(item) + accepted == Flat([item] + items) + pending
  {
    hide ItemEvents;
    assert ([item] + items)[1..] == items;
    assert [] + accepted == accepted;
  }

  lemma {:induction false} CompletedWellFormed(p: Progress, es: seq<Event>)
    ensures forall item | item in Completed(p, es) :: WellFormed(item)
    decreases |es|
  {
    hide Pending, React, ItemEvents, WellFormed, Meaning;
    if es == [] {
    } else {
      CompletedWellFormed(Target(p, React(p, es[0])), es[1..]);
      SoundStep(p, es[0]);
    }
  }

  lemma {:induction false} CompletedDispatched(p: Progress, es: seq<Event>)
    ensures Dispatches(Calls(p, es)) == Meanings(Completed(p, es))
    decreases |es|
  {
    hide React, WellFormed;
    if es == [] {
    } else {
      var r := React(p, es[0]);
      var more := Calls(Target(p, r), es[1..]);
      CompletedDispatched(Target(p, r), es[1..]);
      assert (CallsOf(r) + more)[|CallsOf(r)|..] == more;
      var items := Completed(Target(p, r), es[1..]);
      if r.Complete? {
        assert ([r.item] + items)[1..] == items;
      } else {
        assert Completed(p, es) == items;
        if r.Accept? {
          assert Calls(p, es) == more;
        }
      }
    }
  }

  lemma {:induction false} RejectedFail(p: Progress, es: seq<Event>)
    ensures |Calls(p, es)| == |Completed(p, es)| + |es| - |Accepted(p, es)|
    ensures multiset(Calls(p, es))[Failed] == |es| - |Accepted(p, es)|
    decreases |es|
  {
    hide React, Meaning;
    if es == [] {
    } else {
      var r := React(p, es[0]);
      RejectedFail(Target(p, r), es[1..]);
      assert Calls(p, es) == CallsOf(r) + Calls(Target(p, r), es[1..]);
      FailureOf(r);
    }
  }

  lemma FailureOf(r: Reaction)
    ensures multiset(CallsOf(r))[Failed] == if r == Reject then 1 else 0
  {
  }

  /** Whatever events arrive, deleting those that drew an error leaves whole well-formed messages
      and the beginning of one more; the calls made are those messages, in order, and one error for
      each event deleted. */
  lemma ParserSound(es: seq<Event>)
    ensures Accepted(Init, es) == Flat(Completed(Init, es)) + Pending(ParserAfter(Init, es))
    ensures forall item | item in Completed(Init, es) :: WellFormed(item)
    ensures Dispatches(Calls(Init, es)) == Meanings(Completed(Init, es))
    ensures multiset(Calls(Init, es))[Failed] == |es| - |Accepted(Init, es)|
    ensures |Calls(Init, es)| == |Completed(Init, es)| + |es| - |Accepted(Init, es)|
  {
    RejectedFail(Init, es);
    AcceptedIsFlat(Init, es);
    CompletedWellFormed(Init, es);
    CompletedDispatched(Init, es);
    assert Pending(Init) + Accepted(Init, es) == Accepted(Init, es);
  }

  // ---- Completeness ----

  lemma {:induction false} ParserAppend(p: Progress, a: seq<Event>, b: seq<Event>)
    ensures ParserAfter(p, a + b) == ParserAfter(ParserAfter(p, a), b)
    ensures Calls(p, a + b) == Calls(p, a) + Calls(ParserAfter(p, a), b)
    decreases |a|
  {
    hide React, Meaning;
    if a == [] {
      assert a + b == b;
    } else {
      assert (a + b)[1..] == a[1..] + b;
      ParserAppend(Target(p, React(p, a[0])), a[1..], b);
    }
  }

  /** The events lead from the first state to the second without a call. */
  ghost predicate Leads(p: Progress, es: seq<Event>, q: Progress) {
    ParserAfter(p, es) == q && Calls(p, es) == []
  }

  lemma LeadsOne(p: Progress, e: Event, q: Progress)
    requires React(p, e) == Accept(q)
    ensures Leads(p, [e], q)
  {
    hide React;
    assert [e][1..] == [];
    assert Target(p, React(p, e)) == q;
    assert ParserAfter(q, []) == q && Calls(q, []) == [];
  }

  lemma LeadsAppend(p: Progress, a: seq<Event>, q: Progress, b: seq<Event>, r: Progress)
    requires Leads(p, a, q) && Leads(q, b, r)
    ensures Leads(p, a + b, r)
  {
    ParserAppend(p, a, b);
  }

  lemma LeadsSnoc(p: Progress, a: seq<Event>, q: Progress, e: Event, r: Progress)
    requires Leads(p, a, q) && React(q, e) == Accept(r)
    ensures Leads(p, a + [e], r)
  {
    hide React, Leads;
    LeadsOne(q, e, r);
    LeadsAppend(p, a, q, [e], r);
  }

  lemma LeadsThen(p: Progress, a: seq<Event>, q: Progress, e: Event, item: Item)
    requires Leads(p, a, q) && React(q, e) == Complete(item)
    ensures ParserAfter(p, a + [e]) == Init && Calls(p, a + [e]) == [Meaning(item)]
  {
    hide React, Meaning;
    ParserAppend(p, a, [e]);
    assert [e][1..] == [];
    var next := Target(q, React(q, e));
    assert ParserAfter(next, []) == next && Calls(next, []) == [];
  }

  /** A state that can come up: a map that is still open has not had its announced number of entries. */
  predicate Open(size: int, entries: seq<Entry>) {
    size <= 0 || |entries| < size
  }

  predicate Reachable(p: Progress) {
    match p
    case OkKey(_, size, entries) => Open(size, entries)
    case OkValue(_, size, entries, _) => Open(size, entries)
    case AddKey(_, _, _, size, entries) => Open(size, entries)
    case AddValue(_, _, _, size, entries, _) => Open(size, entries)
    case _ => true
  }

  /** The state before the last event taken in, and that event. */
  function Before(p: Progress): (Progress, Event)
    requires p != Init
  {
    match p
    case RequestArray => (Init, OnTag(TAG_REQUEST_WRAPPER))
    case RequestId => (RequestArray, OnArray(2))
    case RequestBody(id) => (RequestId, OnInteger(id))
    case GetArray(id) => (RequestBody(id), OnTag(TAG_REQUEST_GET))
    case GetDatabase(id) => (GetArray(id), OnArray(3))
    case GetTable(id, database) => (GetDatabase(id), OnString(database))
    case GetPk(id, database, table) => (GetTable(id, database), OnString(table))
    case ResponseArray => (Init, OnTag(TAG_RESPONSE_WRAPPER))
    case ResponseId => (ResponseArray, OnArray(2))
    case ResponseBody(id) => (ResponseId, OnInteger(id))
    case EmptyMap(id) => (ResponseBody(id), OnTag(TAG_RESPONSE_GET_NOT_FOUND))
    case OkMap(id) => (ResponseBody(id), OnTag(TAG_RESPONSE_GET_OK))
    case OkKey(id, size, entries) =>
      if entries == [] then (OkMap(id), OnMap(size))
      else
        var (key, value) := entries[|entries| - 1];
        (OkValue(id, size, entries[..|entries| - 1], key), OnString(value))
    case OkValue(id, size, entries, key) => (OkKey(id, size, entries), OnString(key))
    case AddArray(id) => (RequestBody(id), OnTag(TAG_REQUEST_ADD))
    case AddDatabase(id) => (AddArray(id), OnArray(3))
    case AddTable(id, database) => (AddDatabase(id), OnString(database))
    case AddRow(id, database, table) => (AddTable(id, database), OnString(table))
    case AddKey(id, database, table, size, entries) =>
      if entries == [] then (AddRow(id, database, table), OnMap(size))
      else
        var (key, value) := entries[|entries| - 1];
        (AddValue(id, database, table, size, entries[..|entries| - 1], key), OnString(value))
    case AddValue(id, database, table, size, entries, key) =>
      (AddKey(id, database, table, size, entries), OnString(key))
    case AddOkMap(id) => (ResponseBody(id), OnTag(TAG_RESPONSE_ADD_OK))
    case TraverseArray(id) => (ResponseBody(id), OnTag(TAG_RESPONSE_ADD_TRAVERSE))
    case TraverseId(id) => (TraverseArray(id), OnArray(2))
    case TraverseData(id, initRequestId) => (TraverseId(id), OnInteger(initRequestId))
    case ContinueArray(id) => (RequestBody(id), OnTag(TAG_REQUEST_ADD_CONTINUE))
    case ContinueId(id) => (ContinueArray(id), OnArray(2))
    case ContinueCompare(id, initRequestId) => (ContinueId(id), OnInteger(initRequestId))
  }

  ghost predicate ComesFrom(p: Progress, q: Progress, e: Event) {
    Reachable(q) && React(q, e) == Accept(p)
  }

  lemma BeforeEntryReacts(p: Progress)
    requires (p.OkKey? || p.AddKey?) && p.entries != [] && Reachable(p)
    ensures ComesFrom(p, Before(p).0, Before(p).1)
  {
    var es := p.entries;
    var (key, value) := es[|es| - 1];
    assert es[..|es| - 1] + [(key, value)] == es;
  }

  /** The states of a request, of a response, and of the rest of a message. */
  predicate InRequest(p: Progress) {
    p.RequestArray? || p.RequestId? || p.RequestBody? || p.GetArray? || p.GetDatabase? || p.GetTable? || p.GetPk? ||
    p.ContinueArray? || p.ContinueId? || p.ContinueCompare?
  }

  predicate InAdd(p: Progress) {
    p.AddArray? || p.AddDatabase? || p.AddTable? || p.AddRow? || p.AddKey? || p.AddValue?
  }

  lemma BeforeRequestReacts(p: Progress)
    requires InRequest(p)
    ensures ComesFrom(p, Before(p).0, Before(p).1)
  {
  }

  lemma BeforeAddReacts(p: Progress)
    requires InAdd(p) && Reachable(p) && (p.AddKey? ==> p.entries == [])
    ensures ComesFrom(p, Before(p).0, Before(p).1)
  {
  }

  lemma BeforeResponseReacts(p: Progress)
    requires p != Init && !InRequest(p) && !InAdd(p) && Reachable(p) && (p.OkKey? ==> p.entries == [])
    ensures ComesFrom(p, Before(p).0, Before(p).1)
  {
  }

  lemma BeforeOthersReacts(p: Progress)
    requires p != Init && Reachable(p)
    requires (p.OkKey? || p.AddKey?) ==> p.entries == []
    ensures ComesFrom(p, Before(p).0, Before(p).1)
  {
    hide ComesFrom, Reachable, Before;
    if InRequest(p) {
      BeforeRequestReacts(p);
    } else if InAdd(p) {
      BeforeAddReacts(p);
    } else {
      BeforeResponseReacts(p);
    }
  }

  lemma BeforeReacts(p: Progress)
    requires p != Init && Reachable(p)
    ensures ComesFrom(p, Before(p).0, Before(p).1)
  {
    hide ComesFrom;
    if (p.OkKey? || p.AddKey?) && p.entries != [] {
      BeforeEntryReacts(p);
    } else {
      BeforeOthersReacts(p);
    }
  }

  /** From the start, the events pending in a state lead to it. */
  lemma {:induction false} PendingLeads(p: Progress)
    requires Reachable(p)
    ensures Leads(Init, Pending(p), p)
    decreases |Pending(p)|
  {
    if p == Init {
    } else {
      hide React, Pending, Leads, Before;
      var (q, e) := Before(p);
      BeforeReacts(p);
      SoundStep(q, e);
      PendingLeads(q);
      LeadsSnoc(Init, Pending(q), q, e, p);
    }
  }

  /** The state before the last event of a message, and that event. */
  function BeforeEnd(item: Item): (Progress, Event)
    requires WellFormed(item)
  {
    match item.body
    case GetBody(database, table, pk) => (GetPk(item.id, database, table), OnInteger(pk))
    case AddBody(database, table, size, es) =>
      (AddValue(item.id, database, table, size, es[..|es| - 1], es[|es| - 1].0), OnString(es[|es| - 1].1))
    case ContinueBody(initRequestId, compareResult) =>
      (ContinueCompare(item.id, initRequestId), OnInteger(compareResult))
    case GetOkBody(size, es) =>
      (OkValue(item.id, size, es[..|es| - 1], es[|es| - 1].0), OnString(es[|es| - 1].1))
    case GetEmptyBody => (EmptyMap(item.id), OnMap(0))
    case AddOkBody => (AddOkMap(item.id), OnMap(0))
    case TraverseBody(initRequestId, data) => (TraverseData(item.id, initRequestId), OnBytes(data))
  }

  lemma BeforeEndReacts(item: Item)
    requires WellFormed(item)
    ensures Reachable(BeforeEnd(item).0) && React(BeforeEnd(item).0, BeforeEnd(item).1) == Complete(item)
  {
    if item.body.AddBody? || item.body.GetOkBody? {
      var es := item.body.entries;
      assert es[..|es| - 1] + [(es[|es| - 1].0, es[|es| - 1].1)] == es;
    }
  }

  /** A well-formed message is dispatched, once, without an error. */
  lemma ItemDispatched(item: Item)
    requires WellFormed(item)
    ensures ParserAfter(Init, ItemEvents(item)) == Init && Calls(Init, ItemEvents(item)) == [Meaning(item)]
  {
    hide React, Pending, Leads, BeforeEnd, ItemEvents, WellFormed, Meaning;
    var (q, e) := BeforeEnd(item);
    BeforeEndReacts(item);
    PendingLeads(q);
    SoundStep(q, e);
    LeadsThen(Init, Pending(q), q, e, item);
  }

  /** Any concatenation of well-formed messages is dispatched as exactly those messages. */
  lemma {:induction false} ParserComplete(items: seq<Item>)
    requires forall item | item in items :: WellFormed(item)
    ensures ParserAfter(Init, Flat(items)) == Init
    ensures Calls(Init, Flat(items)) == Meanings(items)
  {
    if items == [] {
    } else {
      hide ItemEvents, Meaning, WellFormed;
      ItemDispatched(items[0]);
      ParserComplete(items[1..]);
      ParserAppend(Init, ItemEvents(items[0]), Flat(items[1..]));
    }
  }

  // ---- Maps announced empty ----

  predicate Runaway(p: Progress) {
    match p
    case OkKey(_, size, entries) => size <= |entries|
    case OkValue(_, size, entries, _) => size <= |entries|
    case AddKey(_, _, _, size, entries) => size <= |entries|
    case AddValue(_, _, _, size, entries, _) => size <= |entries|
    case _ => false
  }

  lemma RunawayReacts(p: Progress, e: Event)
    requires Runaway(p)
    ensures Runaway(Target(p, React(p, e))) && !React(p, e).Complete?
  {
  }

  /** After a map head that announces no entries nothing is ever dispatched again. */
  lemma {:induction false} RunawayNeverDispatches(p: Progress, es: seq<Event>)
    requires Runaway(p)
    ensures Runaway(ParserAfter(p, es)) && Dispatches(Calls(p, es)) == []
    decreases |es|
  {
    hide React, Runaway, Meaning;
    if es == [] {
    } else {
      var r := React(p, es[0]);
      var more := Calls(Target(p, r), es[1..]);
      RunawayReacts(p, es[0]);
      RunawayNeverDispatches(Target(p, r), es[1..]);
      assert Calls(p, es) == CallsOf(r) + more && (CallsOf(r) + more)[|CallsOf(r)|..] == more;
    }
  }
}
