/** From one side's message to the other side's handler call: serialize, read, parse. */
module Wire {
  import opened Strings
  import opened CborFormat
  import opened CborRoundTrip
  import opened Messages
  import opened Grammar

  /** The calls the object parser makes on the bytes of one network message. */
  function Delivered(bytes: Str): seq<Call> {
    Calls(Init, Read(AtType, bytes).events)
  }

  /** The message as its events carry it: unsigned numbers pass through a signed int. */
  function ItemOf(id: nat, m: Message): Item {
    Item(
      ToI32(id),
      match m
      case GetRequest(database, table, pk) => GetBody(database, table, pk)
      case AddRequest(database, table, row) => AddBody(database, table, |row|, Entries(row))
      case ContinueRequest(initRequestId, compareResult) => ContinueBody(ToI32(initRequestId), compareResult)
      case GetOkResponse(values) => GetOkBody(|values|, Entries(values))
      case GetEmptyResponse => GetEmptyBody
      case AddOkResponse => AddOkBody
      case TraverseResponse(initRequestId, ciphertext) => TraverseBody(ToI32(initRequestId), ciphertext))
  }

  /** The messages that survive the wire: a `pk` below 256 or from 65536 up to 2^31, and a row or
      result with at least one field. */
  predicate Transmissible(m: Message) {
    match m
    case GetRequest(_, _, pk) => pk < 256 || 65536 <= pk < TWO_31
    case AddRequest(_, _, row) => row != map[]
    case GetOkResponse(values) => values != map[]
    case _ => true
  }

  // ---- The events of a written message ----

  lemma {:induction false} HeardAppend(a: seq<Token>, b: seq<Token>)
    requires Plain(a) && Plain(b)
    ensures Plain(a + b) && HeardAll(a + b) == HeardAll(a) + HeardAll(b)
  {
    PlainAppend(a, b);
    if a == [] {
      assert a + b == b;
    } else {
      assert (a + b)[1..] == a[1..] + b && (a + b)[0] == a[0];
      HeardAppend(a[1..], b);
    }
  }

  lemma {:induction false} PairEventsCons(e: Entry, es: seq<Entry>)
    ensures PairEvents([e] + es) == [OnString(e.0), OnString(e.1)] + PairEvents(es)
    decreases |es|
  {
    if es == [] {
      assert [e] + es == [] + [e];
      PairEventsSnoc([], e);
    } else {
      var front, last := es[..|es| - 1], es[|es| - 1];
      assert [e] + es == ([e] + front) + [last] && es == front + [last];
      PairEventsCons(e, front);
      PairEventsSnoc([e] + front, last);
      PairEventsSnoc(front, last);
    }
  }

  lemma {:induction false} EntriesHeard(es: seq<Entry>)
    requires Plain(EntryTokens(es))
    ensures HeardAll(EntryTokens(es)) == PairEvents(es)
  {
    if es == [] {
    } else {
      var ts := EntryTokens(es);
      var pair := [Text(es[0].0), Text(es[0].1)];
      assert ts == pair + EntryTokens(es[1..]);
      assert pair[0] in ts && pair[1] in ts;
      assert forall t | t in EntryTokens(es[1..]) :: t in ts;
      EntriesHeard(es[1..]);
      HeardAppend(pair, EntryTokens(es[1..]));
      PairHeard(es[0]);
      PairEventsCons(es[0], es[1..]);
      assert [es[0]] + es[1..] == es;
    }
  }

  lemma PairHeard(e: Entry)
    requires Plain([Text(e.0), Text(e.1)])
    ensures HeardAll([Text(e.0), Text(e.1)]) == [OnString(e.0), OnString(e.1)]
  {
    var ts := [Text(e.0), Text(e.1)];
    assert ts[1..] == [Text(e.1)] && ts[1..][1..] == [];
  }

  function WrapperHead(id: nat, m: Message): seq<Token> {
    [Tag(if IsRequest(m) then TAG_REQUEST_WRAPPER else TAG_RESPONSE_WRAPPER), Array(2), UInt(id)]
  }

  function WrapperEvents(id: int, m: Message): seq<Event> {
    if IsRequest(m) then RequestEvents(id) else ResponseEvents(id)
  }

  lemma HeadHeard(id: nat, m: Message)
    requires id < TWO_32
    ensures Plain(WrapperHead(id, m)) && HeardAll(WrapperHead(id, m)) == WrapperEvents(ToI32(id), m)
  {
    var ts := WrapperHead(id, m);
    assert ts[1..] == [Array(2), UInt(id)];
    HeardTwo(Array(2), UInt(id));
    assert HeardAll(ts) == [Heard(ts[0])] + HeardAll(ts[1..]);
  }

  /** The events of the part of a body before its map entries. */
  function FixedTokens(m: Message): seq<Token> {
    match m
    case AddRequest(database, table, row) =>
      [Tag(TAG_REQUEST_ADD), Array(3), Text(database), Text(table), Map(|row|)]
    case GetOkResponse(values) => [Tag(TAG_RESPONSE_GET_OK), Map(|values|)]
    case GetRequest(database, table, pk) => [Tag(TAG_REQUEST_GET), Array(3), Text(database), Text(table)]
    case _ => BodyTokens(m)
  }

  function FixedEvents(m: Message): seq<Event> {
    match m
    case AddRequest(database, table, row) =>
      [OnTag(TAG_REQUEST_ADD), OnArray(3), OnString(database), OnString(table), OnMap(|row|)]
    case GetOkResponse(values) => [OnTag(TAG_RESPONSE_GET_OK), OnMap(|values|)]
    case GetRequest(database, table, pk) =>
      [OnTag(TAG_REQUEST_GET), OnArray(3), OnString(database), OnString(table)]
    case ContinueRequest(initRequestId, compareResult) =>
      [OnTag(TAG_REQUEST_ADD_CONTINUE), OnArray(2), OnInteger(ToI32(initRequestId)), OnInteger(compareResult)]
    case GetEmptyResponse => [OnTag(TAG_RESPONSE_GET_NOT_FOUND), OnMap(0)]
    case AddOkResponse => [OnTag(TAG_RESPONSE_ADD_OK), OnMap(0)]
    case TraverseResponse(initRequestId, ciphertext) =>
      [OnTag(TAG_RESPONSE_ADD_TRAVERSE), OnArray(2), OnInteger(ToI32(initRequestId)), OnBytes(ciphertext)]
  }

  lemma HeardTwo(a: Token, b: Token)
    requires Plain([a, b])
    ensures HeardAll([a, b]) == [Heard(a), Heard(b)]
  {
    assert [a, b][1..] == [b] && [b][1..] == [];
  }

  lemma HeardFour(a: Token, b: Token, c: Token, d: Token)
    requires Plain([a, b, c, d])
    ensures HeardAll([a, b, c, d]) == [Heard(a), Heard(b), Heard(c), Heard(d)]
  {
    hide Heard;
    var ts := [a, b, c, d];
    assert ts[1..] == [b, c, d] && [b, c, d][1..] == [c, d];
    HeardTwo(c, d);
  }

  lemma FixedHeard(id: nat, m: Message)
    requires InRange(id, m)
    ensures Plain(FixedTokens(m)) && HeardAll(FixedTokens(m)) == FixedEvents(m)
  {
    hide HeardAll, Entries, EntryTokens, RowFits;
    match m
    case AddRequest(database, table, row) =>
      RowSize(row);
      var four := [Tag(TAG_REQUEST_ADD), Array(3), Text(database), Text(table)];
      HeardFour(four[0], four[1], four[2], four[3]);
      HeardOne(Map(|row|));
      assert FixedTokens(m) == four + [Map(|row|)];
      HeardAppend(four, [Map(|row|)]);
    case GetOkResponse(values) =>
      RowSize(values);
      HeardTwo(Tag(TAG_RESPONSE_GET_OK), Map(|values|));
    case GetRequest(database, table, pk) =>
      HeardFour(Tag(TAG_REQUEST_GET), Array(3), Text(database), Text(table));
    case ContinueRequest(initRequestId, compareResult) =>
      HeardFour(Tag(TAG_REQUEST_ADD_CONTINUE), Array(2), UInt(initRequestId), Int(compareResult));
    case GetEmptyResponse => HeardTwo(Tag(TAG_RESPONSE_GET_NOT_FOUND), Map(0));
    case AddOkResponse => HeardTwo(Tag(TAG_RESPONSE_ADD_OK), Map(0));
    case TraverseResponse(initRequestId, ciphertext) =>
      HeardFour(Tag(TAG_RESPONSE_ADD_TRAVERSE), Array(2), UInt(initRequestId), Bytes(ciphertext));
  }

  lemma HeardOne(a: Token)
    requires Plain([a])
    ensures HeardAll([a]) == [Heard(a)]
  {
    assert [a][1..] == [];
  }

  function RowOf(m: Message): Row {
    match m
    case AddRequest(_, _, row) => row
    case GetOkResponse(values) => values
    case _ => map[]
  }

  lemma RowHeard(id: nat, m: Message)
    requires InRange(id, m)
    ensures Plain(EntryTokens(Entries(RowOf(m)))) &&
            HeardAll(EntryTokens(Entries(RowOf(m)))) == PairEvents(Entries(RowOf(m)))
  {
    hide HeardAll;
    EntryTokensOk(RowOf(m), SortedKeys(RowOf(m).Keys));
    EntriesHeard(Entries(RowOf(m)));
  }

  lemma EmptyRow()
    ensures EntryTokens(Entries(map[])) == [] && PairEvents(Entries(map[])) == []
  {
  }

  lemma TokensSplit(id: nat, m: Message)
    ensures WrapperTokens(id, m) ==
            WrapperHead(id, m) + FixedTokens(m) +
            (if m.GetRequest? then [Long(m.pk)] else EntryTokens(Entries(RowOf(m))))
    ensures !m.GetRequest? ==>
              ItemEvents(ItemOf(id, m)) ==
              WrapperEvents(ToI32(id), m) + FixedEvents(m) + PairEvents(Entries(RowOf(m)))
  {
    hide Entries, EntryTokens, PairEvents;
    EmptyRow();
  }

  /** What is heard of a written message, `GetRequest` apart. */
  lemma MessageHeard(id: nat, m: Message)
    requires InRange(id, m) && !m.GetRequest?
    ensures Read(AtType, Serialized(id, m)) == Stopped(AtType, [], ItemEvents(ItemOf(id, m)))
  {
    hide HeardAll, Entries, EntryTokens, PairEvents, WrapperTokens, WrapperHead, FixedTokens;
    hide FixedEvents, Read, Encode, ItemEvents, ItemOf, InRange, WrapperEvents;
    IdInRange(id, m);
    HeadHeard(id, m);
    FixedHeard(id, m);
    RowHeard(id, m);
    HeardAppend(WrapperHead(id, m), FixedTokens(m));
    HeardAppend(WrapperHead(id, m) + FixedTokens(m), EntryTokens(Entries(RowOf(m))));
    TokensSplit(id, m);
    StreamRoundTrip(WrapperTokens(id, m));
  }

  lemma IdInRange(id: nat, m: Message)
    requires InRange(id, m)
    ensures id < TWO_32
  {
  }

  /** What is heard of a `GetRequest` before its key. */
  lemma GetHeard(id: nat, m: Message)
    requires InRange(id, m) && m.GetRequest?
    ensures Read(AtType, Serialized(id, m)) ==
            Prepend(Pending(GetPk(ToI32(id), m.database, m.table)), Read(AtType, Encode(Long(m.pk))))
  {
    hide HeardAll, WrapperTokens, WrapperHead, FixedTokens, FixedEvents, Read, Encode, Pending, InRange;
    IdInRange(id, m);
    HeadHeard(id, m);
    FixedHeard(id, m);
    HeardAppend(WrapperHead(id, m), FixedTokens(m));
    TokensSplit(id, m);
    var front := WrapperHead(id, m) + FixedTokens(m);
    PkInRange(id, m);
    LongAlone(m.pk);
    EncodeAllAppend(front, [Long(m.pk)]);
    TokensRead(front, Encode(Long(m.pk)));
    GetPending(id, m);
  }

  lemma PkInRange(id: nat, m: Message)
    requires InRange(id, m) && m.GetRequest?
    ensures m.pk < TWO_64
  {
  }

  lemma LongAlone(pk: nat)
    requires pk < TWO_64
    ensures TokensOk([Long(pk)]) && EncodeAll([Long(pk)]) == Encode(Long(pk))
  {
    assert [Long(pk)][1..] == [];
  }

  lemma GetPending(id: nat, m: Message)
    requires m.GetRequest?
    ensures WrapperEvents(ToI32(id), m) + FixedEvents(m) == Pending(GetPk(ToI32(id), m.database, m.table))
  {
  }

  // ---- Delivery ----

  lemma ItemMeansMessage(id: nat, m: Message)
    requires InRange(id, m) && !m.GetRequest?
    ensures Meaning(ItemOf(id, m)) == Dispatch(id, m)
    ensures WellFormed(ItemOf(id, m)) <==> Transmissible(m)
  {
    hide Entries;
    ConversionsUndo(0, id);
    EntriesRoundTrip(RowOf(m));
    match m
    case ContinueRequest(initRequestId, _) => ConversionsUndo(0, initRequestId);
    case TraverseResponse(initRequestId, _) => ConversionsUndo(0, initRequestId);
    case AddRequest(_, _, row) => assert row == map[] <==> |row| == 0;
    case GetOkResponse(values) => assert values == map[] <==> |values| == 0;
    case _ =>
  }

  /** A row or result without fields: its map head is taken in and nothing follows. */
  lemma EmptyMapStalls(id: nat, m: Message)
    requires InRange(id, m) && RowOf(m) == map[] && (m.AddRequest? || m.GetOkResponse?)
    ensures Calls(Init, ItemEvents(ItemOf(id, m))) == []
    ensures Runaway(ParserAfter(Init, ItemEvents(ItemOf(id, m))))
  {
    var p := if m.AddRequest? then AddKey(ToI32(id), m.database, m.table, 0, []) else OkKey(ToI32(id), 0, []);
    PendingLeads(p);
    EmptyItem(id, m, p);
  }

  lemma EmptyItem(id: nat, m: Message, p: Progress)
    requires RowOf(m) == map[] && (m.AddRequest? || m.GetOkResponse?)
    requires p == if m.AddRequest? then AddKey(ToI32(id), m.database, m.table, 0, []) else OkKey(ToI32(id), 0, [])
    ensures ItemEvents(ItemOf(id, m)) == Pending(p)
  {
    assert Entries(RowOf(m)) == [];
  }

  lemma CallsOfOne(p: Progress, e: Event)
    ensures Calls(p, [e]) == CallsOf(React(p, e))
  {
    hide React;
    assert [e][1..] == [];
    assert Calls(Target(p, React(p, e)), []) == [];
    assert CallsOf(React(p, e)) + [] == CallsOf(React(p, e));
  }

  /** The events read from the key, in each range of keys. */
  lemma KeyEvents(pk: nat)
    requires pk < TWO_64
    ensures Read(AtType, Encode(Long(pk))).events ==
            if 256 <= pk < 65536 || TWO_32 <= pk then [] else [OnInteger(ToI32(pk))]
  {
    hide Read, Encode;
    if 256 <= pk < 65536 {
      LongShort(pk);
    } else if pk < TWO_32 {
      LongFour(pk);
    } else {
      LongEight(pk);
    }
  }

  lemma SignExtended(pk: nat)
    requires pk < TWO_32
    ensures ToU64(ToI32(pk)) == if pk < 0x8000_0000 then pk else pk + 0xFFFF_FFFF_0000_0000
  {
  }

  /** A key of two bytes or of more than 32 bits is lost with its request; one from 2^31 on arrives as
      another key, extended by its sign bit. */
  lemma GetDelivered(id: nat, m: Message)
    requires InRange(id, m) && m.GetRequest?
    ensures m.pk < 0x100 || 0x1_0000 <= m.pk < 0x8000_0000 ==> Delivered(Serialized(id, m)) == [Dispatch(id, m)]
    ensures 0x8000_0000 <= m.pk < 0x1_0000_0000 ==>
              Delivered(Serialized(id, m)) ==
              [Dispatch(id, GetRequest(m.database, m.table, m.pk + 0xFFFF_FFFF_0000_0000))]
    ensures 0x100 <= m.pk < 0x1_0000 || 0x1_0000_0000 <= m.pk ==> Delivered(Serialized(id, m)) == []
  {
    hide Read, Encode, Serialized, Pending, Calls, ParserAfter, WrapperTokens;
    var p := GetPk(ToI32(id), m.database, m.table);
    IdInRange(id, m);
    GetHeard(id, m);
    PkInRange(id, m);
    KeyEvents(m.pk);
    if m.pk < TWO_32 {
      SignExtended(m.pk);
    }
    PendingLeads(p);
    ParserAppend(Init, Pending(p), Read(AtType, Encode(Long(m.pk))).events);
    CallsOfOne(p, OnInteger(ToI32(m.pk)));
    CallsNone(p);
    ConversionsUndo(0, id);
  }

  lemma CallsNone(p: Progress)
    ensures Calls(p, []) == []
  {
  }

  /** A serialized message in range reaches the other side's handler as itself, once and with no
      error, exactly when it is transmissible. Request ids survive over all 32 bits. */
  lemma WireRoundTrip(id: nat, m: Message)
    requires InRange(id, m)
    ensures Delivered(Serialized(id, m)) == [Dispatch(id, m)] <==> Transmissible(m)
  {
    hide Read, Serialized, ItemEvents, Meaning, Calls, ItemOf, WrapperTokens, InRange;
    if m.GetRequest? {
      PkInRange(id, m);
      GetDelivered(id, m);
    } else {
      MessageHeard(id, m);
      ItemMeansMessage(id, m);
      if Transmissible(m) {
        ItemDispatched(ItemOf(id, m));
      } else {
        EmptyMapStalls(id, m);
      }
    }
  }

  // ---- A client that writes its numbers as the standard says ----

  /** The bytes of a continuation whose comparison is written as section 2.1 of RFC 7049 says. */
  function ConformingContinue(id: nat, initRequestId: nat, compareResult: int): Str
    requires id < TWO_32 && initRequestId < TWO_32 && -TWO_31 <= compareResult < TWO_31
  {
    var head := [Tag(TAG_REQUEST_WRAPPER), Array(2), UInt(id),
                 Tag(TAG_REQUEST_ADD_CONTINUE), Array(2), UInt(initRequestId)];
    EncodeAll(head) + RfcInt(compareResult)
  }

  lemma SixHeard(id: nat, initRequestId: nat)
    requires id < TWO_32 && initRequestId < TWO_32
    ensures var head := [Tag(TAG_REQUEST_WRAPPER), Array(2), UInt(id),
                         Tag(TAG_REQUEST_ADD_CONTINUE), Array(2), UInt(initRequestId)];
            && Plain(head)
            && HeardAll(head) == RequestEvents(ToI32(id)) +
                 [OnTag(TAG_REQUEST_ADD_CONTINUE), OnArray(2), OnInteger(ToI32(initRequestId))]
  {
    var wrapper := [Tag(TAG_REQUEST_WRAPPER), Array(2), UInt(id)];
    var body := [Tag(TAG_REQUEST_ADD_CONTINUE), Array(2), UInt(initRequestId)];
    HeardThree(wrapper[0], wrapper[1], wrapper[2]);
    HeardThree(body[0], body[1], body[2]);
    HeardAppend(wrapper, body);
    assert wrapper + body == [Tag(TAG_REQUEST_WRAPPER), Array(2), UInt(id),
                              Tag(TAG_REQUEST_ADD_CONTINUE), Array(2), UInt(initRequestId)];
  }

  lemma HeardThree(a: Token, b: Token, c: Token)
    requires Plain([a, b, c])
    ensures HeardAll([a, b, c]) == [Heard(a), Heard(b), Heard(c)]
  {
    hide Heard;
    assert [a, b, c][1..] == [b, c];
    HeardTwo(b, c);
  }

  /** A conforming continuation is dispatched as one with another comparison: each negative one is
      raised by one, so that "goes before", -1, arrives as 0, "is equal". */
  lemma ConformingAnswer(id: nat, initRequestId: nat, compareResult: int)
    requires id < TWO_32 && initRequestId < TWO_32 && -TWO_31 <= compareResult < TWO_31
    ensures Delivered(ConformingContinue(id, initRequestId, compareResult)) ==
            [Dispatch(id, ContinueRequest(
              initRequestId, if compareResult < 0 then compareResult + 1 else compareResult))]
  {
    hide Read, HeardAll, EncodeAll, RfcInt, Calls, Meaning, ItemEvents;
    var head := [Tag(TAG_REQUEST_WRAPPER), Array(2), UInt(id),
                 Tag(TAG_REQUEST_ADD_CONTINUE), Array(2), UInt(initRequestId)];
    var heard := if compareResult < 0 then compareResult + 1 else compareResult;
    var item := Item(ToI32(id), ContinueBody(ToI32(initRequestId), heard));
    SixHeard(id, initRequestId);
    TokensRead(head, RfcInt(compareResult));
    RfcIntHeard(compareResult, []);
    assert RfcInt(compareResult) + [] == RfcInt(compareResult);
    EndRead([OnInteger(heard)]);
    ContinueItem(item, ToI32(id), ToI32(initRequestId), heard);
    ItemDispatched(item);
    ConversionsUndo(0, id);
    ConversionsUndo(0, initRequestId);
    ContinueMeaning(item);
  }

  lemma ContinueItem(item: Item, id: int, initRequestId: int, compareResult: int)
    requires item == Item(id, ContinueBody(initRequestId, compareResult))
    ensures ItemEvents(item) == RequestEvents(id) +
              [OnTag(TAG_REQUEST_ADD_CONTINUE), OnArray(2), OnInteger(initRequestId)] + [OnInteger(compareResult)]
  {
  }

  lemma ContinueMeaning(item: Item)
    requires item.body.ContinueBody?
    ensures Meaning(item) ==
            Dispatch(ToU32(item.id), ContinueRequest(ToU32(item.body.initRequestId), item.body.compareResult))
  {
  }
}
