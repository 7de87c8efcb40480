/** The messages and how they are written; the grammar the object parser accepts; and what a
    stream of reader events means in it. */
module Messages {
  import opened Strings
  import opened CborFormat

  datatype Message =
    | GetRequest(database: Str, table: Str, pk: nat)
    | AddRequest(database: Str, table: Str, row: Row)
    | ContinueRequest(initRequestId: nat, compareResult: int)
    | GetOkResponse(values: Row)
    | GetEmptyResponse
    | AddOkResponse
    | TraverseResponse(initRequestId: nat, ciphertext: Str)

  type Entry = (Str, Str)

  // ---- Rows as the sequences in which they are written ----

  /** The entries of a row in the order of its keys. */
  function EntriesOf(row: Row, keys: seq<Str>): (es: seq<Entry>)
    requires forall k | k in keys :: k in row
    ensures |es| == |keys|
  {
    if keys == [] then [] else [(keys[0], row[keys[0]])] + EntriesOf(row, keys[1..])
  }

  function Entries(row: Row): (es: seq<Entry>)
    ensures |es| == |row|
  {
    EntriesOf(row, SortedKeys(row.Keys))
  }

  /** What assigning the entries one by one leaves in a map. */
  function MapOf(es: seq<Entry>): Row {
    if es == [] then map[] else MapOf(es[..|es| - 1])[es[|es| - 1].0 := es[|es| - 1].1]
  }

  lemma {:induction false} MapOfCons(e: Entry, es: seq<Entry>)
    ensures MapOf([e] + es) == map[e.0 := e.1] + MapOf(es)
    decreases |es|
  {
    var s := [e] + es;
    if es == [] {
      assert s[..0] == [];
    } else {
      assert s[..|s| - 1] == [e] + es[..|es| - 1];
      MapOfCons(e, es[..|es| - 1]);
    }
  }

  /** Of several entries under one name the last one counts. */
  lemma {:induction false} LastEntryCounts(es: seq<Entry>)
    ensures forall k :: k in MapOf(es) <==> exists i :: 0 <= i < |es| && es[i].0 == k
    ensures forall i | 0 <= i < |es| && (forall j | i < j < |es| :: es[j].0 != es[i].0) ::
              es[i].0 in MapOf(es) && MapOf(es)[es[i].0] == es[i].1
    decreases |es|
  {
    if es == [] {
    } else {
      var n, m := |es| - 1, MapOf(es[..|es| - 1]);
      LastEntryCounts(es[..n]);
      assert MapOf(es) == m[es[n].0 := es[n].1];
      forall k ensures k in MapOf(es) <==> exists i :: 0 <= i < |es| && es[i].0 == k {
        if k in m {
          var i :| 0 <= i < n && es[..n][i].0 == k;
          assert es[i].0 == k;
        }
        if i :| 0 <= i < |es| && es[i].0 == k {
          assert i < n ==> es[..n][i].0 == k;
        }
      }
      forall i | 0 <= i < |es| && (forall j | i < j < |es| :: es[j].0 != es[i].0)
        ensures es[i].0 in MapOf(es) && MapOf(es)[es[i].0] == es[i].1 {
        if i < n {
          assert es[..n][i] == es[i] && forall j | i < j < n :: es[..n][j].0 == es[j].0;
        }
      }
    }
  }

  lemma RestrictedCons(row: Row, keys: seq<Str>)
    requires keys != [] && forall k | k in keys :: k in row
    ensures map[keys[0] := row[keys[0]]] + (map k | k in keys[1..] :: row[k]) == map k | k in keys :: row[k]
  {
    assert forall k :: k in keys <==> k == keys[0] || k in keys[1..];
  }

  lemma {:induction false} MapOfEntriesOf(row: Row, keys: seq<Str>)
    requires forall k | k in keys :: k in row
    ensures MapOf(EntriesOf(row, keys)) == map k | k in keys :: row[k]
  {
    if keys == [] {
    } else {
      hide MapOf;
      MapOfCons((keys[0], row[keys[0]]), EntriesOf(row, keys[1..]));
      MapOfEntriesOf(row, keys[1..]);
      RestrictedCons(row, keys);
    }
  }

  /** A row read back entry by entry is the row. */
  lemma EntriesRoundTrip(row: Row)
    ensures MapOf(Entries(row)) == row
  {
    MapOfEntriesOf(row, SortedKeys(row.Keys));
  }

  lemma {:induction false} EntriesOfAt(row: Row, keys: seq<Str>, i: nat)
    requires (forall k | k in keys :: k in row) && i < |keys|
    ensures EntriesOf(row, keys)[i] == (keys[i], row[keys[i]])
  {
    if i == 0 {
    } else {
      EntriesOfAt(row, keys[1..], i - 1);
    }
  }

  /** The entries are the row's fields with their values, each once, in ascending order of the names. */
  lemma EntriesInKeyOrder(row: Row)
    ensures |Entries(row)| == |row|
    ensures forall i | 0 <= i < |Entries(row)| ::
              Entries(row)[i].0 in row && Entries(row)[i].1 == row[Entries(row)[i].0]
    ensures forall i, j | 0 <= i < j < |Entries(row)| :: Less(Entries(row)[i].0, Entries(row)[j].0)
  {
    hide EntriesOf, Less;
    var keys := SortedKeys(row.Keys);
    forall i | 0 <= i < |keys| ensures Entries(row)[i] == (keys[i], row[keys[i]]) {
      EntriesOfAt(row, keys, i);
    }
  }

  // ---- Writing ----

  const TAG_REQUEST_WRAPPER := 1000
  const TAG_RESPONSE_WRAPPER := 2000
  const TAG_REQUEST_GET := 1100
  const TAG_RESPONSE_GET_OK := 2100
  const TAG_RESPONSE_GET_NOT_FOUND := 2101
  const TAG_REQUEST_ADD := 1200
  const TAG_RESPONSE_ADD_OK := 2200
  const TAG_RESPONSE_ADD_TRAVERSE := 2201
  const TAG_REQUEST_ADD_CONTINUE := 3100

  function EntryTokens(es: seq<Entry>): (ts: seq<Token>)
    ensures |ts| == 2 * |es|
  {
    if es == [] then [] else [Text(es[0].0), Text(es[0].1)] + EntryTokens(es[1..])
  }

  /** The `Serialize` method of each request and response. */
  function BodyTokens(m: Message): seq<Token> {
    match m
    case GetRequest(database, table, pk) =>
      [Tag(TAG_REQUEST_GET), Array(3), Text(database), Text(table), Long(pk)]
    case AddRequest(database, table, row) =>
      [Tag(TAG_REQUEST_ADD), Array(3), Text(database), Text(table), Map(|row|)] + EntryTokens(Entries(row))
    case ContinueRequest(initRequestId, compareResult) =>
      [Tag(TAG_REQUEST_ADD_CONTINUE), Array(2), UInt(initRequestId), Int(compareResult)]
    case GetOkResponse(values) =>
      [Tag(TAG_RESPONSE_GET_OK), Map(|values|)] + EntryTokens(Entries(values))
    case GetEmptyResponse => [Tag(TAG_RESPONSE_GET_NOT_FOUND), Map(0)]
    case AddOkResponse => [Tag(TAG_RESPONSE_ADD_OK), Map(0)]
    case TraverseResponse(initRequestId, ciphertext) =>
      [Tag(TAG_RESPONSE_ADD_TRAVERSE), Array(2), UInt(initRequestId), Bytes(ciphertext)]
  }

  predicate IsRequest(m: Message) {
    m.GetRequest? || m.AddRequest? || m.ContinueRequest?
  }

  /** The `Serialize` methods of the two wrappers. */
  function WrapperTokens(id: nat, m: Message): seq<Token> {
    [Tag(if IsRequest(m) then TAG_REQUEST_WRAPPER else TAG_RESPONSE_WRAPPER), Array(2), UInt(id)] + BodyTokens(m)
  }

  predicate RowFits(row: Row) {
    |row| < TWO_31 && forall k | k in row :: |k| < TWO_31 && |row[k]| < TWO_31
  }

  /** Every field is in the range of its C++ type; sizes fit an `int`; INT_MIN is not written. */
  predicate InRange(id: nat, m: Message) {
    && id < TWO_32
    && match m {
         case GetRequest(database, table, pk) => |database| < TWO_31 && |table| < TWO_31 && pk < TWO_64
         case AddRequest(database, table, row) => |database| < TWO_31 && |table| < TWO_31 && RowFits(row)
         case ContinueRequest(initRequestId, compareResult) =>
           initRequestId < TWO_32 && -TWO_31 < compareResult < TWO_31
         case GetOkResponse(values) => RowFits(values)
         case TraverseResponse(initRequestId, ciphertext) => initRequestId < TWO_32 && |ciphertext| < TWO_31
         case _ => true
       }
  }

  lemma {:induction false} EntryTokensOk(row: Row, keys: seq<Str>)
    requires RowFits(row) && forall k | k in keys :: k in row
    ensures forall t | t in EntryTokens(EntriesOf(row, keys)) :: TokenOk(t) && !t.Long?
  {
    if keys == [] {
    } else {
      assert keys[0] in keys;
      EntryTokensOk(row, keys[1..]);
      assert EntriesOf(row, keys)[1..] == EntriesOf(row, keys[1..]);
    }
  }

  predicate Plain(ts: seq<Token>) {
    forall t | t in ts :: TokenOk(t) && !t.Long?
  }

  lemma PlainAppend(a: seq<Token>, b: seq<Token>)
    requires Plain(a) && Plain(b)
    ensures Plain(a + b)
  {
  }

  lemma RowTokensOk(head: seq<Token>, row: Row)
    requires Plain(head) && RowFits(row)
    ensures Plain(head + EntryTokens(Entries(row)))
  {
    EntryTokensOk(row, SortedKeys(row.Keys));
  }

  lemma BodyTokensOk(id: nat, m: Message)
    requires InRange(id, m)
    ensures TokensOk(BodyTokens(m)) && (!m.GetRequest? ==> Plain(BodyTokens(m)))
  {
    hide Entries, EntryTokens, RowFits;
    if m.AddRequest? {
      RowSize(m.row);
      RowTokensOk([Tag(TAG_REQUEST_ADD), Array(3), Text(m.database), Text(m.table), Map(|m.row|)], m.row);
    } else if m.GetOkResponse? {
      RowSize(m.values);
      RowTokensOk([Tag(TAG_RESPONSE_GET_OK), Map(|m.values|)], m.values);
    }
  }

  lemma RowSize(row: Row)
    requires RowFits(row)
    ensures |row| < TWO_31
  {
  }

  /** Whatever is in range can be written. */
  lemma WrapperTokensOk(id: nat, m: Message)
    requires InRange(id, m)
    ensures TokensOk(WrapperTokens(id, m)) && (!m.GetRequest? ==> Plain(WrapperTokens(id, m)))
  {
    hide BodyTokens;
    BodyTokensOk(id, m);
  }

  function Serialized(id: nat, m: Message): Str
    requires InRange(id, m)
  {
    WrapperTokensOk(id, m);
    EncodeAll(WrapperTokens(id, m))
  }

  // ---- The grammar, in reader events ----

  datatype Body =
    | GetBody(database: Str, table: Str, pk: int)
    | AddBody(database: Str, table: Str, size: int, entries: seq<Entry>)
    | ContinueBody(initRequestId: int, compareResult: int)
    | GetOkBody(size: int, entries: seq<Entry>)
    | GetEmptyBody
    | AddOkBody
    | TraverseBody(initRequestId: int, data: Str)

  /** One wrapper message as it arrives: numbers are still the listener's signed ints. */
  datatype Item = Item(id: int, body: Body)

  /** A handler call of the parser's listener. */
  datatype Call =
    | Dispatch(id: nat, message: Message)
    | Failed

  function PairEvents(es: seq<Entry>): seq<Event> {
    if es == [] then []
    else PairEvents(es[..|es| - 1]) + [OnString(es[|es| - 1].0), OnString(es[|es| - 1].1)]
  }

  function RequestEvents(id: int): seq<Event> {
    [OnTag(TAG_REQUEST_WRAPPER), OnArray(2), OnInteger(id)]
  }

  function ResponseEvents(id: int): seq<Event> {
    [OnTag(TAG_RESPONSE_WRAPPER), OnArray(2), OnInteger(id)]
  }

  function AddEvents(id: int, database: Str, table: Str, size: int, es: seq<Entry>): seq<Event> {
    RequestEvents(id) +
    [OnTag(TAG_REQUEST_ADD), OnArray(3), OnString(database), OnString(table), OnMap(size)] +
    PairEvents(es)
  }

  function GetOkEvents(id: int, size: int, es: seq<Entry>): seq<Event> {
    ResponseEvents(id) + [OnTag(TAG_RESPONSE_GET_OK), OnMap(size)] + PairEvents(es)
  }

  function ItemEvents(item: Item): seq<Event> {
    match item.body
    case GetBody(database, table, pk) =>
      RequestEvents(item.id) +
      [OnTag(TAG_REQUEST_GET), OnArray(3), OnString(database), OnString(table), OnInteger(pk)]
    case AddBody(database, table, size, entries) => AddEvents(item.id, database, table, size, entries)
    case ContinueBody(initRequestId, compareResult) =>
      RequestEvents(item.id) +
      [OnTag(TAG_REQUEST_ADD_CONTINUE), OnArray(2), OnInteger(initRequestId), OnInteger(compareResult)]
    case GetOkBody(size, entries) => GetOkEvents(item.id, size, entries)
    case GetEmptyBody => ResponseEvents(item.id) + [OnTag(TAG_RESPONSE_GET_NOT_FOUND), OnMap(0)]
    case AddOkBody => ResponseEvents(item.id) + [OnTag(TAG_RESPONSE_ADD_OK), OnMap(0)]
    case TraverseBody(initRequestId, data) =>
      ResponseEvents(item.id) +
      [OnTag(TAG_RESPONSE_ADD_TRAVERSE), OnArray(2), OnInteger(initRequestId), OnBytes(data)]
  }

  /** A map announces the number of its entries, and has some. */
  predicate WellFormed(item: Item) {
    match item.body
    case AddBody(_, _, size, entries) => size == |entries| > 0
    case GetOkBody(size, entries) => size == |entries| > 0
    case _ => true
  }

  /** The call a message is dispatched as. */
  function Meaning(item: Item): Call {
    Dispatch(
      ToU32(item.id),
      match item.body
      case GetBody(database, table, pk) => GetRequest(database, table, ToU64(pk))
      case AddBody(database, table, _, entries) => AddRequest(database, table, MapOf(entries))
      case ContinueBody(initRequestId, compareResult) => ContinueRequest(ToU32(initRequestId), compareResult)
      case GetOkBody(_, entries) => GetOkResponse(MapOf(entries))
      case GetEmptyBody => GetEmptyResponse
      case AddOkBody => AddOkResponse
      case TraverseBody(initRequestId, data) => TraverseResponse(ToU32(initRequestId), data))
  }

  /** How far the parser is in a message: its 28 states, each with what it has taken in. */
  datatype Progress =
    | Init
    | RequestArray | RequestId | RequestBody(id: int)
    | GetArray(id: int) | GetDatabase(id: int) | GetTable(id: int, database: Str)
    | GetPk(id: int, database: Str, table: Str)
    | ResponseArray | ResponseId | ResponseBody(id: int)
    | EmptyMap(id: int)
    | OkMap(id: int) | OkKey(id: int, size: int, entries: seq<Entry>)
    | OkValue(id: int, size: int, entries: seq<Entry>, key: Str)
    | AddArray(id: int) | AddDatabase(id: int) | AddTable(id: int, database: Str)
    | AddRow(id: int, database: Str, table: Str)
    | AddKey(id: int, database: Str, table: Str, size: int, entries: seq<Entry>)
    | AddValue(id: int, database: Str, table: Str, size: int, entries: seq<Entry>, key: Str)
    | AddOkMap(id: int)
    | TraverseArray(id: int) | TraverseId(id: int) | TraverseData(id: int, initRequestId: int)
    | ContinueArray(id: int) | ContinueId(id: int) | ContinueCompare(id: int, initRequestId: int)

  datatype Reaction = Accept(next: Progress) | Complete(item: Item) | Reject

  /** A map entry is complete; was it the last one announced? */
  function AfterOkValue(id: int, size: int, entries: seq<Entry>): Reaction {
    if size == |entries| then Complete(Item(id, GetOkBody(size, entries))) else Accept(OkKey(id, size, entries))
  }

  function AfterAddValue(id: int, database: Str, table: Str, size: int, entries: seq<Entry>): Reaction {
    if size == |entries| then Complete(Item(id, AddBody(database, table, size, entries)))
    else Accept(AddKey(id, database, table, size, entries))
  }

  /** What the parser does with one event. */
  function React(p: Progress, e: Event): Reaction {
    match e
    case OnInteger(i) =>
      (match p
       case RequestId => Accept(RequestBody(i))
       case GetPk(id, database, table) => Complete(Item(id, GetBody(database, table, i)))
       case ResponseId => Accept(ResponseBody(i))
       case TraverseId(id) => Accept(TraverseData(id, i))
       case ContinueId(id) => Accept(ContinueCompare(id, i))
       case ContinueCompare(id, initRequestId) => Complete(Item(id, ContinueBody(initRequestId, i)))
       case _ => Reject)
    case OnBytes(s) =>
      (match p
       case TraverseData(id, initRequestId) => Complete(Item(id, TraverseBody(initRequestId, s)))
       case _ => Reject)
    case OnString(s) =>
      (match p
       case GetDatabase(id) => Accept(GetTable(id, s))
       case GetTable(id, database) => Accept(GetPk(id, database, s))
       case OkKey(id, size, entries) => Accept(OkValue(id, size, entries, s))
       case OkValue(id, size, entries, key) => AfterOkValue(id, size, entries + [(key, s)])
       case AddDatabase(id) => Accept(AddTable(id, s))
       case AddTable(id, database) => Accept(AddRow(id, database, s))
       case AddKey(id, database, table, size, entries) => Accept(AddValue(id, database, table, size, entries, s))
       case AddValue(id, database, table, size, entries, key) =>
         AfterAddValue(id, database, table, size, entries + [(key, s)])
       case _ => Reject)
    case OnArray(n) =>
      (match p
       case RequestArray => if n == 2 then Accept(RequestId) else Reject
       case GetArray(id) => if n == 3 then Accept(GetDatabase(id)) else Reject
       case ResponseArray => if n == 2 then Accept(ResponseId) else Reject
       case AddArray(id) => if n == 3 then Accept(AddDatabase(id)) else Reject
       case TraverseArray(id) => if n == 2 then Accept(TraverseId(id)) else Reject
       case ContinueArray(id) => if n == 2 then Accept(ContinueId(id)) else Reject
       case _ => Reject)
    case OnMap(n) =>
      (match p
       case EmptyMap(id) => if n == 0 then Complete(Item(id, GetEmptyBody)) else Reject
       case OkMap(id) => Accept(OkKey(id, n, []))
       case AddRow(id, database, table) => Accept(AddKey(id, database, table, n, []))
       case AddOkMap(id) => if n == 0 then Complete(Item(id, AddOkBody)) else Reject
       case _ => Reject)
    case OnTag(tag) =>
      (match p
       case Init =>
         if tag == TAG_REQUEST_WRAPPER then Accept(RequestArray)
         else if tag == TAG_RESPONSE_WRAPPER then Accept(ResponseArray)
         else Reject
       case RequestBody(id) =>
         if tag == TAG_REQUEST_GET then Accept(GetArray(id))
         else if tag == TAG_REQUEST_ADD then Accept(AddArray(id))
         else if tag == TAG_REQUEST_ADD_CONTINUE then Accept(ContinueArray(id))
         else Reject
       case ResponseBody(id) =>
         if tag == TAG_RESPONSE_GET_NOT_FOUND then Accept(EmptyMap(id))
         else if tag == TAG_RESPONSE_GET_OK then Accept(OkMap(id))
         else if tag == TAG_RESPONSE_ADD_OK then Accept(AddOkMap(id))
         else if tag == TAG_RESPONSE_ADD_TRAVERSE then Accept(TraverseArray(id))
         else Reject
       case _ => Reject)
    case OnSpecial(_) => Reject
    case OnError => Reject
  }

  function Target(p: Progress, r: Reaction): Progress {
    match r
    case Accept(next) => next
    case Complete(_) => Init
    case Reject => p
  }

  function CallsOf(r: Reaction): seq<Call> {
    match r
    case Accept(_) => []
    case Complete(item) => [Meaning(item)]
    case Reject => [Failed]
  }

  /** Where the parser is after the events, and the calls it has made. */
  function ParserAfter(p: Progress, es: seq<Event>): Progress
    decreases |es|
  {
    if es == [] then p else ParserAfter(Target(p, React(p, es[0])), es[1..])
  }

  function Calls(p: Progress, es: seq<Event>): seq<Call>
    decreases |es|
  {
    if es == [] then []
    else
      var r := React(p, es[0]);
      CallsOf(r) + Calls(Target(p, r), es[1..])
  }
}
