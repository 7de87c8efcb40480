/** The mutable request and response objects and their `Serialize` methods. */
module MessageObjects {
  import opened Strings
  import opened CborFormat
  import opened Messages
  import opened CborWriting

  class RequestGet {
    var database: Str
    var table: Str
    var pk: nat

    constructor ()
      ensures database == [] && table == []
    {
      database, table, pk := [], [], 0;
    }

    method Serialize(writer: CborWriter)
      requires writer.output.Valid() && InRange(0, GetRequest(database, table, pk))
      modifies writer.output`offset, writer.output.buffer
      ensures writer.output.Valid() && TokensOk(BodyTokens(GetRequest(database, table, pk)))
      ensures writer.output.Contents() ==
              Written(old(writer.output.Contents()), BodyTokens(GetRequest(database, table, pk)),
                      writer.output.capacity)
    {
      hide Written, EncodeAll;
      BodyTokensOk(0, GetRequest(database, table, pk));
      ghost var start, capacity := writer.output.Contents(), writer.output.capacity;
      writer.WriteTag(TAG_REQUEST_GET);
      writer.WriteArray(3);
      writer.WriteString(database);
      writer.WriteString(table);
      writer.WriteUnsignedLong(pk);
      WrittenFour(start, Tag(TAG_REQUEST_GET), Array(3), Text(database), Text(table), capacity);
      WrittenAppend(start, [Tag(TAG_REQUEST_GET), Array(3), Text(database), Text(table)], [Long(pk)], capacity);
      assert BodyTokens(GetRequest(database, table, pk)) ==
             [Tag(TAG_REQUEST_GET), Array(3), Text(database), Text(table)] + [Long(pk)];
    }
  }

  lemma WrittenTwo(start: Str, a: Token, b: Token, capacity: nat)
    requires TokenOk(a) && TokenOk(b)
    ensures Written(start, [a, b], capacity) == Written(Written(start, [a], capacity), [b], capacity)
  {
    WrittenAppend(start, [a], [b], capacity);
    assert [a] + [b] == [a, b];
  }

  lemma WrittenFour(start: Str, a: Token, b: Token, c: Token, d: Token, capacity: nat)
    requires TokenOk(a) && TokenOk(b) && TokenOk(c) && TokenOk(d)
    ensures Written(start, [a, b, c, d], capacity) ==
            Written(Written(Written(Written(start, [a], capacity), [b], capacity), [c], capacity), [d], capacity)
  {
    hide Written;
    WrittenTwo(start, a, b, capacity);
    WrittenTwo(Written(start, [a, b], capacity), c, d, capacity);
    WrittenAppend(start, [a, b], [c, d], capacity);
    assert [a, b] + [c, d] == [a, b, c, d];
  }

  lemma {:induction false} EntriesOfSnoc(row: Row, keys: seq<Str>, k: Str)
    requires (forall x | x in keys :: x in row) && k in row
    ensures EntryTokens(EntriesOf(row, keys + [k])) == EntryTokens(EntriesOf(row, keys)) + [Text(k), Text(row[k])]
  {
    if keys == [] {
      assert [k][1..] == [];
    } else {
      assert (keys + [k])[1..] == keys[1..] + [k];
      EntriesOfSnoc(row, keys[1..], k);
      assert EntriesOf(row, keys)[1..] == EntriesOf(row, keys[1..]);
      assert EntriesOf(row, keys + [k])[1..] == EntriesOf(row, keys[1..] + [k]);
    }
  }

  lemma EntryFits(row: Row, k: Str)
    requires RowFits(row) && k in row
    ensures TokenOk(Text(k)) && TokenOk(Text(row[k]))
  {
  }

  /** The loop with which a row and a result write their fields. */
  method WriteEntries(row: Row, writer: CborWriter)
    requires writer.output.Valid() && RowFits(row)
    modifies writer.output`offset, writer.output.buffer
    ensures writer.output.Valid() && TokensOk(EntryTokens(Entries(row)))
    ensures writer.output.Contents() ==
            Written(old(writer.output.Contents()), EntryTokens(Entries(row)), writer.output.capacity)
  {
    hide Written, RowFits, EntryTokens, EntriesOf;
    var keys := SortedKeys(row.Keys);
    ghost var start, capacity := writer.output.Contents(), writer.output.capacity;
    NothingWritten(row, start, capacity);
    for i := 0 to |keys|
      invariant writer.output.Valid()
      invariant TokensOk(EntryTokens(EntriesOf(row, keys[..i])))
      invariant writer.output.Contents() == Written(start, EntryTokens(EntriesOf(row, keys[..i])), capacity)
    {
      EntryFits(row, keys[i]);
      EntriesOfSnoc(row, keys[..i], keys[i]);
      assert keys[..i + 1] == keys[..i] + [keys[i]];
      ghost var before := EntryTokens(EntriesOf(row, keys[..i]));
      WrittenTwo(Written(start, before, capacity), Text(keys[i]), Text(row[keys[i]]), capacity);
      WrittenAppend(start, before, [Text(keys[i]), Text(row[keys[i]])], capacity);
      writer.WriteString(keys[i]);
      writer.WriteString(row[keys[i]]);
    }
    assert keys[..|keys|] == keys;
  }

  lemma NothingWritten(row: Row, start: Str, capacity: nat)
    ensures TokensOk(EntryTokens(EntriesOf(row, [])))
    ensures Written(start, EntryTokens(EntriesOf(row, [])), capacity) == start
  {
  }

  class RequestAdd {
    var database: Str
    var table: Str
    var row: Row

    constructor ()
      ensures database == [] && table == [] && row == map[]
    {
      database, table, row := [], [], map[];
    }

    method Serialize(writer: CborWriter)
      requires writer.output.Valid() && InRange(0, AddRequest(database, table, row))
      modifies writer.output`offset, writer.output.buffer
      ensures writer.output.Valid() && TokensOk(BodyTokens(AddRequest(database, table, row)))
      ensures writer.output.Contents() ==
              Written(old(writer.output.Contents()), BodyTokens(AddRequest(database, table, row)),
                      writer.output.capacity)
    {
      hide Written, EncodeAll, RowFits, Entries, EntryTokens;
      BodyTokensOk(0, AddRequest(database, table, row));
      RowSize(row);
      ghost var start, capacity := writer.output.Contents(), writer.output.capacity;
      writer.WriteTag(TAG_REQUEST_ADD);
      writer.WriteArray(3);
      writer.WriteString(database);
      writer.WriteString(table);
      writer.WriteMap(|row|);
      WriteEntries(row, writer);
      ghost var four := [Tag(TAG_REQUEST_ADD), Array(3), Text(database), Text(table)];
      WrittenFour(start, four[0], four[1], four[2], four[3], capacity);
      WrittenAppend(start, four, [Map(|row|)], capacity);
      WrittenAppend(start, four + [Map(|row|)], EntryTokens(Entries(row)), capacity);
      assert BodyTokens(AddRequest(database, table, row)) == four + [Map(|row|)] + EntryTokens(Entries(row));
    }
  }

  class RequestAddContinue {
    var initRequestId: nat
    var compareResult: int

    constructor ()
    {
      initRequestId, compareResult := 0, 0;
    }

    method Serialize(writer: CborWriter)
      requires writer.output.Valid() && InRange(0, ContinueRequest(initRequestId, compareResult))
      modifies writer.output`offset, writer.output.buffer
      ensures writer.output.Valid() && TokensOk(BodyTokens(ContinueRequest(initRequestId, compareResult)))
      ensures writer.output.Contents() ==
              Written(old(writer.output.Contents()), BodyTokens(ContinueRequest(initRequestId, compareResult)),
                      writer.output.capacity)
    {
      hide Written, EncodeAll;
      ghost var start, capacity := writer.output.Contents(), writer.output.capacity;
      writer.WriteTag(TAG_REQUEST_ADD_CONTINUE);
      writer.WriteArray(2);
      writer.WriteUnsigned(initRequestId);
      writer.WriteInt(compareResult);
      WrittenFour(start, Tag(TAG_REQUEST_ADD_CONTINUE), Array(2), UInt(initRequestId), Int(compareResult), capacity);
    }
  }

  class ResponseGetOk {
    var values: Row

    constructor ()
      ensures values == map[]
    {
      values := map[];
    }

    method SetValue(key: Str, value: Str)
      modifies this
      ensures values == old(values)[key := value]
    {
      values := values[key := value];
    }

    method Serialize(writer: CborWriter)
      requires writer.output.Valid() && InRange(0, GetOkResponse(values))
      modifies writer.output`offset, writer.output.buffer
      ensures writer.output.Valid() && TokensOk(BodyTokens(GetOkResponse(values)))
      ensures writer.output.Contents() ==
              Written(old(writer.output.Contents()), BodyTokens(GetOkResponse(values)), writer.output.capacity)
    {
      hide Written, EncodeAll, RowFits, Entries, EntryTokens;
      BodyTokensOk(0, GetOkResponse(values));
      RowSize(values);
      ghost var start, capacity := writer.output.Contents(), writer.output.capacity;
      writer.WriteTag(TAG_RESPONSE_GET_OK);
      writer.WriteMap(|values|);
      WriteEntries(values, writer);
      WrittenTwo(start, Tag(TAG_RESPONSE_GET_OK), Map(|values|), capacity);
      WrittenAppend(start, [Tag(TAG_RESPONSE_GET_OK), Map(|values|)], EntryTokens(Entries(values)), capacity);
    }
  }

  class ResponseAddTraverse {
    var initRequestId: nat
    var ciphertext: Str

    constructor ()
    {
      initRequestId, ciphertext := 0, [];
    }

    method Serialize(writer: CborWriter)
      requires writer.output.Valid() && InRange(0, TraverseResponse(initRequestId, ciphertext))
      modifies writer.output`offset, writer.output.buffer
      ensures writer.output.Valid() && TokensOk(BodyTokens(TraverseResponse(initRequestId, ciphertext)))
      ensures writer.output.Contents() ==
              Written(old(writer.output.Contents()), BodyTokens(TraverseResponse(initRequestId, ciphertext)),
                      writer.output.capacity)
    {
      hide Written, EncodeAll;
      ghost var start, capacity := writer.output.Contents(), writer.output.capacity;
      writer.WriteTag(TAG_RESPONSE_ADD_TRAVERSE);
      writer.WriteArray(2);
      writer.WriteUnsigned(initRequestId);
      writer.WriteBytes(ciphertext);
      WrittenFour(start, Tag(TAG_RESPONSE_ADD_TRAVERSE), Array(2), UInt(initRequestId), Bytes(ciphertext), capacity);
    }
  }

  /** What a wrapper points to: the classes behind `Request` and `Response`. */
  datatype Payload =
    | Get(get: RequestGet)
    | Add(add: RequestAdd)
    | Continue(continue_: RequestAddContinue)
    | GetOk(getOk: ResponseGetOk)
    | GetEmpty
    | AddedOk
    | Traverse(traverse: ResponseAddTraverse)
  {
    function Objects(): set<object> {
      match this
      case Get(o) => {o}
      case Add(o) => {o}
      case Continue(o) => {o}
      case GetOk(o) => {o}
      case Traverse(o) => {o}
      case _ => {}
    }

    function Message(): Message
      reads Objects()
    {
      match this
      case Get(o) => GetRequest(o.database, o.table, o.pk)
      case Add(o) => AddRequest(o.database, o.table, o.row)
      case Continue(o) => ContinueRequest(o.initRequestId, o.compareResult)
      case GetOk(o) => GetOkResponse(o.values)
      case GetEmpty => GetEmptyResponse
      case AddedOk => AddOkResponse
      case Traverse(o) => TraverseResponse(o.initRequestId, o.ciphertext)
    }

    /** The virtual call `Serialize`; the two responses without fields write a tag and an empty map. */
    method Serialize(writer: CborWriter)
      requires writer.output.Valid() && InRange(0, Message())
      modifies writer.output`offset, writer.output.buffer
      ensures writer.output.Valid() && Message() == old(Message()) && TokensOk(BodyTokens(Message()))
      ensures writer.output.Contents() ==
              Written(old(writer.output.Contents()), BodyTokens(Message()), writer.output.capacity)
    {
      hide Written, EncodeAll, BodyTokens, InRange;
      EmptyBodies();
      match this
      case Get(o) => o.Serialize(writer);
      case Add(o) => o.Serialize(writer);
      case Continue(o) => o.Serialize(writer);
      case GetOk(o) => o.Serialize(writer);
      case Traverse(o) => o.Serialize(writer);
      case GetEmpty => SerializeEmpty(TAG_RESPONSE_GET_NOT_FOUND, GetEmptyResponse, writer);
      case AddedOk => SerializeEmpty(TAG_RESPONSE_ADD_OK, AddOkResponse, writer);
    }
  }

  lemma EmptyBodies()
    ensures BodyTokens(GetEmptyResponse) == [Tag(TAG_RESPONSE_GET_NOT_FOUND), Map(0)]
    ensures BodyTokens(AddOkResponse) == [Tag(TAG_RESPONSE_ADD_OK), Map(0)]
  {
  }

  method SerializeEmpty(tag: nat, ghost m: Message, writer: CborWriter)
    requires writer.output.Valid() && tag < TWO_32
    requires BodyTokens(m) == [Tag(tag), Map(0)]
    modifies writer.output`offset, writer.output.buffer
    ensures writer.output.Valid() && TokensOk(BodyTokens(m))
    ensures writer.output.Contents() ==
            Written(old(writer.output.Contents()), BodyTokens(m), writer.output.capacity)
  {
    hide Written, BodyTokens;
    ghost var start := writer.output.Contents();
    writer.WriteTag(tag);
    writer.WriteMap(0);
    WrittenTwo(start, Tag(tag), Map(0), writer.output.capacity);
  }

  /** `RequestWrapper` and `ResponseWrapper`. */
  class Wrapper {
    var id: nat
    var payload: Payload

    constructor (id: nat, payload: Payload)
      ensures this.id == id && this.payload == payload
    {
      this.id, this.payload := id, payload;
    }

    /** The buffer gets the serialized message, cut where it overflows. */
    method Serialize(writer: CborWriter)
      requires writer.output.Valid() && InRange(id, payload.Message())
      modifies writer.output`offset, writer.output.buffer
      ensures writer.output.Valid() && payload.Message() == old(payload.Message())
      ensures TokensOk(WrapperTokens(id, payload.Message()))
      ensures writer.output.Contents() ==
              Written(old(writer.output.Contents()), WrapperTokens(id, payload.Message()), writer.output.capacity)
    {
      hide Written, EncodeAll, BodyTokens, InRange;
      ghost var start, capacity, m := writer.output.Contents(), writer.output.capacity, payload.Message();
      RangeSplit(id, m);
      var tag :=
        if payload.Get? || payload.Add? || payload.Continue? then TAG_REQUEST_WRAPPER else TAG_RESPONSE_WRAPPER;
      writer.WriteTag(tag);
      writer.WriteArray(2);
      writer.WriteUnsigned(id);
      payload.Serialize(writer);
      WrittenTwo(start, Tag(tag), Array(2), capacity);
      WrittenAppend(start, [Tag(tag), Array(2)], [UInt(id)], capacity);
      assert [Tag(tag), Array(2)] + [UInt(id)] == [Tag(tag), Array(2), UInt(id)];
      WrittenAppend(start, [Tag(tag), Array(2), UInt(id)], BodyTokens(m), capacity);
      assert WrapperTokens(id, m) == [Tag(tag), Array(2), UInt(id)] + BodyTokens(m);
    }
  }

  lemma RangeSplit(id: nat, m: Message)
    requires InRange(id, m)
    ensures id < TWO_32 && InRange(0, m)
  {
  }
}
