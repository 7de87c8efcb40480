/** Messages across the wire: what one side serializes into its buffer and the other side's
    handlers receive. */
module Exchange {
  import opened Strings
  import opened CborFormat
  import opened CborRoundTrip
  import opened Messages
  import opened Truncation
  import opened Wire
  import opened CborWriting
  import opened MessageObjects
  import opened ObjectParsing

  /** The end of every handler: serialize the wrapper into a fresh buffer and send what is there. */
  method Send(wrapper: Wrapper, capacity: nat) returns (data: array<byte>, size: nat)
    requires InRange(wrapper.id, wrapper.payload.Message())
    ensures fresh(data) && size <= data.Length
    ensures data[..size] == Sent(wrapper.id, wrapper.payload.Message(), capacity)
  {
    hide Written, InRange, WrapperTokens;
    var output := new CborOutput(capacity);
    var writer := new CborWriter(output);
    wrapper.Serialize(writer);
    data, size := output.buffer, output.offset;
  }

  /** A fresh parser on an input. */
  method Parse(input: CborInput) returns (listener: ObjectListener)
    requires input.Valid() && Read(AtType, input.Remaining()).Stopped?
    modifies input`offset
    ensures fresh(listener) && listener.log == Delivered(old(input.Remaining()))
  {
    hide Read, Calls, ParserAfter, Delivered, ObjectParser.Valid, CborInput.Remaining;
    ghost var bytes := input.Remaining();
    DeliveredMeans(bytes);
    listener := new ObjectListener();
    var parser := new ObjectParser(listener);
    parser.Run(input);
    assert [] + Delivered(bytes) == Delivered(bytes);
  }

  /** The start of every handler: parse a received message. */
  method Receive(data: array<byte>, size: nat) returns (listener: ObjectListener)
    requires size <= data.Length && Read(AtType, data[..size]).Stopped?
    ensures fresh(listener) && listener.log == Delivered(data[..size])
  {
    hide Read, Delivered, CborInput.Remaining;
    ghost var bytes := data[..size];
    var input := new CborInput(data, size);
    assert input.Remaining() == bytes;
    listener := Parse(input);
    assert listener.log == Delivered(bytes);
    assert forall i | 0 <= i < size :: data[i] == bytes[i];
    assert data[..size] == bytes;
  }

  lemma DeliveredMeans(bytes: Str)
    ensures Delivered(bytes) == Calls(Init, Read(AtType, bytes).events)
  {
  }

  /** `mainTest`: serialize, read, parse, with a buffer of any capacity. The handler is called once,
      with the message and its id and without an error, exactly when the message is transmissible
      and fits; it is not called at all when the message does not fit. */
  method SendAndReceive(wrapper: Wrapper, capacity: nat) returns (listener: ObjectListener)
    requires InRange(wrapper.id, wrapper.payload.Message())
    ensures fresh(listener)
    ensures listener.log == [Dispatch(wrapper.id, wrapper.payload.Message())] <==>
            Transmissible(wrapper.payload.Message()) &&
            |Serialized(wrapper.id, wrapper.payload.Message())| <= capacity
    ensures |Serialized(wrapper.id, wrapper.payload.Message())| > capacity ==> listener.log == []
  {
    hide Serialized, Sent, InRange, Read, Delivered, Arrival;
    ghost var id, m := wrapper.id, wrapper.payload.Message();
    SentArrival(id, m, capacity);
    var data, size := Send(wrapper, capacity);
    listener := Receive(data, size);
  }

  // ---- The replies of the insert protocol ----

  lemma FourLength(a: Token, b: Token, c: Token, d: Token)
    requires TokensOk([a, b, c, d])
    ensures TokenOk(a) && TokenOk(b) && TokenOk(c) && TokenOk(d)
    ensures |EncodeAll([a, b, c, d])| == |Encode(a)| + |Encode(b)| + |Encode(c)| + |Encode(d)|
  {
    hide Encode;
    var ts := [a, b, c, d];
    assert a in ts && b in ts && c in ts && d in ts;
    assert ts[1..] == [b, c, d];
    ThreeLength(b, c, d);
  }

  lemma TagLength(tag: nat)
    requires 256 <= tag < 65536
    ensures TokenOk(Tag(tag)) && |Encode(Tag(tag))| == 3
  {
  }

  lemma PairLength()
    ensures TokenOk(Array(2)) && |Encode(Array(2))| == 1
    ensures TokenOk(Map(0)) && |Encode(Map(0))| == 1
  {
  }

  lemma UIntLength(u: nat)
    requires u < TWO_32
    ensures TokenOk(UInt(u)) && |Encode(UInt(u))| == HeadSize(u)
  {
  }

  lemma BytesLength(s: Str)
    requires |s| < TWO_31
    ensures TokenOk(Bytes(s)) && |Encode(Bytes(s))| == HeadSize(|s|) + |s|
  {
  }

  /** The bytes of a reply that shows a ciphertext. */
  lemma TraverseLength(id: nat, initRequestId: nat, ciphertext: Str)
    requires InRange(id, TraverseResponse(initRequestId, ciphertext))
    ensures |Serialized(id, TraverseResponse(initRequestId, ciphertext))| ==
            8 + HeadSize(id) + HeadSize(initRequestId) + HeadSize(|ciphertext|) + |ciphertext|
  {
    hide Encode, HeadSize;
    var m := TraverseResponse(initRequestId, ciphertext);
    WrapperTokensOk(id, m);
    var head := [Tag(TAG_RESPONSE_WRAPPER), Array(2), UInt(id)];
    var body := [Tag(TAG_RESPONSE_ADD_TRAVERSE), Array(2), UInt(initRequestId), Bytes(ciphertext)];
    assert WrapperTokens(id, m) == head + body;
    EncodeAllAppend(head, body);
    FourLength(body[0], body[1], body[2], body[3]);
    ThreeLength(head[0], head[1], head[2]);
    TagLength(TAG_RESPONSE_WRAPPER);
    TagLength(TAG_RESPONSE_ADD_TRAVERSE);
    PairLength();
    UIntLength(id);
    UIntLength(initRequestId);
    BytesLength(ciphertext);
  }

  lemma ThreeLength(a: Token, b: Token, c: Token)
    requires TokensOk([a, b, c])
    ensures TokenOk(a) && TokenOk(b) && TokenOk(c)
    ensures |EncodeAll([a, b, c])| == |Encode(a)| + |Encode(b)| + |Encode(c)|
  {
    hide Encode;
    var ts := [a, b, c];
    assert a in ts && b in ts && c in ts;
    assert ts[1..] == [b, c] && [b, c][1..] == [c] && [c][1..] == [];
    assert EncodeAll([c]) == Encode(c) + EncodeAll([]);
    assert EncodeAll([b, c]) == Encode(b) + EncodeAll([c]);
  }

  lemma AddOkLength(id: nat)
    requires id < TWO_32
    ensures |Serialized(id, AddOkResponse)| <= 13
  {
    hide Encode;
    WrapperTokensOk(id, AddOkResponse);
    var head := [Tag(TAG_RESPONSE_WRAPPER), Array(2), UInt(id)];
    var body := [Tag(TAG_RESPONSE_ADD_OK), Map(0)];
    assert WrapperTokens(id, AddOkResponse) == head + body;
    EncodeAllAppend(head, body);
    ThreeLength(head[0], head[1], head[2]);
    TwoLength(body[0], body[1]);
    TagLength(TAG_RESPONSE_WRAPPER);
    TagLength(TAG_RESPONSE_ADD_OK);
    PairLength();
    UIntLength(id);
  }

  lemma TwoLength(a: Token, b: Token)
    requires TokensOk([a, b])
    ensures TokenOk(a) && TokenOk(b)
    ensures |EncodeAll([a, b])| == |Encode(a)| + |Encode(b)|
  {
    hide Encode;
    var ts := [a, b];
    assert a in ts && b in ts;
    assert ts[1..] == [b] && [b][1..] == [];
    assert EncodeAll([b]) == Encode(b) + EncodeAll([]);
  }

  /** A continuation always fits the client's buffer of 10000 bytes and reaches the worker. */
  lemma ContinueArrives(id: nat, initRequestId: nat, compareResult: int)
    requires InRange(id, ContinueRequest(initRequestId, compareResult))
    ensures Delivered(Sent(id, ContinueRequest(initRequestId, compareResult), 10000)) ==
            [Dispatch(id, ContinueRequest(initRequestId, compareResult))]
  {
    hide Head, Serialized, Sent, Delivered;
    ContinueLength(id, initRequestId, compareResult);
    SentArrival(id, ContinueRequest(initRequestId, compareResult), 10000);
  }

  lemma IntLength(i: int)
    requires -TWO_31 < i < TWO_31
    ensures TokenOk(Int(i)) && |Encode(Int(i))| <= 5
  {
  }

  lemma ContinueLength(id: nat, initRequestId: nat, compareResult: int)
    requires InRange(id, ContinueRequest(initRequestId, compareResult))
    ensures |Serialized(id, ContinueRequest(initRequestId, compareResult))| <= 23
  {
    hide Encode;
    var m := ContinueRequest(initRequestId, compareResult);
    WrapperTokensOk(id, m);
    var head := [Tag(TAG_REQUEST_WRAPPER), Array(2), UInt(id)];
    var body := [Tag(TAG_REQUEST_ADD_CONTINUE), Array(2), UInt(initRequestId), Int(compareResult)];
    assert WrapperTokens(id, m) == head + body;
    EncodeAllAppend(head, body);
    FourLength(body[0], body[1], body[2], body[3]);
    ThreeLength(head[0], head[1], head[2]);
    TagLength(TAG_REQUEST_WRAPPER);
    TagLength(TAG_REQUEST_ADD_CONTINUE);
    PairLength();
    UIntLength(id);
    UIntLength(initRequestId);
    IntLength(compareResult);
  }

  /** A reply that shows a ciphertext, from a buffer of any capacity: it reaches the client as itself
      if and only if its 8 fixed bytes, three heads and ciphertext fit; otherwise the client is told
      nothing and goes on waiting. */
  lemma TraverseReplyArrives(id: nat, initRequestId: nat, ciphertext: Str, capacity: nat)
    requires id < TWO_32 && initRequestId < TWO_32 && |ciphertext| < TWO_31
    ensures InRange(id, TraverseResponse(initRequestId, ciphertext))
    ensures Delivered(Sent(id, TraverseResponse(initRequestId, ciphertext), capacity)) ==
            if 8 + HeadSize(id) + HeadSize(initRequestId) + HeadSize(|ciphertext|) + |ciphertext| <= capacity
            then [Dispatch(id, TraverseResponse(initRequestId, ciphertext))]
            else []
  {
    hide Head, Serialized, Sent, Delivered;
    TraverseLength(id, initRequestId, ciphertext);
    SentArrival(id, TraverseResponse(initRequestId, ciphertext), capacity);
  }

  /** From the 9000 bytes of `OnRequestAdd`, with any ids: ciphertexts of up to 8979 bytes always
      arrive, those of 8988 bytes or more never do, and in between it depends on the ids. */
  lemma TraverseReplyLimits(id: nat, initRequestId: nat, ciphertext: Str)
    requires id < TWO_32 && initRequestId < TWO_32 && |ciphertext| < TWO_31
    ensures InRange(id, TraverseResponse(initRequestId, ciphertext))
    ensures |ciphertext| <= 8979 ==>
              Delivered(Sent(id, TraverseResponse(initRequestId, ciphertext), 9000)) ==
              [Dispatch(id, TraverseResponse(initRequestId, ciphertext))]
    ensures |ciphertext| >= 8988 ==> Delivered(Sent(id, TraverseResponse(initRequestId, ciphertext), 9000)) == []
  {
    hide Sent, Delivered;
    TraverseReplyArrives(id, initRequestId, ciphertext, 9000);
  }
}
