/** The bytes of every message in plain numbers, and what the reader makes of every head: the format
    as another implementation would have to write and read it. */
module WireLayout {
  import opened Strings
  import opened CborFormat
  import opened CborRoundTrip
  import opened Messages
  import opened Truncation
  import opened Wire

  /** A number as n bytes, the most significant first. */
  function Big(u: nat, n: nat): (s: Str)
    ensures |s| == n
    decreases n
  {
    if n == 0 then [] else Big(u / 256, n - 1) + [u % 256]
  }

  /** A head of section 2.1 of RFC 7049 in its shortest form, `first` being the initial byte of its
      type with argument 0. */
  function Shortest(first: nat, u: nat): (s: Str)
    requires first <= 0xE0
  {
    if u < 24 then [first + u]
    else if u < 0x100 then [first + 24] + Big(u, 1)
    else if u < 0x1_0000 then [first + 25] + Big(u, 2)
    else [first + 26] + Big(u, 4)
  }

  function TextBytes(s: Str): Str {
    Shortest(0x60, |s|) + s
  }

  /** Fields and values in the order of a list of names. */
  function Fields(row: Row, names: seq<Str>): Str
    requires forall k | k in names :: k in row
  {
    if names == [] then [] else TextBytes(names[0]) + TextBytes(row[names[0]]) + Fields(row, names[1..])
  }

  /** The names of a row's fields, each once, ascending. */
  ghost predicate Lists(row: Row, names: seq<Str>) {
    && (forall k :: k in names <==> k in row)
    && (forall i, j | 0 <= i < j < |names| :: Less(names[i], names[j]))
  }

  /** The key of a `RequestGet`: the second byte of a two-byte argument is not written. */
  function KeyBytes(pk: nat): Str {
    if 0x100 <= pk < 0x1_0000 then [0x19, pk / 0x100 % 0x100]
    else if pk < 0x1_0000_0000 then Shortest(0, pk)
    else [0x1B] + Big(pk, 8)
  }

  /** Everything after the id of the wrapper. */
  function BodyBytes(m: Message, names: seq<Str>): Str
    requires Lists(RowOf(m), names)
  {
    match m
    case GetRequest(database, table, pk) =>
      [0xD9, 0x04, 0x4C, 0x83] + TextBytes(database) + TextBytes(table) + KeyBytes(pk)
    case AddRequest(database, table, row) =>
      [0xD9, 0x04, 0xB0, 0x83] + TextBytes(database) + TextBytes(table) +
      Shortest(0xA0, |row|) + Fields(row, names)
    case ContinueRequest(initRequestId, compareResult) =>
      [0xD9, 0x0C, 0x1C, 0x82] + Shortest(0, initRequestId) +
      (if compareResult < 0 then Shortest(0x20, -compareResult) else Shortest(0, compareResult))
    case GetOkResponse(values) => [0xD9, 0x08, 0x34] + Shortest(0xA0, |values|) + Fields(values, names)
    case GetEmptyResponse => [0xD9, 0x08, 0x35, 0xA0]
    case AddOkResponse => [0xD9, 0x08, 0x98, 0xA0]
    case TraverseResponse(initRequestId, ciphertext) =>
      [0xD9, 0x08, 0x99, 0x82] + Shortest(0, initRequestId) + Shortest(0x40, |ciphertext|) + ciphertext
  }

  /** A whole message. */
  function MessageBytes(id: nat, m: Message, names: seq<Str>): Str
    requires Lists(RowOf(m), names)
  {
    (if m.GetRequest? || m.AddRequest? || m.ContinueRequest? then [0xD9, 0x03, 0xE8, 0x82]
     else [0xD9, 0x07, 0xD0, 0x82]) +
    Shortest(0, id) + BodyBytes(m, names)
  }

  // ---- Heads ----

  lemma BigStep(u: nat, n: nat)
    ensures Big(u, n + 1) == Big(u / 256, n) + [u % 256]
    ensures Big(u, 0) == []
  {
  }

  lemma BigTwo(u: nat, a: nat)
    requires a == u / 256
    ensures Big(u, 1) == [u % 256] && Big(u, 2) == [a % 256, u % 256]
  {
    hide Big;
    BigStep(u, 0);
    BigStep(u, 1);
    BigStep(a, 0);
    BigStep(a / 256, 0);
  }

  lemma BigTwoMore(u: nat, a: nat, b: nat, n: nat)
    requires a == u / 256 && b == a / 256
    ensures Big(u, n + 2) == Big(b, n) + [a % 256, u % 256]
  {
    hide Big;
    BigStep(u, n + 1);
    BigStep(a, n);
  }

  lemma BigFourOf(u: nat, a: nat, b: nat, c: nat)
    requires a == u / 256 && b == a / 256 && c == b / 256 && c < 256
    ensures Big(u, 4) == [c, b % 256, a % 256, u % 256]
  {
    hide Big;
    BigTwo(b, c);
    BigTwoMore(u, a, b, 2);
    assert c % 256 == c;
  }

  lemma Quarters(u: nat)
    ensures u / 256 / 256 == u / 65536 && u / 256 / 256 / 256 == u / 0x100_0000
    ensures u < TWO_32 ==> u / 0x100_0000 < 256
  {
  }

  lemma BigFour(u: nat)
    requires u < TWO_32
    ensures Big(u, 1) == [u % 256]
    ensures Big(u, 2) == [u / 256 % 256, u % 256]
    ensures Big(u, 4) == [u / 0x100_0000, u / 65536 % 256, u / 256 % 256, u % 256]
  {
    hide Big;
    var a, b, c := u / 256, u / 65536, u / 0x100_0000;
    Quarters(u);
    BigTwo(u, a);
    BigFourOf(u, a, b, c);
  }

  lemma HeadIsShortest(major: Major, u: nat)
    requires u < TWO_32
    ensures Head(major, u) == Shortest(major * 32, u)
  {
    hide Big;
    BigFour(u);
  }

  function Pow256(n: nat): (r: nat)
    ensures r > 0
  {
    if n == 0 then 1 else 256 * Pow256(n - 1)
  }

  /** The bytes denote the number. */
  lemma {:induction false} BigValue(u: nat, n: nat)
    requires u < Pow256(n)
    ensures BigEndian(Big(u, n)) == u
    decreases n
  {
    if n == 0 {
    } else {
      BigValue(u / 256, n - 1);
      assert Big(u, n)[..n - 1] == Big(u / 256, n - 1);
    }
  }

  lemma BigEight(u: nat)
    requires u < TWO_64
    ensures Big(u, 8) ==
            [u / 0x100_0000_0000_0000, u / 0x1_0000_0000_0000 % 256,
             u / 0x100_0000_0000 % 256, u / 0x1_0000_0000 % 256,
             u / 0x100_0000 % 256, u / 65536 % 256, u / 256 % 256, u % 256]
  {
    hide Big;
    var a, b, c, top := u / 256, u / 65536, u / 0x100_0000, u / 0x1_0000_0000;
    Quarters(u);
    Quarters(a);
    BigTwoMore(u, a, b, 6);
    BigTwoMore(b, c, top, 4);
    BigFour(top);
    TopBytes(u);
  }

  lemma TopBytes(u: nat)
    ensures var top := u / 0x1_0000_0000;
            && top / 256 == u / 0x100_0000_0000 && top / 65536 == u / 0x1_0000_0000_0000
            && top / 0x100_0000 == u / 0x100_0000_0000_0000
  {
  }

  /** From 2^32 on the argument of the 64-bit overload is the number in eight bytes. */
  lemma LongHeadValue(major: Major, value: nat)
    requires TWO_32 <= value < TWO_64
    ensures Head64(major, value) == [major * 32 + 27] + Big(value, 8)
    ensures BigEndian(Head64(major, value)[1..]) == value
  {
    hide Big, BigEndian, Pow256;
    BigEight(value);
    EightBytes();
    BigValue(value, 8);
    assert Head64(major, value)[1..] == Big(value, 8);
  }

  lemma EightBytes()
    ensures Pow256(8) == TWO_64
  {
  }

  lemma KeyIsBytes(pk: nat)
    requires pk < TWO_64
    ensures Encode(Long(pk)) == KeyBytes(pk)
  {
    hide Head, Big, BigEndian;
    if pk < TWO_32 {
      HeadIsShortest(0, pk);
    } else {
      LongHeadValue(0, pk);
    }
  }

  // ---- Tokens ----

  lemma NumberBytes(u: nat)
    requires u < TWO_32
    ensures TokenOk(UInt(u)) && Encode(UInt(u)) == Shortest(0, u)
    ensures TokenOk(Tag(u)) && Encode(Tag(u)) == Shortest(0xC0, u)
    ensures u < TWO_31 ==> TokenOk(Array(u)) && Encode(Array(u)) == Shortest(0x80, u)
    ensures u < TWO_31 ==> TokenOk(Map(u)) && Encode(Map(u)) == Shortest(0xA0, u)
  {
    hide Head, Shortest;
    HeadIsShortest(0, u);
    HeadIsShortest(6, u);
    HeadIsShortest(4, u);
    HeadIsShortest(5, u);
  }

  lemma IntBytes(i: int)
    requires -TWO_31 < i < TWO_31
    ensures TokenOk(Int(i)) && Encode(Int(i)) == if i < 0 then Shortest(0x20, -i) else Shortest(0, i)
  {
    hide Head, Shortest;
    if i < 0 {
      HeadIsShortest(1, -i);
    } else {
      HeadIsShortest(0, i);
    }
  }

  lemma StringBytes(s: Str)
    requires |s| < TWO_31
    ensures TokenOk(Text(s)) && Encode(Text(s)) == TextBytes(s)
    ensures TokenOk(Bytes(s)) && Encode(Bytes(s)) == Shortest(0x40, |s|) + s
  {
    hide Head, Shortest;
    HeadIsShortest(3, |s|);
    HeadIsShortest(2, |s|);
  }

  lemma SmallHeads()
    ensures Shortest(0xC0, 1000) == [0xD9, 0x03, 0xE8] && Shortest(0xC0, 2000) == [0xD9, 0x07, 0xD0]
    ensures Shortest(0xC0, 1100) == [0xD9, 0x04, 0x4C] && Shortest(0xC0, 1200) == [0xD9, 0x04, 0xB0]
    ensures Shortest(0xC0, 3100) == [0xD9, 0x0C, 0x1C] && Shortest(0xC0, 2100) == [0xD9, 0x08, 0x34]
    ensures Shortest(0xC0, 2101) == [0xD9, 0x08, 0x35] && Shortest(0xC0, 2200) == [0xD9, 0x08, 0x98]
    ensures Shortest(0xC0, 2201) == [0xD9, 0x08, 0x99]
    ensures Shortest(0x80, 2) == [0x82] && Shortest(0x80, 3) == [0x83] && Shortest(0xA0, 0) == [0xA0]
  {
    hide Big;
    BigFour(1000);
    BigFour(2000);
    BigFour(1100);
    BigFour(1200);
    BigFour(3100);
    BigFour(2100);
    BigFour(2101);
    BigFour(2200);
    BigFour(2201);
  }

  // ---- Messages ----

  lemma EncodeTwo(a: Token, b: Token)
    requires TokenOk(a) && TokenOk(b)
    ensures TokensOk([a, b]) && EncodeAll([a, b]) == Encode(a) + Encode(b)
  {
    hide Encode;
    assert [a, b][1..] == [b] && [b][1..] == [];
    assert EncodeAll([b]) == Encode(b) + EncodeAll([]);
  }

  lemma EncodeThree(a: Token, b: Token, c: Token)
    requires TokenOk(a) && TokenOk(b) && TokenOk(c)
    ensures TokensOk([a, b, c]) && EncodeAll([a, b, c]) == Encode(a) + Encode(b) + Encode(c)
  {
    hide Encode;
    EncodeTwo(b, c);
    assert [a, b, c][1..] == [b, c];
  }

  lemma EncodeFour(a: Token, b: Token, c: Token, d: Token)
    requires TokenOk(a) && TokenOk(b) && TokenOk(c) && TokenOk(d)
    ensures TokensOk([a, b, c, d]) && EncodeAll([a, b, c, d]) == Encode(a) + Encode(b) + Encode(c) + Encode(d)
  {
    hide Encode;
    EncodeThree(b, c, d);
    assert [a, b, c, d][1..] == [b, c, d];
  }

  lemma EncodeFive(a: Token, b: Token, c: Token, d: Token, e: Token)
    requires TokenOk(a) && TokenOk(b) && TokenOk(c) && TokenOk(d) && TokenOk(e)
    ensures TokensOk([a, b, c, d, e])
    ensures EncodeAll([a, b, c, d, e]) == Encode(a) + Encode(b) + Encode(c) + Encode(d) + Encode(e)
  {
    hide Encode;
    EncodeFour(b, c, d, e);
    assert [a, b, c, d, e][1..] == [b, c, d, e];
  }

  lemma {:induction false} FieldsWritten(row: Row, names: seq<Str>)
    requires RowFits(row) && forall k | k in names :: k in row
    ensures TokensOk(EntryTokens(EntriesOf(row, names)))
    ensures EncodeAll(EntryTokens(EntriesOf(row, names))) == Fields(row, names)
  {
    if names == [] {
    } else {
      hide Encode, TextBytes;
      var k, rest := names[0], EntryTokens(EntriesOf(row, names[1..]));
      assert k in names;
      FieldFits(row, k);
      StringBytes(k);
      StringBytes(row[k]);
      FieldsWritten(row, names[1..]);
      EncodeTwo(Text(k), Text(row[k]));
      EncodeAllAppend([Text(k), Text(row[k])], rest);
      assert EntryTokens(EntriesOf(row, names)) == [Text(k), Text(row[k])] + rest;
    }
  }

  lemma FieldFits(row: Row, k: Str)
    requires RowFits(row) && k in row
    ensures |k| < TWO_31 && |row[k]| < TWO_31
  {
  }

  lemma ListedIsSorted(row: Row, names: seq<Str>)
    requires Lists(row, names)
    ensures names == SortedKeys(row.Keys)
  {
    SortedKeysUnique(names, row.Keys);
  }

  lemma WrapperWritten(id: nat, m: Message)
    requires id < TWO_32
    ensures TokensOk(WrapperHead(id, m))
    ensures EncodeAll(WrapperHead(id, m)) ==
            (if IsRequest(m) then [0xD9, 0x03, 0xE8, 0x82] else [0xD9, 0x07, 0xD0, 0x82]) + Shortest(0, id)
  {
    hide Encode, Shortest;
    NumberBytes(1000);
    NumberBytes(2000);
    NumberBytes(2);
    NumberBytes(id);
    SmallHeads();
    var head := WrapperHead(id, m);
    EncodeThree(head[0], head[1], head[2]);
    assert head == [head[0], head[1], head[2]];
  }

  lemma GetWritten(m: Message)
    requires m.GetRequest? && InRange(0, m)
    ensures TokensOk(BodyTokens(m))
    ensures EncodeAll(BodyTokens(m)) ==
            [0xD9, 0x04, 0x4C, 0x83] + TextBytes(m.database) + TextBytes(m.table) + KeyBytes(m.pk)
  {
    hide Encode, Shortest, TextBytes, KeyBytes;
    NumberBytes(1100);
    NumberBytes(3);
    SmallHeads();
    StringBytes(m.database);
    StringBytes(m.table);
    KeyIsBytes(m.pk);
    EncodeFive(Tag(1100), Array(3), Text(m.database), Text(m.table), Long(m.pk));
  }

  lemma AddHeadWritten(m: Message)
    requires m.AddRequest? && InRange(0, m)
    ensures var head := [Tag(1200), Array(3), Text(m.database), Text(m.table), Map(|m.row|)];
            && TokensOk(head)
            && EncodeAll(head) == [0xD9, 0x04, 0xB0, 0x83] + TextBytes(m.database) + TextBytes(m.table) +
                                  Shortest(0xA0, |m.row|)
  {
    hide Encode, Shortest, TextBytes, RowFits;
    RowSize(m.row);
    NumberBytes(1200);
    NumberBytes(3);
    NumberBytes(|m.row|);
    SmallHeads();
    StringBytes(m.database);
    StringBytes(m.table);
    EncodeFive(Tag(1200), Array(3), Text(m.database), Text(m.table), Map(|m.row|));
  }

  lemma AddWritten(m: Message, names: seq<Str>)
    requires m.AddRequest? && InRange(0, m) && Lists(m.row, names)
    ensures TokensOk(BodyTokens(m))
    ensures EncodeAll(BodyTokens(m)) ==
            [0xD9, 0x04, 0xB0, 0x83] + TextBytes(m.database) + TextBytes(m.table) +
            Shortest(0xA0, |m.row|) + Fields(m.row, names)
  {
    hide Encode, EncodeAll, Shortest, TextBytes, Fields, EntriesOf, EntryTokens, RowFits;
    AddHeadWritten(m);
    ListedIsSorted(m.row, names);
    FieldsWritten(m.row, names);
    EncodeAllAppend([Tag(1200), Array(3), Text(m.database), Text(m.table), Map(|m.row|)],
                    EntryTokens(Entries(m.row)));
  }

  lemma GetOkWritten(m: Message, names: seq<Str>)
    requires m.GetOkResponse? && InRange(0, m) && Lists(m.values, names)
    ensures TokensOk(BodyTokens(m))
    ensures EncodeAll(BodyTokens(m)) ==
            [0xD9, 0x08, 0x34] + Shortest(0xA0, |m.values|) + Fields(m.values, names)
  {
    hide Encode, Shortest, TextBytes, Fields, EntriesOf, EntryTokens, RowFits;
    RowSize(m.values);
    NumberBytes(2100);
    NumberBytes(|m.values|);
    SmallHeads();
    ListedIsSorted(m.values, names);
    FieldsWritten(m.values, names);
    EncodeTwo(Tag(2100), Map(|m.values|));
    EncodeAllAppend([Tag(2100), Map(|m.values|)], EntryTokens(Entries(m.values)));
  }

  lemma ContinueWritten(m: Message)
    requires m.ContinueRequest? && InRange(0, m)
    ensures TokensOk(BodyTokens(m))
    ensures EncodeAll(BodyTokens(m)) ==
            [0xD9, 0x0C, 0x1C, 0x82] + Shortest(0, m.initRequestId) +
            (if m.compareResult < 0 then Shortest(0x20, -m.compareResult) else Shortest(0, m.compareResult))
  {
    hide Encode, Shortest;
    NumberBytes(3100);
    NumberBytes(2);
    NumberBytes(m.initRequestId);
    SmallHeads();
    IntBytes(m.compareResult);
    EncodeFour(Tag(3100), Array(2), UInt(m.initRequestId), Int(m.compareResult));
  }

  lemma TraverseWritten(m: Message)
    requires m.TraverseResponse? && InRange(0, m)
    ensures TokensOk(BodyTokens(m))
    ensures EncodeAll(BodyTokens(m)) ==
            [0xD9, 0x08, 0x99, 0x82] + Shortest(0, m.initRequestId) +
            Shortest(0x40, |m.ciphertext|) + m.ciphertext
  {
    hide Encode, Shortest;
    NumberBytes(2201);
    NumberBytes(2);
    NumberBytes(m.initRequestId);
    SmallHeads();
    StringBytes(m.ciphertext);
    EncodeFour(Tag(2201), Array(2), UInt(m.initRequestId), Bytes(m.ciphertext));
  }

  lemma EmptyWritten(m: Message)
    requires m.GetEmptyResponse? || m.AddOkResponse?
    ensures TokensOk(BodyTokens(m))
    ensures EncodeAll(BodyTokens(m)) ==
            if m.AddOkResponse? then [0xD9, 0x08, 0x98, 0xA0] else [0xD9, 0x08, 0x35, 0xA0]
  {
    hide Encode, Shortest;
    NumberBytes(2101);
    NumberBytes(2200);
    NumberBytes(0);
    SmallHeads();
    EncodeTwo(Tag(2101), Map(0));
    EncodeTwo(Tag(2200), Map(0));
  }

  lemma BodyWritten(m: Message, names: seq<Str>)
    requires InRange(0, m) && Lists(RowOf(m), names)
    ensures TokensOk(BodyTokens(m)) && EncodeAll(BodyTokens(m)) == BodyBytes(m, names)
  {
    hide BodyTokens, EncodeAll, Shortest, TextBytes, Fields, KeyBytes, Lists, RowFits;
    match m
    case GetRequest(_, _, _) => GetWritten(m);
    case AddRequest(_, _, _) => AddWritten(m, names);
    case ContinueRequest(_, _) => ContinueWritten(m);
    case GetOkResponse(_) => GetOkWritten(m, names);
    case GetEmptyResponse => EmptyWritten(m);
    case AddOkResponse => EmptyWritten(m);
    case TraverseResponse(_, _) => TraverseWritten(m);
  }

  /** The bytes of every message in range, with its fields in ascending order of their names. */
  lemma SerializedBytes(id: nat, m: Message, names: seq<Str>)
    requires InRange(id, m) && Lists(RowOf(m), names)
    ensures Serialized(id, m) == MessageBytes(id, m, names)
  {
    hide BodyTokens, EncodeAll, Shortest, BodyBytes, Lists, InRange;
    RangeParts(id, m);
    WrapperWritten(id, m);
    BodyWritten(m, names);
    EncodeAllAppend(WrapperHead(id, m), BodyTokens(m));
    assert WrapperTokens(id, m) == WrapperHead(id, m) + BodyTokens(m);
  }

  lemma RangeParts(id: nat, m: Message)
    requires InRange(id, m)
    ensures id < TWO_32 && InRange(0, m)
  {
  }

  /** Every message has such bytes, and they are dispatched as it is. */
  lemma BytesArrive(id: nat, m: Message) returns (names: seq<Str>)
    requires InRange(id, m)
    ensures Lists(RowOf(m), names)
    ensures Delivered(MessageBytes(id, m, names)) == Arrival(id, m)
  {
    hide Serialized, MessageBytes, Delivered, Arrival, InRange;
    names := SortedKeys(RowOf(m).Keys);
    SerializedBytes(id, m, names);
    WholeArrival(id, m);
  }

  /** The message of `mainTest`. */
  lemma MainTestBytes()
    ensures Serialized(321, ContinueRequest(123, 1)) ==
            [0xD9, 0x03, 0xE8, 0x82, 0x19, 0x01, 0x41, 0xD9, 0x0C, 0x1C, 0x82, 0x18, 0x7B, 0x01]
  {
    hide Serialized, Big;
    SerializedBytes(321, ContinueRequest(123, 1), []);
    BigFour(321);
    BigFour(123);
  }

  // ---- What the reader makes of every head ----

  /** A head whose argument is in the initial byte or in the one, two or four bytes after it. */
  predicate IsHead(first: nat, u: nat, h: Str) {
    (|h| == 1 && u < 24 && h[0] == first + u) ||
    (|h| == 2 && h[0] == first + 24 && h[1] == u) ||
    (|h| == 3 && h[0] == first + 25 && h[1] * 0x100 + h[2] as int == u) ||
    (|h| == 5 && h[0] == first + 26 &&
     h[1] * 0x100_0000 + h[2] * 0x1_0000 + h[3] * 0x100 + h[4] as int == u)
  }

  /** An unsigned number as the `int` with the same 32 bits. */
  function Signed(u: nat): int {
    if u < 0x8000_0000 then u else u - 0x1_0000_0000
  }

  lemma HeadSplit(major: Major, u: nat, h: Str, rest: Str)
    requires IsHead(major * 32, u, h)
    ensures u < TWO_32 && Read(AtType, h + rest) == AfterHead(major, u, rest)
  {
    hide Read, AfterHead, BigEndian;
    if |h| == 1 {
      HeadOneByte(major, u, rest);
      assert h == Head(major, u);
    } else {
      var arg := h[1..];
      assert h == [h[0]] + arg;
      BigEndianBound(arg);
      HeadSplitRead(major, h[0] - major * 32, |arg|, arg, h, rest);
    }
  }

  /** The types of section 2.1 of RFC 7049 by their initial bytes, with what each is heard as. */
  lemma NumbersHeard(first: nat, u: nat, h: Str, rest: Str)
    requires IsHead(first, u, h)
    ensures first == 0x00 ==> Read(AtType, h + rest) == Prepend([OnInteger(Signed(u))], Read(AtType, rest))
    ensures first == 0x20 && u == 0x8000_0000 ==> Read(AtType, h + rest) == Crashed([])
    ensures first == 0x20 && u != 0x8000_0000 ==>
              Read(AtType, h + rest) == Prepend([OnInteger(-Signed(u))], Read(AtType, rest))
    ensures first == 0x80 ==> Read(AtType, h + rest) == Prepend([OnArray(Signed(u))], Read(AtType, rest))
    ensures first == 0xA0 ==> Read(AtType, h + rest) == Prepend([OnMap(Signed(u))], Read(AtType, rest))
    ensures first == 0xC0 ==> Read(AtType, h + rest) == Prepend([OnTag(u)], Read(AtType, rest))
    ensures first == 0xE0 ==> Read(AtType, h + rest) == Prepend([OnSpecial(Signed(u))], Read(AtType, rest))
  {
    hide Read, IsHead;
    if first % 32 == 0 && first <= 0xE0 {
      HeadSplit(first / 32, u, h, rest);
    }
  }

  /** Strings: 0x40 begins bytes, 0x60 text; the length is that many bytes, or more are waited for. */
  lemma StringsHeard(text: bool, u: nat, h: Str, rest: Str)
    requires IsHead(if text then 0x60 else 0x40, u, h)
    ensures u >= 0x8000_0000 ==> Read(AtType, h + rest) == Crashed([])
    ensures u < 0x8000_0000 && |rest| < u ==>
              Read(AtType, h + rest).Stopped? && Read(AtType, h + rest).events == []
    ensures u < 0x8000_0000 && u <= |rest| ==>
              Read(AtType, h + rest) ==
              Prepend([if text then OnString(rest[..u]) else OnBytes(rest[..u])], Read(AtType, rest[u..]))
  {
    hide Read, IsHead;
    HeadSplit(if text then 3 else 2, u, h, rest);
    if u < 0x8000_0000 {
      PrependNothing(Read(AtPayload(text, u), rest));
      if |rest| < u {
        ShortPayload(text, u, rest);
      } else {
        PayloadRead(text, rest[..u], rest[u..]);
        assert rest[..u] + rest[u..] == rest;
      }
    }
  }

  lemma ReservedRead(b: byte, rest: Str)
    requires b % 32 >= 28
    ensures Read(AtType, [b] + rest) == Prepend([OnError], Read(AtType, rest))
  {
    hide Read;
    ReservedTurn(b, rest);
    ReadTurn(AtType, [b] + rest, Go(AtType, 1, [OnError]));
    assert ([b] + rest)[1..] == rest;
  }

  lemma ReservedTurn(b: byte, rest: Str)
    requires b % 32 >= 28
    ensures TurnOf(AtType, [b] + rest) == Go(AtType, 1, [OnError])
  {
  }

  lemma LongRead(major: Major, arg: Str, rest: Str)
    requires |arg| == 8
    ensures Read(AtType, [major * 32 + 27] + (arg + rest)) == Read(AtArgument(major, 8), arg + rest)
    ensures TurnOf(AtArgument(major, 8), arg + rest) == LongTurn(major)
  {
    hide Read, TurnOf;
    ReadType(major, 27, 8, arg + rest);
    LongTurns(major, arg + rest);
  }

  /** Eight-byte arguments: those of numbers, tags and specials are passed over without an event, those
      of arrays and maps are read as items, those of strings are taken for a length of 123, and a
      negative number is never got past. */
  lemma LongsHeard(first: nat, arg: Str, rest: Str)
    requires |arg| == 8 && first in {0x1B, 0x3B, 0x5B, 0x7B, 0x9B, 0xBB, 0xDB, 0xFB}
    ensures first in {0x1B, 0xDB, 0xFB} ==> Read(AtType, [first] + (arg + rest)) == Read(AtType, rest)
    ensures first in {0x9B, 0xBB} ==> Read(AtType, [first] + (arg + rest)) == Read(AtType, arg + rest)
    ensures first == 0x5B && |rest| >= 123 ==>
              Read(AtType, [first] + (arg + rest)) == Prepend([OnBytes(rest[..123])], Read(AtType, rest[123..]))
    ensures first == 0x7B && |rest| >= 123 ==>
              Read(AtType, [first] + (arg + rest)) == Prepend([OnString(rest[..123])], Read(AtType, rest[123..]))
    ensures first == 0x3B ==> Read(AtType, [first] + (arg + rest)) == Looping([])
  {
    hide Read, TurnOf;
    LongRead(first / 32, arg, rest);
    if first == 0x3B {
      LongLoops(arg, rest);
    } else {
      LongGoes(first / 32, arg, rest, 123);
    }
  }

  lemma LongLoops(arg: Str, rest: Str)
    requires TurnOf(AtArgument(1, 8), arg + rest) == Go(AtArgument(1, 8), 0, [])
    ensures Read(AtArgument(1, 8), arg + rest) == Looping([])
  {
    hide TurnOf;
  }

  lemma LongGoes(major: Major, arg: Str, rest: Str, length: nat)
    requires |arg| == 8 && major != 1 && length == 123
    requires TurnOf(AtArgument(major, 8), arg + rest) == LongTurn(major)
    ensures major in {0, 6, 7} ==> Read(AtArgument(major, 8), arg + rest) == Read(AtType, rest)
    ensures major in {4, 5} ==> Read(AtArgument(major, 8), arg + rest) == Read(AtType, arg + rest)
    ensures major in {2, 3} && |rest| >= length ==>
              Read(AtArgument(major, 8), arg + rest) ==
              Prepend([if major == 3 then OnString(rest[..length]) else OnBytes(rest[..length])],
                      Read(AtType, rest[length..]))
  {
    hide Read, TurnOf;
    var s, t := arg + rest, LongTurn(major);
    ReadTurn(AtArgument(major, 8), s, t);
    assert s[8..] == rest && s[0..] == s;
    PrependNothing(Read(t.next, s[t.consumed..]));
    if (major == 2 || major == 3) && |rest| >= length {
      PayloadRead(major == 3, rest[..length], rest[length..]);
      assert rest[..length] + rest[length..] == rest;
    }
  }
}
