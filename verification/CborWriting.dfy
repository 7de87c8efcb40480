/** The output buffer and the writer. A write that does not fit is dropped, so what a sequence of
    writes leaves is a matter of its chunks: single bytes for a head, one block for a payload. */
module CborWriting {
  import opened Strings
  import opened CborFormat

  // ---- What bounded writes leave ----

  function Put(contents: Str, chunk: Str, capacity: nat): (r: Str) {
    if |contents| + |chunk| <= capacity then contents + chunk else contents
  }

  function PutAll(contents: Str, chunks: seq<Str>, capacity: nat): (r: Str)
    ensures |contents| <= capacity ==> |r| <= capacity
    decreases |chunks|
  {
    if chunks == [] then contents
    else Put(PutAll(contents, chunks[..|chunks| - 1], capacity), chunks[|chunks| - 1], capacity)
  }

  function Singles(s: Str): seq<Str>
    decreases |s|
  {
    if s == [] then [] else Singles(s[..|s| - 1]) + [[s[|s| - 1]]]
  }

  function Chunks(t: Token): seq<Str>
    requires TokenOk(t)
  {
    Singles(TokenHead(t)) + (if t.Bytes? || t.Text? then [TokenPayload(t)] else [])
  }

  function ChunksOf(ts: seq<Token>): seq<Str>
    requires TokensOk(ts)
  {
    if ts == [] then [] else Chunks(ts[0]) + ChunksOf(ts[1..])
  }

  /** What writing the tokens leaves in a buffer. */
  function Written(contents: Str, ts: seq<Token>, capacity: nat): Str
    requires TokensOk(ts)
  {
    PutAll(contents, ChunksOf(ts), capacity)
  }

  lemma {:induction false} PutAllAppend(contents: Str, a: seq<Str>, b: seq<Str>, capacity: nat)
    ensures PutAll(contents, a + b, capacity) == PutAll(PutAll(contents, a, capacity), b, capacity)
    decreases |b|
  {
    if b == [] {
      assert a + b == a;
    } else {
      var n := |b| - 1;
      assert (a + b)[..|a + b| - 1] == a + b[..n];
      PutAllAppend(contents, a, b[..n], capacity);
    }
  }

  lemma {:induction false} ChunksOfAppend(a: seq<Token>, b: seq<Token>)
    requires TokensOk(a) && TokensOk(b)
    ensures TokensOk(a + b) && ChunksOf(a + b) == ChunksOf(a) + ChunksOf(b)
  {
    hide Chunks;
    if a == [] {
      assert a + b == b;
    } else {
      assert (a + b)[1..] == a[1..] + b && (a + b)[0] == a[0];
      ChunksOfAppend(a[1..], b);
    }
  }

  /** Writing one list of tokens and then another is writing both. */
  lemma WrittenAppend(contents: Str, a: seq<Token>, b: seq<Token>, capacity: nat)
    requires TokensOk(a) && TokensOk(b)
    ensures TokensOk(a + b)
    ensures Written(contents, a + b, capacity) == Written(Written(contents, a, capacity), b, capacity)
  {
    ChunksOfAppend(a, b);
    PutAllAppend(contents, ChunksOf(a), ChunksOf(b), capacity);
  }

  lemma PutOne(contents: Str, chunk: Str, capacity: nat)
    ensures PutAll(contents, [chunk], capacity) == Put(contents, chunk, capacity)
  {
    assert [chunk][..0] == [];
  }

  lemma WrittenOne(contents: Str, t: Token, capacity: nat)
    requires TokenOk(t)
    ensures Written(contents, [t], capacity) == PutAll(contents, Chunks(t), capacity)
  {
    assert [t][1..] == [];
    assert ChunksOf([t]) == Chunks(t);
  }

  function Concat(chunks: seq<Str>): Str
    decreases |chunks|
  {
    if chunks == [] then [] else Concat(chunks[..|chunks| - 1]) + chunks[|chunks| - 1]
  }

  lemma {:induction false} PutAllFits(contents: Str, chunks: seq<Str>, capacity: nat)
    requires |contents| + |Concat(chunks)| <= capacity
    ensures PutAll(contents, chunks, capacity) == contents + Concat(chunks)
    decreases |chunks|
  {
    if chunks == [] {
      assert contents + [] == contents;
    } else {
      PutAllFits(contents, chunks[..|chunks| - 1], capacity);
    }
  }

  lemma {:induction false} ConcatAppend(a: seq<Str>, b: seq<Str>)
    ensures Concat(a + b) == Concat(a) + Concat(b)
    decreases |b|
  {
    if b == [] {
      assert a + b == a;
    } else {
      assert (a + b)[..|a + b| - 1] == a + b[..|b| - 1];
      ConcatAppend(a, b[..|b| - 1]);
    }
  }

  lemma {:induction false} ConcatSingles(s: Str)
    ensures Concat(Singles(s)) == s
    decreases |s|
  {
    if s == [] {
    } else {
      ConcatSingles(s[..|s| - 1]);
      var c := Singles(s);
      assert c[..|c| - 1] == Singles(s[..|s| - 1]);
    }
  }

  lemma ConcatChunks(t: Token)
    requires TokenOk(t)
    ensures Concat(Chunks(t)) == Encode(t)
  {
    hide TokenHead;
    ConcatSingles(TokenHead(t));
    if t.Bytes? || t.Text? {
      ConcatAppend(Singles(TokenHead(t)), [TokenPayload(t)]);
      assert [TokenPayload(t)][..0] == [];
      assert Concat([TokenPayload(t)]) == TokenPayload(t);
    } else {
      assert Chunks(t) == Singles(TokenHead(t));
    }
  }

  lemma {:induction false} ConcatChunksOf(ts: seq<Token>)
    requires TokensOk(ts)
    ensures Concat(ChunksOf(ts)) == EncodeAll(ts)
  {
    if ts == [] {
    } else {
      hide Chunks, Encode;
      ConcatChunks(ts[0]);
      ConcatChunksOf(ts[1..]);
      ConcatAppend(Chunks(ts[0]), ChunksOf(ts[1..]));
    }
  }

  /** The buffer holds the whole encoding exactly when there was room for it. */
  lemma WrittenWhole(contents: Str, ts: seq<Token>, capacity: nat)
    requires TokensOk(ts) && |contents| <= capacity
    ensures Written(contents, ts, capacity) == contents + EncodeAll(ts) <==>
            |contents| + |EncodeAll(ts)| <= capacity
  {
    ConcatChunksOf(ts);
    if |contents| + |EncodeAll(ts)| <= capacity {
      PutAllFits(contents, ChunksOf(ts), capacity);
    }
  }

  /** A string whose head fits and whose block does not leaves its head alone: no part of the block. */
  lemma BlockDropped(contents: Str, t: Token, capacity: nat)
    requires TokenOk(t) && (t.Bytes? || t.Text?)
    requires |contents| + |TokenHead(t)| <= capacity < |contents| + |TokenHead(t)| + |TokenPayload(t)|
    ensures Written(contents, [t], capacity) == contents + TokenHead(t)
  {
    WrittenOne(contents, t, capacity);
    PutAllAppend(contents, Singles(TokenHead(t)), [TokenPayload(t)], capacity);
    ConcatSingles(TokenHead(t));
    PutAllFits(contents, Singles(TokenHead(t)), capacity);
    PutOne(contents + TokenHead(t), TokenPayload(t), capacity);
  }

  // ---- The classes ----

  class CborOutput {
    var buffer: array<byte>
    var capacity: nat
    var offset: nat

    ghost predicate Valid()
      reads this
    {
      capacity == buffer.Length && offset <= capacity
    }

    ghost function Contents(): (s: Str)
      reads this, buffer
      requires Valid()
    {
      buffer[..offset]
    }

    constructor (capacity: nat)
      ensures Valid() && fresh(buffer) && this.capacity == capacity && Contents() == []
    {
      buffer := new byte[capacity];
      this.capacity := capacity;
      offset := 0;
    }

    method PutByte(value: byte)
      requires Valid()
      modifies this`offset, buffer
      ensures Valid()
      ensures Contents() == Put(old(Contents()), [value], capacity)
    {
      if offset < capacity {
        buffer[offset] := value;
        offset := offset + 1;
      }
    }

    method PutBytes(data: Str)
      requires Valid()
      modifies this`offset, buffer
      ensures Valid()
      ensures Contents() == Put(old(Contents()), data, capacity)
    {
      if offset as int + |data| - 1 < capacity {
        forall i | 0 <= i < |data| {
          buffer[offset + i] := data[i];
        }
        offset := offset + |data|;
      }
    }
  }

  class CborWriter {
    const output: CborOutput

    constructor (output: CborOutput)
      ensures this.output == output
    {
      this.output := output;
    }

    lemma PutNext(contents: Str, done: Str, value: byte, capacity: nat)
      ensures Put(PutAll(contents, Singles(done), capacity), [value], capacity) ==
              PutAll(contents, Singles(done + [value]), capacity)
    {
      var s := done + [value];
      assert s[..|s| - 1] == done;
      var c := Singles(s);
      assert c[..|c| - 1] == Singles(done);
    }

    /** The next byte of a head. */
    method PutHeadByte(value: byte, ghost start: Str, ghost done: Str)
      requires output.Valid() && output.Contents() == PutAll(start, Singles(done), output.capacity)
      modifies output`offset, output.buffer
      ensures output.Valid()
      ensures output.Contents() == PutAll(start, Singles(done + [value]), output.capacity)
    {
      PutNext(start, done, value, output.capacity);
      output.PutByte(value);
    }

    /** `writeTypeAndValue(int, unsigned int)`. */
    method WriteTypeAndValue(major: Major, value: nat)
      requires output.Valid() && value < TWO_32
      modifies output`offset, output.buffer
      ensures output.Valid()
      ensures output.Contents() == PutAll(old(output.Contents()), Singles(Head(major, value)), output.capacity)
    {
      hide PutAll, Singles, Put;
      ghost var start := output.Contents();
      StartHead(start, output.capacity);
      var initial := major * 32;
      if value < 24 {
        PutHeadByte(initial + value, start, []);
        assert Head(major, value) == [] + [initial + value];
      } else if value < 256 {
        PutHeadByte(initial + 24, start, []);
        PutHeadByte(value, start, [] + [initial + 24]);
        assert Head(major, value) == [] + [initial + 24] + [value];
      } else if value < 65536 {
        PutHeadByte(initial + 25, start, []);
        PutHeadByte(value / 256, start, [] + [initial + 25]);
        PutHeadByte(value % 256, start, [] + [initial + 25] + [value / 256]);
        assert Head(major, value) == [] + [initial + 25] + [value / 256] + [value % 256];
      } else {
        WriteFourByteHead(major, value);
      }
    }

    lemma StartHead(start: Str, capacity: nat)
      ensures PutAll(start, Singles([]), capacity) == start
    {
    }

    /** The last case of both overloads of `writeTypeAndValue` for 32-bit values. */
    method WriteFourByteHead(major: Major, value: nat)
      requires output.Valid() && 65536 <= value < TWO_32
      modifies output`offset, output.buffer
      ensures output.Valid()
      ensures output.Contents() == PutAll(old(output.Contents()), Singles(Head(major, value)), output.capacity)
    {
      hide PutAll, Singles, Put;
      ghost var start := output.Contents();
      StartHead(start, output.capacity);
      ghost var done: Str := [];
      PutHeadByte(major * 32 + 26, start, done);
      done := done + [major * 32 + 26];
      PutHeadByte(value / 0x100_0000, start, done);
      done := done + [value / 0x100_0000];
      PutHeadByte(value / 65536 % 256, start, done);
      done := done + [value / 65536 % 256];
      PutHeadByte(value / 256 % 256, start, done);
      done := done + [value / 256 % 256];
      PutHeadByte(value % 256, start, done);
      assert Head(major, value) == done + [value % 256];
    }

    /** `writeTypeAndValue(int, unsigned long long)`. */
    method WriteTypeAndLongValue(major: Major, value: nat)
      requires output.Valid() && value < TWO_64
      modifies output`offset, output.buffer
      ensures output.Valid()
      ensures output.Contents() == PutAll(old(output.Contents()), Singles(Head64(major, value)), output.capacity)
    {
      hide PutAll, Singles, Put;
      ghost var start := output.Contents();
      StartHead(start, output.capacity);
      var initial := major * 32;
      if value < 24 {
        PutHeadByte(initial + value, start, []);
        assert Head64(major, value) == [] + [initial + value];
      } else if value < 256 {
        PutHeadByte(initial + 24, start, []);
        PutHeadByte(value, start, [] + [initial + 24]);
        assert Head64(major, value) == [] + [initial + 24] + [value];
      } else if value < 65536 {
        PutHeadByte(initial + 25, start, []);
        PutHeadByte(value / 256, start, [] + [initial + 25]);
        assert Head64(major, value) == [] + [initial + 25] + [value / 256];
      } else if value < TWO_32 {
        WriteFourByteHead(major, value);
      } else {
        WriteEightByteHead(major, value);
      }
    }

    method WriteEightByteHead(major: Major, value: nat)
      requires output.Valid() && TWO_32 <= value < TWO_64
      modifies output`offset, output.buffer
      ensures output.Valid()
      ensures output.Contents() == PutAll(old(output.Contents()), Singles(Head64(major, value)), output.capacity)
    {
      var bytes := [major * 32 + 27,
                    value / 0x100_0000_0000_0000, value / 0x1_0000_0000_0000 % 256,
                    value / 0x100_0000_0000 % 256, value / 0x1_0000_0000 % 256,
                    value / 0x100_0000 % 256, value / 65536 % 256, value / 256 % 256, value % 256];
      PutEach(bytes);
    }

    /** The nine `putByte` calls of an eight-byte head. */
    method PutEach(bytes: Str)
      requires output.Valid()
      modifies output`offset, output.buffer
      ensures output.Valid()
      ensures output.Contents() == PutAll(old(output.Contents()), Singles(bytes), output.capacity)
    {
      ghost var start := output.Contents();
      for i := 0 to |bytes|
        invariant output.Valid()
        invariant output.Contents() == PutAll(start, Singles(bytes[..i]), output.capacity)
      {
        assert bytes[..i + 1] == bytes[..i] + [bytes[i]];
        PutHeadByte(bytes[i], start, bytes[..i]);
      }
      assert bytes[..|bytes|] == bytes;
    }

    lemma WroteHead(start: Str, t: Token, capacity: nat)
      requires TokenOk(t) && !t.Bytes? && !t.Text?
      ensures Written(start, [t], capacity) == PutAll(start, Singles(TokenHead(t)), capacity)
    {
      WrittenOne(start, t, capacity);
      assert Chunks(t) == Singles(TokenHead(t));
    }

    lemma WroteString(start: Str, t: Token, capacity: nat)
      requires TokenOk(t) && (t.Bytes? || t.Text?)
      ensures Written(start, [t], capacity) ==
              Put(PutAll(start, Singles(TokenHead(t)), capacity), TokenPayload(t), capacity)
    {
      WrittenOne(start, t, capacity);
      PutAllAppend(start, Singles(TokenHead(t)), [TokenPayload(t)], capacity);
      PutOne(PutAll(start, Singles(TokenHead(t)), capacity), TokenPayload(t), capacity);
    }

    method WriteInt(value: int)
      requires output.Valid() && -TWO_31 < value < TWO_31
      modifies output`offset, output.buffer
      ensures output.Valid()
      ensures output.Contents() == Written(old(output.Contents()), [Int(value)], output.capacity)
    {
      WroteHead(output.Contents(), Int(value), output.capacity);
      if value < 0 {
        WriteTypeAndValue(1, -value);
      } else {
        WriteTypeAndValue(0, value);
      }
    }

    method WriteUnsigned(value: nat)
      requires output.Valid() && value < TWO_32
      modifies output`offset, output.buffer
      ensures output.Valid()
      ensures output.Contents() == Written(old(output.Contents()), [UInt(value)], output.capacity)
    {
      WroteHead(output.Contents(), UInt(value), output.capacity);
      WriteTypeAndValue(0, value);
    }

    method WriteUnsignedLong(value: nat)
      requires output.Valid() && value < TWO_64
      modifies output`offset, output.buffer
      ensures output.Valid()
      ensures output.Contents() == Written(old(output.Contents()), [Long(value)], output.capacity)
    {
      WroteHead(output.Contents(), Long(value), output.capacity);
      WriteTypeAndLongValue(0, value);
    }

    method WriteBytes(data: Str)
      requires output.Valid() && |data| < TWO_31
      modifies output`offset, output.buffer
      ensures output.Valid()
      ensures output.Contents() == Written(old(output.Contents()), [Bytes(data)], output.capacity)
    {
      WroteString(output.Contents(), Bytes(data), output.capacity);
      WriteTypeAndValue(2, |data|);
      output.PutBytes(data);
    }

    method WriteString(str: Str)
      requires output.Valid() && |str| < TWO_31
      modifies output`offset, output.buffer
      ensures output.Valid()
      ensures output.Contents() == Written(old(output.Contents()), [Text(str)], output.capacity)
    {
      WroteString(output.Contents(), Text(str), output.capacity);
      WriteTypeAndValue(3, |str|);
      output.PutBytes(str);
    }

    method WriteArray(size: int)
      requires output.Valid() && -TWO_31 <= size < TWO_31
      modifies output`offset, output.buffer
      ensures output.Valid()
      ensures output.Contents() == Written(old(output.Contents()), [Array(size)], output.capacity)
    {
      WroteHead(output.Contents(), Array(size), output.capacity);
      WriteTypeAndValue(4, ToU32(size));
    }

    method WriteMap(size: int)
      requires output.Valid() && -TWO_31 <= size < TWO_31
      modifies output`offset, output.buffer
      ensures output.Valid()
      ensures output.Contents() == Written(old(output.Contents()), [Map(size)], output.capacity)
    {
      WroteHead(output.Contents(), Map(size), output.capacity);
      WriteTypeAndValue(5, ToU32(size));
    }

    method WriteTag(tag: nat)
      requires output.Valid() && tag < TWO_32
      modifies output`offset, output.buffer
      ensures output.Valid()
      ensures output.Contents() == Written(old(output.Contents()), [Tag(tag)], output.capacity)
    {
      WroteHead(output.Contents(), Tag(tag), output.capacity);
      WriteTypeAndValue(6, tag);
    }

    method WriteSpecial(special: int)
      requires output.Valid() && -TWO_31 <= special < TWO_31
      modifies output`offset, output.buffer
      ensures output.Valid()
      ensures output.Contents() == Written(old(output.Contents()), [Special(special)], output.capacity)
    {
      WroteHead(output.Contents(), Special(special), output.capacity);
      WriteTypeAndValue(7, ToU32(special));
    }
  }
}
