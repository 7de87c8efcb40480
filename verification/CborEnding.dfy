/** On which inputs the reader's loop ends, never ends, or has undefined behaviour: a test that
    goes from item to item by their sizes and looks at no state of the reader. */
module CborEnding {
  import opened Strings
  import opened CborFormat
  import opened CborRoundTrip

  datatype Fate = Ends | Loops | Undefined

  /** Byte and text strings have a payload. */
  function PayloadBytes(major: nat, u: nat): nat {
    if major == 2 || major == 3 then u else 0
  }

  /** The heads the reader does not get past: a complete eight-byte negative number, a string with a
      four-byte length of 2^31 or more, and the four-byte negative number whose negation overflows. */
  predicate Fatal(s: Str)
    requires s != []
  {
    (s[0] == 0x3B && |s| >= 9) ||
    ((s[0] == 0x5A || s[0] == 0x7A) && |s| >= 5 && BigEndian(s[1..5]) >= TWO_31) ||
    (s[0] == 0x3A && |s| >= 5 && BigEndian(s[1..5]) == TWO_31)
  }

  /** The bytes the reader takes for the item at the start of s, counting those that are still to
      come. An eight-byte head of an array or a map is left but for its initial byte, one of a
      string is taken for 123 bytes of payload. */
  function ItemSize(s: Str): (n: nat)
    requires s != []
    ensures n > 0
  {
    var major, minor := s[0] / 32, s[0] % 32;
    var width := ArgumentBytes(minor);
    if |s| < 1 + width then 1 + width
    else if minor < 24 then 1 + PayloadBytes(major, minor)
    else if minor < 27 then 1 + width + PayloadBytes(major, BigEndian(s[1..1 + width]))
    else if minor == 27 then if major == 4 || major == 5 then 1 else 9 + PayloadBytes(major, 123)
    else 1
  }

  /** From item to item until one is fatal or there are no more whole ones. */
  function FateOf(s: Str): Fate
    decreases |s|
  {
    if s == [] then Ends
    else if Fatal(s) then if s[0] == 0x3B then Loops else Undefined
    else if ItemSize(s) > |s| then Ends
    else FateOf(s[ItemSize(s)..])
  }

  function EndOf(r: Reading): Fate {
    match r
    case Stopped(_, _, _) => Ends
    case Looping(_) => Loops
    case Crashed(_) => Undefined
  }

  lemma PayloadEnd(text: bool, length: nat, rest: Str)
    requires length < TWO_31
    ensures EndOf(Read(AtPayload(text, length), rest)) ==
            if |rest| < length then Ends else EndOf(Read(AtType, rest[length..]))
  {
  }

  lemma AfterHeadEnd(major: Major, u: nat, rest: Str)
    requires u < TWO_32
    ensures EndOf(AfterHead(major, u, rest)) ==
            if ((major == 2 || major == 3) && u >= TWO_31) || (major == 1 && u == TWO_31) then Undefined
            else if PayloadBytes(major, u) > |rest| then Ends
            else EndOf(Read(AtType, rest[PayloadBytes(major, u)..]))
  {
    hide Read;
    if (major == 2 || major == 3) && u < TWO_31 {
      PayloadEnd(major == 3, u, rest);
    } else {
      assert rest[0..] == rest;
    }
  }

  /** One turn of the loop. */
  lemma TurnEnd(c: Cursor, s: Str)
    requires CursorOk(c)
    ensures var t := TurnOf(c, s);
            EndOf(Read(c, s)) ==
            if t == Wait then Ends
            else if t == Crash then Undefined
            else if t.next == c && t.consumed == 0 then Loops
            else EndOf(Read(t.next, s[t.consumed..]))
  {
    hide TurnOf;
  }

  lemma LongStringEnd(major: Major, tail: Str, length: nat)
    requires (major == 2 || major == 3) && |tail| >= 8 && length == 123
    ensures EndOf(Read(AtArgument(major, 8), tail)) ==
            if length > |tail| - 8 then Ends else EndOf(Read(AtType, tail[8 + length..]))
  {
    hide Read, TurnOf;
    LongTurns(major, tail);
    TurnEnd(AtArgument(major, 8), tail);
    PayloadEnd(major == 3, length, tail[8..]);
    if length <= |tail| - 8 {
      assert tail[8..][length..] == tail[8 + length..];
    }
  }

  lemma LongEnd(major: Major, tail: Str, length: nat)
    requires length == PayloadBytes(major, 123)
    ensures EndOf(Read(AtArgument(major, 8), tail)) ==
            if |tail| < 8 then Ends
            else if major == 1 then Loops
            else if major == 4 || major == 5 then EndOf(Read(AtType, tail))
            else if length > |tail| - 8 then Ends
            else EndOf(Read(AtType, tail[8 + length..]))
  {
    hide Read, TurnOf, EndOf;
    LongTurns(major, tail);
    TurnEnd(AtArgument(major, 8), tail);
    if |tail| >= 8 {
      assert tail[0..] == tail;
      if major == 2 || major == 3 {
        LongStringEnd(major, tail, length);
      }
    }
  }

  lemma ArgumentEnd(major: Major, width: nat, tail: Str)
    requires width in {1, 2, 4}
    ensures |tail| < width ==> EndOf(Read(AtArgument(major, width), tail)) == Ends
    ensures |tail| >= width ==>
              BigEndian(tail[..width]) < TWO_32 &&
              EndOf(Read(AtArgument(major, width), tail)) ==
              EndOf(AfterHead(major, BigEndian(tail[..width]), tail[width..]))
  {
    if |tail| >= width {
      hide Read, AfterHead;
      assert tail == tail[..width] + tail[width..];
      ReadArgument(major, width, tail[..width], tail[width..]);
    }
  }

  lemma ReservedEnd(s: Str)
    requires s != [] && s[0] % 32 >= 28
    ensures EndOf(Read(AtType, s)) == EndOf(Read(AtType, s[1..]))
  {
    hide Read, TurnOf;
    ReservedTurn(s);
    TurnEnd(AtType, s);
  }

  lemma ReservedTurn(s: Str)
    requires s != [] && s[0] % 32 >= 28
    ensures TurnOf(AtType, s) == Go(AtType, 1, [OnError])
  {
  }

  /** One item: fatal, unfinished, or followed by the rest. */
  ghost predicate OneItem(s: Str)
    requires s != []
  {
    EndOf(Read(AtType, s)) ==
    if Fatal(s) then if s[0] == 0x3B then Loops else Undefined
    else if ItemSize(s) > |s| then Ends
    else EndOf(Read(AtType, s[ItemSize(s)..]))
  }

  lemma OneByteItem(s: Str)
    requires s != [] && s[0] % 32 < 24
    ensures OneItem(s)
  {
    hide Read, AfterHead, BigEndian;
    var major, minor := s[0] / 32, s[0] % 32;
    assert s == Head(major, minor) + s[1..];
    HeadOneByte(major, minor, s[1..]);
    AfterHeadEnd(major, minor, s[1..]);
    if PayloadBytes(major, minor) <= |s[1..]| {
      assert s[1..][PayloadBytes(major, minor)..] == s[ItemSize(s)..];
    }
  }

  /** The test, in terms of major type and argument. */
  lemma ArgumentSizes(s: Str, major: Major, minor: nat, width: nat)
    requires s != [] && s[0] == major * 32 + minor && 24 <= minor <= 26 && width == ArgumentBytes(minor)
    ensures |s| < 1 + width ==> !Fatal(s) && ItemSize(s) == 1 + width
    ensures |s| >= 1 + width ==>
              var u := BigEndian(s[1..1 + width]);
              && u < TWO_32
              && s[0] != 0x3B
              && (Fatal(s) <==> ((major == 2 || major == 3) && u >= TWO_31) || (major == 1 && u == TWO_31))
              && ItemSize(s) == 1 + width + PayloadBytes(major, u)
  {
    hide BigEndian;
    assert s[0] / 32 == major && s[0] % 32 == minor;
    if |s| >= 1 + width {
      BigEndianBound(s[1..1 + width]);
    }
  }

  lemma ArgumentRead(s: Str, major: Major, minor: nat, width: nat)
    requires s != [] && s[0] == major * 32 + minor && 24 <= minor <= 26 && width == ArgumentBytes(minor)
    ensures |s| < 1 + width ==> EndOf(Read(AtType, s)) == Ends
    ensures |s| >= 1 + width ==>
              BigEndian(s[1..1 + width]) < TWO_32 &&
              EndOf(Read(AtType, s)) == EndOf(AfterHead(major, BigEndian(s[1..1 + width]), s[1 + width..]))
  {
    hide Read, AfterHead, BigEndian, EndOf;
    var tail := s[1..];
    assert s == [major * 32 + minor] + tail;
    ReadType(major, minor, width, tail);
    ArgumentEnd(major, width, tail);
    if |tail| >= width {
      assert tail[..width] == s[1..1 + width] && tail[width..] == s[1 + width..];
    }
  }

  lemma ArgumentItem(s: Str, width: nat)
    requires s != [] && 24 <= s[0] % 32 <= 26 && width == ArgumentBytes(s[0] % 32)
    ensures OneItem(s)
  {
    hide Read, AfterHead, BigEndian, Fatal, ItemSize, EndOf;
    var major, minor := s[0] / 32, s[0] % 32;
    ArgumentRead(s, major, minor, width);
    ArgumentSizes(s, major, minor, width);
    if |s| >= 1 + width {
      var u, rest := BigEndian(s[1..1 + width]), s[1 + width..];
      AfterHeadEnd(major, u, rest);
      if PayloadBytes(major, u) <= |rest| {
        assert rest[PayloadBytes(major, u)..] == s[1 + width + PayloadBytes(major, u)..];
      }
    }
  }

  lemma LongSizes(s: Str, major: Major)
    requires s != [] && s[0] == major * 32 + 27
    ensures Fatal(s) <==> major == 1 && |s| >= 9
    ensures s[0] == 0x3B <==> major == 1
    ensures ItemSize(s) ==
            if |s| < 9 then 9 else if major == 4 || major == 5 then 1 else 9 + PayloadBytes(major, 123)
  {
    hide BigEndian;
    assert s[0] / 32 == major && s[0] % 32 == 27;
  }

  lemma LongItem(s: Str)
    requires s != [] && s[0] % 32 == 27
    ensures OneItem(s)
  {
    hide Read, BigEndian, Fatal, ItemSize;
    var major, tail := s[0] / 32, s[1..];
    assert s == [major * 32 + 27] + tail;
    ReadType(major, 27, 8, tail);
    var length := PayloadBytes(major, 123);
    LongEnd(major, tail, length);
    LongSizes(s, major);
    if |tail| >= 8 + length {
      assert tail[8 + length..] == s[9 + length..];
    }
  }

  lemma ItemRead(s: Str)
    requires s != []
    ensures OneItem(s)
  {
    hide OneItem;
    if s[0] % 32 < 24 {
      OneByteItem(s);
    } else if s[0] % 32 < 27 {
      ArgumentItem(s, ArgumentBytes(s[0] % 32));
    } else if s[0] % 32 == 27 {
      LongItem(s);
    } else {
      ReservedEnd(s);
      ReservedItem(s);
    }
  }

  lemma ReservedItem(s: Str)
    requires s != [] && s[0] % 32 >= 28
    requires EndOf(Read(AtType, s)) == EndOf(Read(AtType, s[1..]))
    ensures OneItem(s)
  {
    hide Read;
  }

  /** The reader's loop ends, never ends or is undefined exactly as the test from item to item says. */
  lemma {:induction false} StopsExactly(input: Str)
    ensures EndOf(Read(AtType, input)) == FateOf(input)
    ensures Read(AtType, input).Stopped? <==> FateOf(input) == Ends
    decreases |input|
  {
    hide Fatal, ItemSize;
    if input == [] {
    } else {
      ItemRead(input);
      if !Fatal(input) && ItemSize(input) <= |input| {
        StopsExactly(input[ItemSize(input)..]);
      }
    }
  }

  /** After any whole items a fatal head is fatal, whatever follows: 0x3B with eight bytes after it is
      never got past, and the other two are undefined. */
  lemma FatalAfterItems(a: Str, s: Str, tail: Str)
    requires Read(AtType, a).Stopped? && Read(AtType, a).cursor == AtType
    requires s != [] && Fatal(s)
    ensures EndOf(Read(AtType, a + (s + tail))) == if s[0] == 0x3B then Loops else Undefined
  {
    hide Read, Fatal, BigEndian;
    ReadAppend(AtType, a, s + tail);
    AllTaken(a);
    assert [] + (s + tail) == s + tail;
    FatalStays(s, tail);
    ItemRead(s + tail);
  }

  lemma AllTaken(a: Str)
    requires Read(AtType, a).Stopped? && Read(AtType, a).cursor == AtType
    ensures Read(AtType, a).rest == []
  {
    hide Read;
  }

  lemma FatalStays(s: Str, tail: Str)
    requires s != [] && Fatal(s)
    ensures Fatal(s + tail) && (s + tail)[0] == s[0]
  {
    if |s| >= 5 {
      assert (s + tail)[1..5] == s[1..5];
    }
  }

  /** An input with no fatal head at any position is read to its end; an input that is never read to
      its end has 0x3B with eight bytes after it. */
  lemma NoFatalByteEnds(input: Str)
    ensures (forall n | 0 <= n < |input| :: !Fatal(input[n..])) ==> Read(AtType, input).Stopped?
    ensures Read(AtType, input).Looping? ==> exists n :: 0 <= n && n + 9 <= |input| && input[n] == 0x3B
  {
    StopsExactly(input);
    if FateOf(input) != Ends {
      var n := FatalPosition(input);
    }
  }

  lemma {:induction false} FatalPosition(input: Str) returns (n: nat)
    requires FateOf(input) != Ends
    ensures n < |input| && Fatal(input[n..])
    ensures FateOf(input) == Loops <==> input[n] == 0x3B
    decreases |input|
  {
    hide Fatal, ItemSize;
    if Fatal(input) {
      n := 0;
      assert input[0..] == input;
    } else {
      var k := ItemSize(input);
      var m := FatalPosition(input[k..]);
      n := k + m;
      assert input[n..] == input[k..][m..];
    }
  }
}
