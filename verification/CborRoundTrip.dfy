/** What the reader hears of what the writer wrote. */
module CborRoundTrip {
  import opened Strings
  import opened CborFormat

  /** The event a token arrives as; conversions are those of the listener's signature. */
  function Heard(t: Token): Event
    requires TokenOk(t) && !t.Long?
  {
    match t
    case Int(i) => OnInteger(i)
    case UInt(u) => OnInteger(ToI32(u))
    case Bytes(s) => OnBytes(s)
    case Text(s) => OnString(s)
    case Array(n) => OnArray(n)
    case Map(n) => OnMap(n)
    case Tag(u) => OnTag(u)
    case Special(n) => OnSpecial(n)
  }

  function HeardAll(ts: seq<Token>): (es: seq<Event>)
    requires TokensOk(ts) && forall t | t in ts :: !t.Long?
    ensures |es| == |ts|
  {
    if ts == [] then [] else [Heard(ts[0])] + HeardAll(ts[1..])
  }

  lemma ConversionsUndo(i: int, u: int)
    ensures -TWO_31 <= i < TWO_31 ==> ToI32(ToU32(i)) == i
    ensures 0 <= u < TWO_32 ==> ToU32(ToI32(u)) == u
  {
  }

  /** What the reader does after the whole of a head whose argument is u. */
  function AfterHead(major: Major, u: nat, rest: Str): Reading
    requires u < TWO_32
  {
    match ArgumentTurn(major, u, 0)
    case Crash => Crashed([])
    case Go(next, _, events) => Prepend(events, Read(next, rest))
  }

  lemma HeadOneByte(major: Major, value: nat, rest: Str)
    requires value < 24
    ensures Read(AtType, Head(major, value) + rest) == AfterHead(major, value, rest)
  {
    var s := Head(major, value) + rest;
    assert s[0] == major * 32 + value && s[1..] == rest;
    assert s[0] / 32 == major && s[0] % 32 == value;
    assert TurnOf(AtType, s) == ArgumentTurn(major, value, 1);
  }

  /** An initial byte that announces an argument, and the argument. */
  lemma ReadArgument(major: Major, width: nat, arg: Str, rest: Str)
    requires width in {1, 2, 4} && |arg| == width
    ensures BigEndian(arg) < TWO_32
    ensures Read(AtArgument(major, width), arg + rest) == AfterHead(major, BigEndian(arg), rest)
  {
    BigEndianBound(arg);
    var s := arg + rest;
    assert s[..width] == arg && s[width..] == rest;
    assert TurnOf(AtArgument(major, width), s) == ArgumentTurn(major, BigEndian(arg), width);
  }

  lemma TypeTurnAnnounces(major: Major, minor: nat, width: nat, tail: Str)
    requires width == ArgumentBytes(minor) != 0
    ensures TurnOf(AtType, [major * 32 + minor] + tail) == Go(AtArgument(major, width), 1, [])
  {
    var s := [major * 32 + minor] + tail;
    assert s[0] / 32 == major && s[0] % 32 == minor;
  }

  lemma ReadType(major: Major, minor: nat, width: nat, tail: Str)
    requires width == ArgumentBytes(minor) != 0
    ensures Read(AtType, [major * 32 + minor] + tail) == Read(AtArgument(major, width), tail)
  {
    hide TurnOf;
    TypeTurnAnnounces(major, minor, width, tail);
    assert ([major * 32 + minor] + tail)[1..] == tail;
    PrependNothing(Read(AtArgument(major, width), tail));
  }

  function ArgumentWidth(value: nat): nat {
    if value < 256 then 1 else if value < 65536 then 2 else 4
  }

  function ArgumentMinor(value: nat): nat {
    if value < 256 then 24 else if value < 65536 then 25 else 26
  }

  lemma HeadShape(major: Major, value: nat)
    requires 24 <= value < TWO_32
    ensures var arg := Head(major, value)[1..];
            && Head(major, value) == [major * 32 + ArgumentMinor(value)] + arg
            && |arg| == ArgumentWidth(value)
            && BigEndian(arg) == value
  {
    var arg := Head(major, value)[1..];
    if value < 256 {
      assert arg == [value];
    } else if value < 65536 {
      assert arg == [value / 256, value % 256];
    } else {
      FourBytes(value, arg);
    }
    BigEndianBound(arg);
  }

  lemma FourBytes(value: nat, arg: Str)
    requires 65536 <= value < TWO_32
    requires arg == [value / 0x100_0000, value / 65536 % 256, value / 256 % 256, value % 256]
    ensures BigEndian(arg) == value
  {
    hide BigEndian;
    BigEndianBound(arg);
    Digits(value);
  }

  lemma Digits(value: nat)
    ensures value ==
            value / 0x100_0000 * 0x100_0000 + value / 65536 % 256 * 65536 + value / 256 % 256 * 256 + value % 256
  {
    assert value / 256 / 256 == value / 65536 && value / 65536 / 256 == value / 0x100_0000;
  }

  lemma HeadSplitRead(major: Major, minor: nat, width: nat, arg: Str, head: Str, rest: Str)
    requires minor < 32 && head == [major * 32 + minor] + arg && |arg| == width
    requires (minor == 24 && width == 1) || (minor == 25 && width == 2) || (minor == 26 && width == 4)
    ensures BigEndian(arg) < TWO_32
    ensures Read(AtType, head + rest) == AfterHead(major, BigEndian(arg), rest)
  {
    hide Read, AfterHead;
    assert head + rest == [major * 32 + minor] + (arg + rest);
    ReadType(major, minor, width, arg + rest);
    ReadArgument(major, width, arg, rest);
  }

  /** Every head of the 32-bit overload is read as its type and value. */
  lemma HeadRead(major: Major, value: nat, rest: Str)
    requires value < TWO_32
    ensures Read(AtType, Head(major, value) + rest) == AfterHead(major, value, rest)
  {
    hide Read, Head, AfterHead, BigEndian;
    if value < 24 {
      HeadOneByte(major, value, rest);
    } else {
      HeadShape(major, value);
      var head := Head(major, value);
      HeadSplitRead(major, ArgumentMinor(value), ArgumentWidth(value), head[1..], head, rest);
    }
  }

  /** One turn of the loop. */
  lemma ReadTurn(c: Cursor, s: Str, t: Turn)
    requires CursorOk(c) && TurnOf(c, s) == t && t.Go? && (t.next != c || t.consumed != 0)
    ensures t.consumed <= |s| && CursorOk(t.next) && Read(c, s) == Prepend(t.events, Read(t.next, s[t.consumed..]))
  {
    hide TurnOf;
  }

  lemma PayloadRead(text: bool, s: Str, rest: Str)
    requires |s| < TWO_31
    ensures Read(AtPayload(text, |s|), s + rest) ==
            Prepend([if text then OnString(s) else OnBytes(s)], Read(AtType, rest))
  {
    hide Read, TurnOf, Prepend;
    PayloadTurn(text, |s|, s + rest);
    assert (s + rest)[..|s|] == s;
    ReadTurn(AtPayload(text, |s|), s + rest, Go(AtType, |s|, [if text then OnString(s) else OnBytes(s)]));
    assert (s + rest)[|s|..] == rest;
  }

  lemma StringRead(text: bool, s: Str, rest: Str)
    requires |s| < TWO_31
    ensures Read(AtType, Head(if text then 3 else 2, |s|) + (s + rest)) ==
            Prepend([if text then OnString(s) else OnBytes(s)], Read(AtType, rest))
  {
    hide Read, Head;
    HeadRead(if text then 3 else 2, |s|, s + rest);
    PayloadRead(text, s, rest);
    PrependNothing(Read(AtPayload(text, |s|), s + rest));
  }

  lemma NumberRead(major: Major, u: nat, rest: Str)
    requires u < TWO_32 && major != 2 && major != 3 && !(major == 1 && u == TWO_31)
    ensures Read(AtType, Head(major, u) + rest) == Prepend([ArgumentEvent(major, u)], Read(AtType, rest))
  {
    hide Read, Head;
    HeadRead(major, u, rest);
  }

  lemma NumberTokenRead(t: Token, major: Major, u: nat, rest: Str)
    requires TokenOk(t) && !t.Long?
    requires u < TWO_32 && major != 2 && major != 3 && !(major == 1 && u == TWO_31)
    requires TokenHead(t) == Head(major, u) && TokenPayload(t) == [] && Heard(t) == ArgumentEvent(major, u)
    ensures Read(AtType, Encode(t) + rest) == Prepend([Heard(t)], Read(AtType, rest))
  {
    hide Read, Head, TokenHead, Heard, ArgumentEvent;
    assert Encode(t) == Head(major, u);
    NumberRead(major, u, rest);
  }

  lemma StringTokenRead(t: Token, text: bool, s: Str, rest: Str)
    requires TokenOk(t) && t == (if text then Text(s) else Bytes(s))
    ensures Read(AtType, Encode(t) + rest) == Prepend([Heard(t)], Read(AtType, rest))
  {
    hide Read, Head;
    assert Encode(t) + rest == Head(if text then 3 else 2, |s|) + (s + rest);
    StringRead(text, s, rest);
  }

  /** One written token is one event, whatever follows it. */
  lemma TokenRead(t: Token, rest: Str)
    requires TokenOk(t) && !t.Long?
    ensures Read(AtType, Encode(t) + rest) == Prepend([Heard(t)], Read(AtType, rest))
  {
    hide Read, Head, Encode;
    match t
    case Int(i) => NumberTokenRead(t, if i < 0 then 1 else 0, if i < 0 then -i else i, rest);
    case UInt(u) => NumberTokenRead(t, 0, u, rest);
    case Bytes(s) => StringTokenRead(t, false, s, rest);
    case Text(s) => StringTokenRead(t, true, s, rest);
    case Array(n) =>
      ConversionsUndo(n, 0);
      NumberTokenRead(t, 4, ToU32(n), rest);
    case Map(n) =>
      ConversionsUndo(n, 0);
      NumberTokenRead(t, 5, ToU32(n), rest);
    case Tag(u) => NumberTokenRead(t, 6, u, rest);
    case Special(n) =>
      ConversionsUndo(n, 0);
      NumberTokenRead(t, 7, ToU32(n), rest);
  }

  /** Any sequence of tokens, whatever follows it, is heard as exactly its events, in order. */
  lemma {:induction false} TokensRead(ts: seq<Token>, rest: Str)
    requires TokensOk(ts) && forall t | t in ts :: !t.Long?
    ensures Read(AtType, EncodeAll(ts) + rest) == Prepend(HeardAll(ts), Read(AtType, rest))
  {
    if ts == [] {
      assert EncodeAll(ts) + rest == rest;
      PrependNothing(Read(AtType, rest));
    } else {
      var tail := EncodeAll(ts[1..]) + rest;
      assert EncodeAll(ts) + rest == Encode(ts[0]) + tail;
      TokenRead(ts[0], tail);
      TokensRead(ts[1..], rest);
      PrependPrepend([Heard(ts[0])], HeardAll(ts[1..]), Read(AtType, rest));
    }
  }

  /** A written stream is read completely, between items, without an error. */
  lemma StreamRoundTrip(ts: seq<Token>)
    requires TokensOk(ts) && forall t | t in ts :: !t.Long?
    ensures Read(AtType, EncodeAll(ts)) == Stopped(AtType, [], HeardAll(ts))
  {
    TokensRead(ts, []);
    assert EncodeAll(ts) + [] == EncodeAll(ts);
    assert HeardAll(ts) + [] == HeardAll(ts);
  }

  lemma LongShort(u: nat)
    requires 256 <= u < 65536
    ensures Read(AtType, Encode(Long(u))) == Stopped(AtArgument(0, 2), [u / 256], [])
  {
    hide Read, Encode;
    LongShortHead(u);
    HighByteRead(0, [u / 256]);
  }

  lemma HighByteRead(major: Major, s: Str)
    requires |s| < 2
    ensures Read(AtType, [major * 32 + 25] + s) == Stopped(AtArgument(major, 2), s, [])
  {
    hide Read;
    ReadType(major, 25, 2, s);
    ReadWaiting(major, s);
  }

  lemma LongShortHead(u: nat)
    requires 256 <= u < 65536
    ensures Encode(Long(u)) == [0 * 32 + 25] + [u / 256]
  {
  }

  lemma ReadWaiting(major: Major, s: Str)
    requires |s| < 2
    ensures Read(AtArgument(major, 2), s) == Stopped(AtArgument(major, 2), s, [])
  {
  }

  lemma EndRead(events: seq<Event>)
    ensures Prepend(events, Read(AtType, [])) == Stopped(AtType, [], events)
  {
    assert events + [] == events;
  }

  lemma LongFour(u: nat)
    requires u < 256 || 65536 <= u < TWO_32
    ensures Read(AtType, Encode(Long(u))) == Stopped(AtType, [], [OnInteger(ToI32(u))])
  {
    hide Read, Head;
    assert Encode(Long(u)) == Head(0, u) && Head(0, u) + [] == Head(0, u);
    NumberRead(0, u, []);
    EndRead([OnInteger(ToI32(u))]);
  }

  lemma LongEight(u: nat)
    requires TWO_32 <= u < TWO_64
    ensures Read(AtType, Encode(Long(u))) == Stopped(AtType, [], [])
  {
    hide Read, Encode;
    LongEightHead(u);
    LongArgumentRead(0, Encode(Long(u))[1..]);
  }

  lemma LongEightHead(u: nat)
    requires TWO_32 <= u < TWO_64
    ensures |Encode(Long(u))| == 9
    ensures Encode(Long(u)) == [0 * 32 + 27] + Encode(Long(u))[1..]
  {
  }

  /** An eight-byte argument of a number is taken in and forgotten. */
  lemma LongArgumentRead(major: Major, arg: Str)
    requires major == 0 && |arg| == 8
    ensures Read(AtType, [major * 32 + 27] + arg) == Stopped(AtType, [], [])
  {
    hide Read;
    ReadType(major, 27, 8, arg);
    LongArgumentTaken(major, arg);
  }

  lemma LongArgumentTaken(major: Major, arg: Str)
    requires major == 0 && |arg| == 8
    ensures Read(AtArgument(major, 8), arg) == Stopped(AtType, [], [])
  {
    hide Read, TurnOf, Prepend;
    LongTurns(major, arg);
    ReadTurn(AtArgument(major, 8), arg, Go(AtType, 8, []));
    assert arg[8..] == [];
    EndRead([]);
  }

  /** The `unsigned long long` overload is heard as the number exactly for the values below 256 and
      those from 65536 up to 2^31: a two-byte head lacks its low byte, a value of 2^31 or more
      turns negative, and an eight-byte argument makes no event. */
  lemma LongHeard(u: nat)
    requires u < TWO_64
    ensures Read(AtType, Encode(Long(u))) == Stopped(AtType, [], [OnInteger(u)]) <==>
            u < 256 || 65536 <= u < TWO_31
  {
    hide Read, Encode;
    if 256 <= u < 65536 {
      LongShort(u);
    } else if u < TWO_32 {
      LongFour(u);
    } else {
      LongEight(u);
    }
  }

  // ---- Integers as section 2.1 of RFC 7049 writes them ----

  /** A negative number is written as major type 1 with argument -1 - i. */
  function RfcInt(i: int): (s: Str)
    requires -TWO_31 <= i < TWO_31
  {
    if i < 0 then Head(1, -1 - i) else Head(0, i)
  }

  lemma {:induction false} HeadInjective(major: Major, u: nat, v: nat)
    requires u < TWO_32 && v < TWO_32 && Head(major, u) == Head(major, v)
    ensures u == v
  {
    hide Head, BigEndian;
    if u < 24 || v < 24 {
      ShortHead(major, u);
      ShortHead(major, v);
    } else {
      HeadShape(major, u);
      HeadShape(major, v);
    }
  }

  lemma ShortHead(major: Major, u: nat)
    requires u < TWO_32
    ensures u < 24 ==> Head(major, u) == [major * 32 + u]
    ensures u >= 24 ==> |Head(major, u)| >= 2
  {
  }

  /** The writer conforms on the numbers that are not negative, and on no others. */
  lemma ConformsExactly(i: int)
    requires TokenOk(Int(i))
    ensures Encode(Int(i)) == RfcInt(i) <==> i >= 0
  {
    hide Head;
    if i < 0 {
      assert Encode(Int(i)) == Head(1, -i);
      if Head(1, -i) == Head(1, -1 - i) {
        HeadInjective(1, -i, -1 - i);
      }
    }
  }

  /** The reader hears every conforming negative number as one more than it is. */
  lemma RfcIntHeard(i: int, rest: Str)
    requires -TWO_31 <= i < TWO_31
    ensures Read(AtType, RfcInt(i) + rest) ==
            Prepend([OnInteger(if i < 0 then i + 1 else i)], Read(AtType, rest))
  {
    hide Read, Head;
    if i < 0 {
      NumberRead(1, -1 - i, rest);
    } else {
      NumberRead(0, i, rest);
    }
  }

  // ---- Normalisation ----

  /** Writing an event again; an error is not written. INT_MIN, which the signed overload cannot
      negate, goes through the unsigned one. */
  function TokenOf(e: Event): Token
    requires e != OnError
  {
    match e
    case OnInteger(i) => if i == -TWO_31 then UInt(TWO_31) else Int(i)
    case OnBytes(s) => Bytes(s)
    case OnString(s) => Text(s)
    case OnArray(n) => Array(n)
    case OnMap(n) => Map(n)
    case OnTag(u) => Tag(u)
    case OnSpecial(n) => Special(n)
  }

  function Rewrite(es: seq<Event>): seq<Token> {
    if es == [] then []
    else (if es[0] == OnError then [] else [TokenOf(es[0])]) + Rewrite(es[1..])
  }

  function Heeded(es: seq<Event>): seq<Event> {
    if es == [] then []
    else (if es[0] == OnError then [] else [es[0]]) + Heeded(es[1..])
  }

  predicate Writable(e: Event) {
    e == OnError || TokenOk(TokenOf(e))
  }

  lemma {:induction false} RewriteHeard(es: seq<Event>)
    requires forall e | e in es :: Writable(e)
    ensures TokensOk(Rewrite(es)) && forall t | t in Rewrite(es) :: !t.Long?
    ensures HeardAll(Rewrite(es)) == Heeded(es)
  {
    if es == [] {
    } else {
      assert Writable(es[0]);
      RewriteHeard(es[1..]);
      if es[0] != OnError {
        var ts := Rewrite(es);
        assert ts[0] == TokenOf(es[0]) && ts[1..] == Rewrite(es[1..]);
        assert Heard(ts[0]) == es[0];
      } else {
        assert Rewrite(es) == Rewrite(es[1..]) && Heeded(es) == Heeded(es[1..]);
      }
    }
  }

  /** The bytes an event takes when written again. */
  function Cost(e: Event): nat
    requires Writable(e)
  {
    if e == OnError then 0 else |Encode(TokenOf(e))|
  }

  lemma {:induction false} RewriteAppend(a: seq<Event>, b: seq<Event>)
    ensures Rewrite(a + b) == Rewrite(a) + Rewrite(b)
  {
    if a == [] {
      assert a + b == b;
    } else {
      assert (a + b)[1..] == a[1..] + b;
      RewriteAppend(a[1..], b);
    }
  }

  lemma {:induction false} EncodeAllAppend(a: seq<Token>, b: seq<Token>)
    requires TokensOk(a) && TokensOk(b)
    ensures TokensOk(a + b) && EncodeAll(a + b) == EncodeAll(a) + EncodeAll(b)
  {
    if a == [] {
      assert a + b == b;
    } else {
      assert (a + b)[1..] == a[1..] + b;
      EncodeAllAppend(a[1..], b);
    }
  }

  /** The bytes of the item at hand that the reader has already taken. */
  function Credit(c: Cursor): nat
    requires CursorOk(c)
  {
    match c
    case AtType => 0
    case AtArgument(_, _) => 1
    case AtPayload(_, length) => |Head(2, length)|
  }

  /** A number takes no more to write than the argument it came from. */
  lemma IntegerCost(i: int, u: nat)
    requires u < TWO_32 && (i == ToI32(u) || (i == -ToI32(u) && u != TWO_31))
    ensures Writable(OnInteger(i)) && Cost(OnInteger(i)) <= HeadSize(u)
  {
    hide Head;
  }

  lemma ArgumentCost(major: Major, u: nat)
    requires u < TWO_32 && major != 2 && major != 3 && !(major == 1 && u == TWO_31)
    ensures Writable(ArgumentEvent(major, u)) && Cost(ArgumentEvent(major, u)) <= HeadSize(u)
  {
    hide Head;
    ConversionsUndo(0, u);
    if major == 0 {
      IntegerCost(ToI32(u), u);
    } else if major == 1 {
      IntegerCost(-ToI32(u), u);
    }
  }

  /** An argument event takes no more to write than the head it came in. */
  lemma ArgumentPays(major: Major, u: nat, size: nat)
    requires u < TWO_32 && HeadSize(u) <= size
    ensures var t := ArgumentTurn(major, u, 0);
            t.Go? ==> forall e | e in t.events :: Writable(e) ==> Cost(e) <= size
    ensures var t := ArgumentTurn(major, u, 0);
            t.Go? ==>
              CursorOk(t.next) && Credit(t.next) <= size && |t.events| <= 1 && (t.events != [] ==> t.next == AtType)
  {
    hide Head, HeadSize, ArgumentEvent, Cost, Writable;
    if major != 2 && major != 3 && !(major == 1 && u == TWO_31) {
      ArgumentCost(major, u);
    }
  }

  /** A turn emits nothing that takes more to write than it has taken to read. */
  lemma TurnPays(c: Cursor, input: Str)
    requires CursorOk(c) && TurnOf(c, input).Go?
    ensures var t := TurnOf(c, input);
            |t.events| <= 1 &&
            Credit(t.next) <= t.consumed + Credit(c) &&
            forall e | e in t.events :: Writable(e) ==> Cost(e) + Credit(t.next) <= t.consumed + Credit(c)
  {
    hide Encode, Head;
    match c
    case AtType =>
      if input[0] % 32 < 24 {
        ArgumentPays(input[0] / 32, input[0] % 32, 1);
      }
    case AtArgument(major, width) =>
      if width != 8 {
        BigEndianBound(input[..width]);
        ArgumentPays(major, BigEndian(input[..width]), 1 + width);
      }
    case AtPayload(text, length) =>
      PayloadPays(text, input[..length]);
  }

  lemma PayloadPays(text: bool, s: Str)
    requires |s| < TWO_31
    ensures Cost(if text then OnString(s) else OnBytes(s)) == |Head(2, |s|)| + |s|
  {
  }

  lemma {:induction false} ReadPays(c: Cursor, input: Str)
    requires CursorOk(c)
    requires forall e | e in Read(c, input).events :: Writable(e)
    ensures TokensOk(Rewrite(Read(c, input).events))
    ensures |EncodeAll(Rewrite(Read(c, input).events))| <= |input| + Credit(c)
    decreases |input|, if c.AtType? then 0 else 1
  {
    hide Writable, Encode, Credit;
    var t := TurnOf(c, input);
    RewriteHeard(Read(c, input).events);
    if t.Go? {
      TurnPays(c, input);
      RewriteHeard(t.events);
      OneEventCost(t.events);
      if !(t.next == c && t.consumed == 0) {
        var more := Read(t.next, input[t.consumed..]).events;
        assert Read(c, input).events == t.events + more;
        ReadPays(t.next, input[t.consumed..]);
        RewriteAppend(t.events, more);
        EncodeAllAppend(Rewrite(t.events), Rewrite(more));
      }
    }
  }

  lemma OneEventCost(es: seq<Event>)
    requires |es| <= 1 && forall e | e in es :: Writable(e)
    ensures TokensOk(Rewrite(es))
    ensures |EncodeAll(Rewrite(es))| == if es == [] then 0 else Cost(es[0])
  {
    RewriteHeard(es);
    if es == [] {
    } else {
      assert es[0] in es && es[1..] == [];
      if es[0] != OnError {
        assert Rewrite(es) == [TokenOf(es[0])];
        assert EncodeAll(Rewrite(es)) == Encode(TokenOf(es[0])) + EncodeAll(Rewrite(es)[1..]);
      }
    }
  }

  /** Normalisation: writing again what was heard, on any input at all, takes no more bytes
      than the input had, and is heard as the same events without the errors. */
  lemma Normalise(input: Str)
    ensures var events := Read(AtType, input).events;
            && TokensOk(Rewrite(events))
            && |EncodeAll(Rewrite(events))| <= |input|
            && Read(AtType, EncodeAll(Rewrite(events))) == Stopped(AtType, [], Heeded(events))
  {
    EventsWritable(AtType, input);
    var events := Read(AtType, input).events;
    ReadPays(AtType, input);
    RewriteHeard(events);
    StreamRoundTrip(Rewrite(events));
  }

  lemma ArgumentWritable(major: Major, u: nat, consumed: nat)
    requires u < TWO_32 && ArgumentTurn(major, u, consumed).Go?
    ensures forall e | e in ArgumentTurn(major, u, consumed).events :: Writable(e)
  {
  }

  lemma TurnWritable(c: Cursor, input: Str)
    requires CursorOk(c) && TurnOf(c, input).Go?
    ensures forall e | e in TurnOf(c, input).events :: Writable(e)
  {
    hide ArgumentTurn, BigEndian;
    match c
    case AtType =>
      if input[0] % 32 < 24 {
        ArgumentWritable(input[0] / 32, input[0] % 32, 1);
      }
    case AtArgument(major, width) =>
      if width != 8 {
        BigEndianBound(input[..width]);
        ArgumentWritable(major, BigEndian(input[..width]), width);
      }
    case AtPayload(_, _) =>
  }

  /** The reader hears nothing that cannot be written. */
  lemma {:induction false} EventsWritable(c: Cursor, input: Str)
    requires CursorOk(c)
    ensures forall e | e in Read(c, input).events :: Writable(e)
    decreases |input|, if c.AtType? then 0 else 1
  {
    hide Writable;
    var t := TurnOf(c, input);
    if t.Go? {
      TurnWritable(c, input);
      if !(t.next == c && t.consumed == 0) {
        EventsWritable(t.next, input[t.consumed..]);
      }
    }
  }
}
