/** The wire format: what the writer emits for one call, and what the reader's state machine
    makes of any bytes. CBOR heads are those of section 2.1 of RFC 7049, except that a negative
    number -n is written as major type 1 with argument n. */
module CborFormat {
  import opened Strings

  const TWO_31: int := 0x8000_0000
  const TWO_32: int := 0x1_0000_0000
  const TWO_64: int := 0x1_0000_0000_0000_0000

  /** Conversion to `unsigned int`, to `int` and to `unsigned long long`. */
  function ToU32(i: int): (u: nat)
    ensures u < TWO_32
  {
    i % TWO_32
  }

  function ToI32(u: int): (i: int)
    ensures -TWO_31 <= i < TWO_31
  {
    var r := u % TWO_32;
    if r < TWO_31 then r else r - TWO_32
  }

  function ToU64(i: int): (u: nat)
    ensures u < TWO_64
  {
    i % TWO_64
  }

  // ---- Writing ----

  /** One call of the writer. Long is the `unsigned long long` overload. */
  datatype Token =
    | Int(int)
    | UInt(nat)
    | Long(nat)
    | Bytes(Str)
    | Text(Str)
    | Array(int)
    | Map(int)
    | Tag(nat)
    | Special(int)

  predicate TokenOk(t: Token) {
    match t
    case Int(i) => -TWO_31 < i < TWO_31
    case UInt(u) => u < TWO_32
    case Long(u) => u < TWO_64
    case Bytes(s) => |s| < TWO_31
    case Text(s) => |s| < TWO_31
    case Array(n) => -TWO_31 <= n < TWO_31
    case Map(n) => -TWO_31 <= n < TWO_31
    case Tag(u) => u < TWO_32
    case Special(n) => -TWO_31 <= n < TWO_31
  }

  type Major = m: nat | m < 8

  /** The bytes of a head. */
  function HeadSize(value: nat): nat {
    if value < 24 then 1 else if value < 256 then 2 else if value < 65536 then 3 else 5
  }

  /** `writeTypeAndValue(int, unsigned int)`. */
  function Head(major: Major, value: nat): (s: Str)
    requires value < TWO_32
    ensures |s| == HeadSize(value)
  {
    if value < 24 then [major * 32 + value]
    else if value < 256 then [major * 32 + 24, value]
    else if value < 65536 then [major * 32 + 25, value / 256, value % 256]
    else [major * 32 + 26, value / 0x100_0000, value / 65536 % 256, value / 256 % 256, value % 256]
  }

  /** `writeTypeAndValue(int, unsigned long long)`: the two-byte case puts the high byte only. */
  function Head64(major: Major, value: nat): (s: Str)
    requires value < TWO_64
    ensures 1 <= |s| <= 9
  {
    if 256 <= value < 65536 then [major * 32 + 25, value / 256]
    else if value < TWO_32 then Head(major, value)
    else [major * 32 + 27,
          value / 0x100_0000_0000_0000, value / 0x1_0000_0000_0000 % 256,
          value / 0x100_0000_0000 % 256, value / 0x1_0000_0000 % 256,
          value / 0x100_0000 % 256, value / 65536 % 256, value / 256 % 256, value % 256]
  }

  function TokenHead(t: Token): (s: Str)
    requires TokenOk(t)
  {
    match t
    case Int(i) => if i < 0 then Head(1, -i) else Head(0, i)
    case UInt(u) => Head(0, u)
    case Long(u) => Head64(0, u)
    case Bytes(s) => Head(2, |s|)
    case Text(s) => Head(3, |s|)
    case Array(n) => Head(4, ToU32(n))
    case Map(n) => Head(5, ToU32(n))
    case Tag(u) => Head(6, u)
    case Special(n) => Head(7, ToU32(n))
  }

  function TokenPayload(t: Token): (s: Str) {
    match t
    case Bytes(s) => s
    case Text(s) => s
    case _ => []
  }

  function Encode(t: Token): (s: Str)
    requires TokenOk(t)
  {
    TokenHead(t) + TokenPayload(t)
  }

  predicate TokensOk(ts: seq<Token>) {
    forall t | t in ts :: TokenOk(t)
  }

  function EncodeAll(ts: seq<Token>): (s: Str)
    requires TokensOk(ts)
  {
    if ts == [] then [] else Encode(ts[0]) + EncodeAll(ts[1..])
  }

  // ---- Reading ----

  datatype Event =
    | OnInteger(value: int)
    | OnBytes(data: Str)
    | OnString(str: Str)
    | OnArray(size: int)
    | OnMap(size: int)
    | OnTag(tag: nat)
    | OnSpecial(code: int)
    | OnError

  /** The reader's state: waiting for an initial byte, for the `width` bytes of an argument,
      or for `length` bytes of a byte or text string. */
  datatype Cursor =
    | AtType
    | AtArgument(major: nat, width: nat)
    | AtPayload(text: bool, length: nat)

  predicate CursorOk(c: Cursor) {
    match c
    case AtType => true
    case AtArgument(major, width) => major < 8 && width in {1, 2, 4, 8}
    case AtPayload(_, length) => length < TWO_31
  }

  /** One turn of the reader's loop. Crash stands for an allocation of negative size or the
      negation of INT_MIN. */
  datatype Turn =
    | Wait
    | Crash
    | Go(next: Cursor, consumed: nat, events: seq<Event>)

  function BigEndian(s: Str): (n: nat) {
    if s == [] then 0 else BigEndian(s[..|s| - 1]) * 256 + s[|s| - 1]
  }

  /** The event for a complete argument of a type without payload. */
  function ArgumentEvent(major: Major, u: nat): Event
    requires u < TWO_32
  {
    match major
    case 0 => OnInteger(ToI32(u))
    case 1 => OnInteger(-ToI32(u))
    case 4 => OnArray(ToI32(u))
    case 5 => OnMap(ToI32(u))
    case 6 => OnTag(u)
    case _ => OnSpecial(ToI32(u))
  }

  /** What follows a complete argument u, whether it was in the initial byte or after it. */
  function ArgumentTurn(major: Major, u: nat, consumed: nat): Turn
    requires u < TWO_32
  {
    if major == 2 || major == 3 then
      if u < TWO_31 then Go(AtPayload(major == 3, u), consumed, []) else Crash
    else if major == 1 && u == TWO_31 then Crash
    else Go(AtType, consumed, [ArgumentEvent(major, u)])
  }

  /** Eight-byte arguments are not implemented. */
  function LongTurn(major: Major): Turn {
    match major
    case 1 => Go(AtArgument(1, 8), 0, [])
    case 2 => Go(AtPayload(false, 123), 8, [])
    case 3 => Go(AtPayload(true, 123), 8, [])
    case 4 => Go(AtType, 0, [])
    case 5 => Go(AtType, 0, [])
    case _ => Go(AtType, 8, [])
  }

  /** The bytes of the argument that an initial byte announces; none below 24 and from 28 on. */
  function ArgumentBytes(minor: nat): nat {
    if minor == 24 then 1 else if minor == 25 then 2 else if minor == 26 then 4 else if minor == 27 then 8 else 0
  }

  function TypeTurn(b: byte): Turn {
    var major, minor := b / 32, b % 32;
    if minor < 24 then ArgumentTurn(major, minor, 1)
    else if minor == 24 then Go(AtArgument(major, 1), 1, [])
    else if minor == 25 then Go(AtArgument(major, 2), 1, [])
    else if minor == 26 then Go(AtArgument(major, 4), 1, [])
    else if minor == 27 then Go(AtArgument(major, 8), 1, [])
    else Go(AtType, 1, [OnError])
  }

  lemma {:induction false} BigEndianBound(s: Str)
    requires |s| <= 4
    ensures |s| == 1 ==> BigEndian(s) == s[0]
    ensures |s| == 2 ==> BigEndian(s) == s[0] as int * 256 + s[1] < 65536
    ensures |s| == 4 ==>
              BigEndian(s) == s[0] as int * 0x100_0000 + s[1] as int * 65536 + s[2] as int * 256 + s[3] < TWO_32
  {
    if |s| > 0 {
      BigEndianBound(s[..|s| - 1]);
      if |s| == 4 {
        var t := s[..3];
        assert BigEndian(t) == BigEndian(t[..2]) * 256 + t[2];
        BigEndianBound(t[..2]);
      }
    }
  }

  function TurnOf(c: Cursor, input: Str): (t: Turn)
    requires CursorOk(c)
    ensures t.Go? ==> CursorOk(t.next) && t.consumed <= |input|
    ensures t.Go? ==> t.consumed > 0 || t == Go(c, 0, []) || (t.next == AtType && c != AtType)
  {
    match c
    case AtType => if |input| < 1 then Wait else TypeTurn(input[0])
    case AtArgument(major, width) =>
      if |input| < width then Wait
      else if width == 8 then LongTurn(major)
      else
        BigEndianBound(input[..width]);
        ArgumentTurn(major, BigEndian(input[..width]), width)
    case AtPayload(text, length) =>
      if |input| < length then Wait
      else Go(AtType, length, [if text then OnString(input[..length]) else OnBytes(input[..length])])
  }

  lemma NumberTurn(major: Major, width: nat, s: Str)
    requires width in {1, 2, 4} && width <= |s|
    ensures BigEndian(s[..width]) < TWO_32
    ensures TurnOf(AtArgument(major, width), s) == ArgumentTurn(major, BigEndian(s[..width]), width)
  {
    hide BigEndian;
    BigEndianBound(s[..width]);
  }

  lemma LongTurns(major: Major, s: Str)
    ensures TurnOf(AtArgument(major, 8), s) == if |s| < 8 then Wait else LongTurn(major)
  {
    hide BigEndian;
  }

  lemma PayloadTurn(text: bool, length: nat, s: Str)
    requires length < TWO_31 && length <= |s|
    ensures TurnOf(AtPayload(text, length), s) ==
            Go(AtType, length, [if text then OnString(s[..length]) else OnBytes(s[..length])])
  {
  }

  /** How a run of the reader ends: out of input, never, or with undefined behaviour. */
  datatype Reading =
    | Stopped(cursor: Cursor, rest: Str, events: seq<Event>)
    | Looping(events: seq<Event>)
    | Crashed(events: seq<Event>)

  function Prepend(events: seq<Event>, r: Reading): Reading {
    match r
    case Stopped(cursor, rest, more) => Stopped(cursor, rest, events + more)
    case Looping(more) => Looping(events + more)
    case Crashed(more) => Crashed(events + more)
  }

  /** `CborReader::Run` from any state on any input. */
  function Read(c: Cursor, input: Str): (r: Reading)
    requires CursorOk(c)
    ensures r.Stopped? ==> CursorOk(r.cursor) && TurnOf(r.cursor, r.rest) == Wait
    decreases |input|, if c.AtType? then 0 else 1
  {
    match TurnOf(c, input)
    case Wait => Stopped(c, input, [])
    case Crash => Crashed([])
    case Go(next, consumed, events) =>
      if next == c && consumed == 0 then Looping(events)
      else
        Prepend(events, Read(next, input[consumed..]))
  }

  // ---- Reading in pieces ----

  lemma PrependPrepend(a: seq<Event>, b: seq<Event>, r: Reading)
    ensures Prepend(a, Prepend(b, r)) == Prepend(a + b, r)
  {
    assert a + (b + r.events) == a + b + r.events;
  }

  lemma PrependNothing(r: Reading)
    ensures Prepend([], r) == r
  {
    assert [] + r.events == r.events;
  }

  /** More input after it does not change what a turn does. */
  lemma TurnStable(c: Cursor, a: Str, b: Str)
    requires CursorOk(c) && TurnOf(c, a) != Wait
    ensures TurnOf(c, a + b) == TurnOf(c, a)
  {
    match c
    case AtType =>
    case AtArgument(_, width) => assert (a + b)[..width] == a[..width];
    case AtPayload(_, length) => assert (a + b)[..length] == a[..length];
  }

  /** Reading is resumable at any byte: stopping after any prefix and going on from the state
      reached there gives the events, and the end, of reading the whole. */
  lemma {:induction false} ReadAppend(c: Cursor, a: Str, b: Str)
    requires CursorOk(c)
    ensures Read(c, a + b) ==
            (var r := Read(c, a);
             if r.Stopped? then Prepend(r.events, Read(r.cursor, r.rest + b)) else r)
    decreases |a|, if c.AtType? then 0 else 1
  {
    var t := TurnOf(c, a);
    if t == Wait {
      PrependNothing(Read(c, a + b));
    } else {
      TurnStable(c, a, b);
      if t.Go? && !(t.next == c && t.consumed == 0) {
        assert (a + b)[t.consumed..] == a[t.consumed..] + b;
        ReadAppend(t.next, a[t.consumed..], b);
        var r := Read(t.next, a[t.consumed..]);
        if r.Stopped? {
          PrependPrepend(t.events, r.events, Read(r.cursor, r.rest + b));
        }
      }
    }
  }

  /** The events of a prefix of the input are a prefix of the events of the input. */
  lemma EventsMonotone(a: Str, b: Str)
    ensures Read(AtType, a).events <= Read(AtType, a + b).events
  {
    ReadAppend(AtType, a, b);
  }
}
