/** Messages that do not fit the sender's buffer: what is left of them in it, and what the other
    side hears of that. */
module Truncation {
  import opened Strings
  import opened CborFormat
  import opened CborRoundTrip
  import opened CborWriting
  import opened Messages
  import opened Grammar
  import opened Wire

  /** What a buffer of a capacity holds of a serialized message. */
  function Sent(id: nat, m: Message, capacity: nat): Str
    requires InRange(id, m)
  {
    WrapperTokensOk(id, m);
    Written([], WrapperTokens(id, m), capacity)
  }

  /** It is the whole message exactly when the buffer is large enough. */
  lemma SentWhole(id: nat, m: Message, capacity: nat)
    requires InRange(id, m)
    ensures Sent(id, m, capacity) == Serialized(id, m) <==> |Serialized(id, m)| <= capacity
  {
    hide EncodeAll, Written, WrapperTokens, InRange;
    WrapperTokensOk(id, m);
    WrittenWhole([], WrapperTokens(id, m), capacity);
    assert [] + Serialized(id, m) == Serialized(id, m);
  }

  // ---- What is left in a full buffer ----

  /** Writes that are dropped leave what is there; the others only add to it. */
  lemma {:induction false} PutAllExtends(contents: Str, chunks: seq<Str>, capacity: nat)
    requires |contents| <= capacity
    ensures contents <= PutAll(contents, chunks, capacity) && |PutAll(contents, chunks, capacity)| <= capacity
    decreases |chunks|
  {
    if chunks == [] {
    } else {
      PutAllExtends(contents, chunks[..|chunks| - 1], capacity);
    }
  }

  lemma SinglesStep(contents: Str, s: Str, capacity: nat)
    requires s != []
    ensures PutAll(contents, Singles(s), capacity) ==
            Put(PutAll(contents, Singles(s[..|s| - 1]), capacity), [s[|s| - 1]], capacity)
  {
    hide Put;
    var c := Singles(s);
    assert c[..|c| - 1] == Singles(s[..|s| - 1]);
  }

  lemma NoSingles(contents: Str, capacity: nat)
    ensures PutAll(contents, Singles([]), capacity) == contents + []
  {
  }

  /** A head that does not fit is cut where the buffer ends. */
  lemma {:induction false} SinglesCut(contents: Str, s: Str, capacity: nat)
    requires |contents| <= capacity
    ensures PutAll(contents, Singles(s), capacity) ==
            contents + (if |contents| + |s| <= capacity then s else s[..capacity - |contents|])
    decreases |s|
  {
    hide PutAll, Singles;
    if s == [] {
      NoSingles(contents, capacity);
    } else {
      var n, room := |s| - 1, capacity - |contents|;
      SinglesCut(contents, s[..n], capacity);
      SinglesStep(contents, s, capacity);
      if n < room {
        assert contents + s[..n] + [s[n]] == contents + s;
      } else if n > room {
        assert s[..n][..room] == s[..room];
      }
    }
  }

  /** The beginning of a token: part of its head, or the head and too few bytes of payload. */
  predicate Partial(t: Token, tail: Str)
    requires TokenOk(t)
  {
    var head := TokenHead(t);
    if |tail| < |head| then tail == head[..|tail|]
    else (t.Bytes? || t.Text?) && tail[..|head|] == head && |tail| < |Encode(t)|
  }

  /** After a token that does not fit there is room for no more than a part of it. */
  lemma TokenCut(contents: Str, t: Token, more: seq<Str>, capacity: nat)
    requires TokenOk(t) && |contents| <= capacity < |contents| + |Encode(t)|
    ensures var r := PutAll(contents, Chunks(t) + more, capacity);
            contents <= r && Partial(t, r[|contents|..])
  {
    hide PutAll, TokenHead, Singles;
    var head := TokenHead(t);
    var payload := if t.Bytes? || t.Text? then [TokenPayload(t)] else [];
    assert Chunks(t) + more == Singles(head) + (payload + more);
    PutAllAppend(contents, Singles(head), payload + more, capacity);
    SinglesCut(contents, head, capacity);
    var first := PutAll(contents, Singles(head), capacity);
    PutAllExtends(first, payload + more, capacity);
    var r := PutAll(first, payload + more, capacity);
    assert contents <= first <= r;
    if |contents| + |head| <= capacity {
      assert r[|contents|..][..|head|] == first[|contents|..] == head;
    } else {
      assert |first| == capacity;
      assert r == first;
    }
  }

  /** What is left of tokens that do not all fit: all before one of them, and a part of that one. */
  lemma {:induction false} TokensCut(contents: Str, ts: seq<Token>, capacity: nat) returns (k: nat, tail: Str)
    requires TokensOk(ts) && |contents| <= capacity < |contents| + |EncodeAll(ts)|
    ensures k < |ts| && TokensOk(ts[..k]) && TokenOk(ts[k]) && Partial(ts[k], tail)
    ensures Written(contents, ts, capacity) == contents + EncodeAll(ts[..k]) + tail
    decreases ts
  {
    hide Encode, Chunks, Partial, PutAll;
    var t, rest := ts[0], ts[1..];
    if |contents| + |Encode(t)| <= capacity {
      var next := contents + Encode(t);
      ConcatChunks(t);
      PutAllFits(contents, Chunks(t), capacity);
      PutAllAppend(contents, Chunks(t), ChunksOf(rest), capacity);
      var j, x := TokensCut(next, rest, capacity);
      k, tail := j + 1, x;
      assert ts[..k][0] == t && ts[..k][1..] == rest[..j];
      assert contents + EncodeAll(ts[..k]) + tail == next + EncodeAll(rest[..j]) + x;
    } else {
      TokenCut(contents, t, ChunksOf(rest), capacity);
      var r := Written(contents, ts, capacity);
      k, tail := 0, r[|contents|..];
      assert ts[..0] == [] && EncodeAll(ts[..0]) == [];
      assert r == contents + tail;
    }
  }

  // ---- What is heard of it ----

  /** The reader waits for more and has heard nothing. */
  predicate Silent(r: Reading) {
    r.Stopped? && r.events == []
  }

  lemma ShortArgument(major: Major, width: nat, s: Str)
    requires width in {1, 2, 4, 8} && |s| < width
    ensures Silent(Read(AtArgument(major, width), s))
  {
  }

  lemma StartedHead(major: Major, minor: nat, width: nat, s: Str)
    requires width == ArgumentBytes(minor) != 0 && |s| < width
    ensures Silent(Read(AtType, [major * 32 + minor] + s))
  {
    hide Read;
    ReadType(major, minor, width, s);
    ShortArgument(major, width, s);
  }

  lemma NothingRead()
    ensures Silent(Read(AtType, []))
  {
  }

  /** A head that breaks off. */
  lemma HeadCut(major: Major, value: nat, n: nat)
    requires value < TWO_32 && n < |Head(major, value)|
    ensures Silent(Read(AtType, Head(major, value)[..n]))
  {
    hide Read, BigEndian, Silent, Head;
    var head := Head(major, value);
    if n == 0 {
      NothingRead();
      assert head[..0] == [];
    } else {
      HeadShape(major, value);
      assert head[..n] == [major * 32 + ArgumentMinor(value)] + head[1..][..n - 1];
      StartedHead(major, ArgumentMinor(value), ArgumentWidth(value), head[1..][..n - 1]);
    }
  }

  lemma LongCut(value: nat, n: nat)
    requires value < TWO_64 && n < |Head64(0, value)|
    ensures Silent(Read(AtType, Head64(0, value)[..n]))
  {
    hide Read, Silent, Head;
    var head := Head64(0, value);
    if n == 0 {
      NothingRead();
      assert head[..0] == [];
    } else if 256 <= value < 65536 {
      assert head[..n] == [0 * 32 + 25] + [];
      StartedHead(0, 25, 2, []);
    } else if value < TWO_32 {
      HeadCut(0, value, n);
    } else {
      assert head[..n] == [0 * 32 + 27] + head[1..][..n - 1];
      StartedHead(0, 27, 8, head[1..][..n - 1]);
    }
  }

  lemma ShortPayload(text: bool, length: nat, s: Str)
    requires |s| < length < TWO_31
    ensures Silent(Read(AtPayload(text, length), s))
  {
  }

  /** A payload that breaks off. */
  lemma PayloadCut(text: bool, length: nat, s: Str)
    requires |s| < length < TWO_31
    ensures Silent(Read(AtType, Head(if text then 3 else 2, length) + s))
  {
    hide Read, Head;
    HeadRead(if text then 3 else 2, length, s);
    ShortPayload(text, length, s);
  }

  lemma PartialIsSilent(t: Token, tail: Str)
    requires TokenOk(t) && Partial(t, tail)
    ensures Silent(Read(AtType, tail))
  {
    hide Read, Silent, Head, Head64;
    var head := TokenHead(t);
    if |tail| >= |head| {
      assert tail == head + tail[|head|..];
      PayloadCut(t.Text?, |TokenPayload(t)|, tail[|head|..]);
    } else {
      match t
      case Int(i) => HeadCut(if i < 0 then 1 else 0, if i < 0 then -i else i, |tail|);
      case UInt(u) => HeadCut(0, u, |tail|);
      case Long(u) => LongCut(u, |tail|);
      case Bytes(s) => HeadCut(2, |s|, |tail|);
      case Text(s) => HeadCut(3, |s|, |tail|);
      case Array(n) => HeadCut(4, ToU32(n), |tail|);
      case Map(n) => HeadCut(5, ToU32(n), |tail|);
      case Tag(u) => HeadCut(6, u, |tail|);
      case Special(n) => HeadCut(7, ToU32(n), |tail|);
    }
  }

  /** What is heard of tokens that did not all fit: all before one of them, and nothing after. */
  lemma CutHeard(ts: seq<Token>, capacity: nat) returns (k: nat)
    requires TokensOk(ts) && capacity < |EncodeAll(ts)|
    requires ts != [] && Plain(ts[..|ts| - 1])
    ensures k < |ts| && Plain(ts[..k])
    ensures Read(AtType, Written([], ts, capacity)).Stopped?
    ensures Read(AtType, Written([], ts, capacity)).events == HeardAll(ts[..k])
  {
    hide Read, Written, HeardAll, EncodeAll, Partial;
    var tail;
    k, tail := TokensCut([], ts, capacity);
    assert ts[..k] == ts[..|ts| - 1][..k];
    PartialIsSilent(ts[k], tail);
    assert [] + EncodeAll(ts[..k]) == EncodeAll(ts[..k]);
    TokensRead(ts[..k], tail);
    assert HeardAll(ts[..k]) + [] == HeardAll(ts[..k]);
  }

  // ---- What is dispatched of it ----

  lemma {:induction false} HeardPrefix(ts: seq<Token>, k: nat)
    requires Plain(ts) && k <= |ts|
    ensures Plain(ts[..k]) && HeardAll(ts[..k]) == HeardAll(ts)[..k]
  {
    if k == 0 {
    } else {
      assert ts[..k][1..] == ts[1..][..k - 1] && ts[..k][0] == ts[0];
      HeardPrefix(ts[1..], k - 1);
    }
  }

  /** Events on which nothing is called have no beginning on which anything is. */
  lemma QuietPrefix(es: seq<Event>, k: nat)
    requires k <= |es| && Calls(Init, es) == []
    ensures Calls(Init, es[..k]) == []
  {
    hide Calls;
    assert es == es[..k] + es[k..];
    ParserAppend(Init, es[..k], es[k..]);
  }

  /** A message that breaks off is not dispatched. */
  lemma BrokenItem(item: Item, k: nat)
    requires WellFormed(item) && k < |ItemEvents(item)|
    ensures Calls(Init, ItemEvents(item)[..k]) == []
  {
    hide React, Pending, Leads, BeforeEnd, ItemEvents, WellFormed, Calls;
    var (q, e) := BeforeEnd(item);
    BeforeEndReacts(item);
    PendingLeads(q);
    SoundStep(q, e);
    assert ItemEvents(item)[..k] == Pending(q)[..k];
    QuietLeads(q);
    QuietPrefix(Pending(q), k);
  }

  lemma QuietLeads(q: Progress)
    requires Leads(Init, Pending(q), q)
    ensures Calls(Init, Pending(q)) == []
  {
  }

  lemma BrokenMessage(id: nat, m: Message, k: nat)
    requires InRange(id, m) && !m.GetRequest? && k < |ItemEvents(ItemOf(id, m))|
    ensures Calls(Init, ItemEvents(ItemOf(id, m))[..k]) == []
  {
    hide ItemEvents, ItemOf, Calls, Runaway, InRange, WellFormed;
    ItemMeansMessage(id, m);
    if Transmissible(m) {
      BrokenItem(ItemOf(id, m), k);
    } else {
      EmptyMapStalls(id, m);
      QuietPrefix(ItemEvents(ItemOf(id, m)), k);
    }
  }

  /** The events of all tokens of a message but a trailing key. */
  lemma MessageTokensHeard(id: nat, m: Message)
    requires InRange(id, m)
    ensures var ts := WrapperTokens(id, m);
            && ts != [] && Plain(ts[..|ts| - 1])
            && (m.GetRequest? ==> HeardAll(ts[..|ts| - 1]) == Pending(GetPk(ToI32(id), m.database, m.table)))
            && (!m.GetRequest? ==> Plain(ts) && HeardAll(ts) == ItemEvents(ItemOf(id, m)))
  {
    hide HeardAll, WrapperTokens, WrapperHead, WrapperEvents, FixedTokens, FixedEvents, Read;
    hide Pending, InRange, Entries, EntryTokens, ItemEvents, ItemOf;
    var ts := WrapperTokens(id, m);
    WrapperTokensOk(id, m);
    TokensSplit(id, m);
    IdInRange(id, m);
    HeadHeard(id, m);
    if m.GetRequest? {
      FixedHeard(id, m);
      HeardAppend(WrapperHead(id, m), FixedTokens(m));
      assert ts[..|ts| - 1] == WrapperHead(id, m) + FixedTokens(m);
      GetPending(id, m);
    } else {
      MessageHeard(id, m);
      StreamRoundTrip(ts);
      HeadThere(id, m);
      PlainPrefix(ts);
    }
  }

  lemma HeadThere(id: nat, m: Message)
    ensures WrapperTokens(id, m) != []
  {
  }

  lemma PlainPrefix(ts: seq<Token>)
    requires Plain(ts) && ts != []
    ensures Plain(ts[..|ts| - 1])
  {
  }

  /** A message that does not fit is cut, and the other side reads what is left to its end and
      dispatches nothing. */
  lemma CutMessage(id: nat, m: Message, capacity: nat)
    requires InRange(id, m) && capacity < |Serialized(id, m)|
    ensures Read(AtType, Sent(id, m, capacity)).Stopped?
    ensures Delivered(Sent(id, m, capacity)) == []
  {
    hide Read, Written, HeardAll, EncodeAll, WrapperTokens, InRange, ItemEvents, ItemOf, Calls, Pending, Plain;
    var ts := WrapperTokens(id, m);
    WrapperTokensOk(id, m);
    MessageTokensHeard(id, m);
    var k := CutHeard(ts, capacity);
    if m.GetRequest? {
      var p := GetPk(ToI32(id), m.database, m.table);
      HeardPrefix(ts[..|ts| - 1], k);
      assert ts[..|ts| - 1][..k] == ts[..k];
      PendingLeads(p);
      QuietLeads(p);
      QuietPrefix(Pending(p), k);
    } else {
      HeardPrefix(ts, k);
      BrokenMessage(id, m, k);
    }
  }

  /** What the other side dispatches of a message: itself if it is transmissible, a `GetRequest` with
      another key or nothing if the key is too large, and nothing of an empty row or result. */
  function Arrival(id: nat, m: Message): seq<Call> {
    if m.GetRequest? then
      if 256 <= m.pk < 65536 || TWO_32 <= m.pk then []
      else [Dispatch(id, GetRequest(m.database, m.table, ToU64(ToI32(m.pk))))]
    else if Transmissible(m) then [Dispatch(id, m)]
    else []
  }

  lemma WholeArrival(id: nat, m: Message)
    requires InRange(id, m)
    ensures Delivered(Serialized(id, m)) == Arrival(id, m)
    ensures Arrival(id, m) == [Dispatch(id, m)] <==> Transmissible(m)
    ensures Read(AtType, Serialized(id, m)).Stopped?
  {
    hide Read, Serialized, ItemEvents, Meaning, Calls, ItemOf, InRange, Encode;
    if m.GetRequest? {
      GetDelivered(id, m);
      GetHeard(id, m);
      PkInRange(id, m);
      KeyStops(m.pk);
    } else {
      MessageHeard(id, m);
      WireRoundTrip(id, m);
      if !Transmissible(m) {
        ItemMeansMessage(id, m);
        EmptyMapStalls(id, m);
      }
    }
    WireRoundTrip(id, m);
  }

  lemma KeyStops(pk: nat)
    requires pk < TWO_64
    ensures Read(AtType, Encode(Long(pk))).Stopped?
  {
    hide Read, Encode;
    if 256 <= pk < 65536 {
      LongShort(pk);
    } else if pk < TWO_32 {
      LongFour(pk);
    } else {
      LongEight(pk);
    }
  }

  /** Any message through a buffer of any capacity: the other side reads what it gets to the end;
      it dispatches the message as itself if and only if it is transmissible and fits the buffer,
      and nothing at all of one that does not fit. */
  lemma SentArrival(id: nat, m: Message, capacity: nat)
    requires InRange(id, m)
    ensures Read(AtType, Sent(id, m, capacity)).Stopped?
    ensures Delivered(Sent(id, m, capacity)) == if |Serialized(id, m)| <= capacity then Arrival(id, m) else []
    ensures Delivered(Sent(id, m, capacity)) == [Dispatch(id, m)] <==>
            Transmissible(m) && |Serialized(id, m)| <= capacity
  {
    hide Read, Serialized, Sent, Delivered, InRange, Arrival;
    WholeArrival(id, m);
    SentWhole(id, m, capacity);
    if capacity < |Serialized(id, m)| {
      CutMessage(id, m, capacity);
    }
  }
}
