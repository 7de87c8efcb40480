/** Edge paths of the index tree and the 64-bit codes built from them by shifting. */
module PathCode {

  /** From the root; false is an edge to the left, true one to the right. */
  type Path = seq<bool>

  const MAX_DEPTH: nat := 63
  const TWO_64: nat := 0x1_0000_0000_0000_0000

  function Pow2(n: nat): (r: nat)
    ensures r > 0
  {
    if n == 0 then 1 else 2 * Pow2(n - 1)
  }

  lemma {:induction false} Pow2Add(a: nat, b: nat)
    ensures Pow2(a + b) == Pow2(a) * Pow2(b)
  {
    if a == 0 {
    } else {
      Pow2Add(a - 1, b);
      assert Pow2(a + b) == 2 * Pow2(a - 1 + b);
    }
  }

  lemma Pow2_64()
    ensures Pow2(64) == TWO_64
  {
    assert Pow2(4) == 16;
    Pow2Add(4, 4);
    Pow2Add(8, 8);
    Pow2Add(16, 16);
    Pow2Add(32, 32);
  }

  // ---- What the code computes ----

  /** `x << k` on `unsigned long long`: bits shifted past the top are lost. */
  function Shl(x: nat, k: nat): (r: nat)
  {
    (x * Pow2(k)) % TWO_64
  }

  function Bit(b: bool): nat {
    if b then 1 else 0
  }

  /** One edge: `_path << 1`, with the low bit set for a right turn. */
  function PushBit(path: nat, right: bool): (r: nat) {
    Shl(path, 1) + Bit(right)
  }

  /** The last statement of a completed traverse: `((_path << 1) | 1) << (63 - _pathLength)`. */
  function Seal(path: nat, length: int): (r: nat)
    requires 0 <= length <= MAX_DEPTH
  {
    Shl(PushBit(path, true), MAX_DEPTH - length)
  }

  /** `_path` after taking the edges of p from the root. */
  function Walked(p: Path): nat {
    if p == [] then 0 else PushBit(Walked(p[..|p| - 1]), p[|p| - 1])
  }

  /** The number stored for the node at p. */
  function Code(p: Path): nat
    requires |p| <= MAX_DEPTH
  {
    Seal(Walked(p), |p|)
  }

  // ---- What it means ----

  /** The bits of p, then a one, then zeros: h + 1 bits in all. */
  function Aligned(p: Path, h: nat): (r: nat)
    requires |p| <= h
    ensures 0 < r < Pow2(h + 1)
  {
    if p == [] then Pow2(h)
    else Bit(p[0]) * Pow2(h) + Aligned(p[1..], h - 1)
  }

  /** Left subtree, node, right subtree. */
  predicate InOrder(p: Path, q: Path) {
    if q == [] then p != [] && !p[0]
    else if p == [] then q[0]
    else if p[0] != q[0] then q[0]
    else InOrder(p[1..], q[1..])
  }

  /** p read as a binary number. */
  function Binary(p: Path): (r: nat)
    ensures r < Pow2(|p|)
  {
    if p == [] then 0
    else
      assert Pow2(|p|) == 2 * Pow2(|p| - 1);
      2 * Binary(p[..|p| - 1]) + Bit(p[|p| - 1])
  }

  lemma {:induction false} BinaryHead(p: Path)
    requires p != []
    ensures Binary(p) == Bit(p[0]) * Pow2(|p| - 1) + Binary(p[1..])
    decreases |p|
  {
    var n := |p| - 1;
    if n == 0 {
      assert p[..0] == [] && p[1..] == [];
    } else {
      BinaryHead(p[..n]);
      assert p[..n][1..] == p[1..][..n - 1];
      assert p[1..][n - 1] == p[n];
      assert Pow2(n) == 2 * Pow2(n - 1);
    }
  }

  lemma {:induction false} AlignedBinary(p: Path, h: nat)
    requires |p| <= h
    ensures Aligned(p, h) == (2 * Binary(p) + 1) * Pow2(h - |p|)
    decreases |p|
  {
    if p == [] {
    } else {
      hide Binary;
      AlignedBinary(p[1..], h - 1);
      BinaryHead(p);
      Pow2Add(|p|, h - |p|);
      Distribute(p[0], Pow2(|p| - 1), Binary(p[1..]), Pow2(h - |p|));
    }
  }

  lemma Distribute(b: bool, q: nat, x: nat, r: nat)
    ensures (2 * (Bit(b) * q + x) + 1) * r == Bit(b) * ((2 * q) * r) + (2 * x + 1) * r
  {
    if b {
      assert (2 * (q + x) + 1) * r == (2 * q) * r + (2 * x + 1) * r;
    }
  }

  lemma {:induction false} Pow2Monotone(a: nat, b: nat)
    requires a <= b
    ensures Pow2(a) <= Pow2(b)
  {
    if a == b {
    } else {
      Pow2Monotone(a, b - 1);
    }
  }

  /** Up to 64 edges the shifts of a traverse lose no bit. */
  lemma {:induction false} WalkedLosesNothing(p: Path)
    requires |p| <= 64
    ensures Walked(p) == Binary(p)
    decreases |p|
  {
    if p == [] {
    } else {
      var q := p[..|p| - 1];
      WalkedLosesNothing(q);
      Pow2Monotone(|p|, 64);
      Pow2_64();
      assert 2 * Binary(q) < Pow2(|p|);
      assert Pow2(1) == 2;
    }
  }

  lemma ShlExact(x: nat, k: nat)
    requires x * Pow2(k) < TWO_64
    ensures Shl(x, k) == x * Pow2(k)
  {
    var y := x * Pow2(k);
    assert 0 <= y;
  }

  lemma SealIsAligned(p: Path, h: nat)
    requires |p| <= h <= 63 && Pow2(h + 1) <= TWO_64
    ensures Shl(PushBit(Walked(p), true), h - |p|) == Aligned(p, h)
  {
    AlignedBinary(p, h);
    var q := p + [true];
    assert q[..|p|] == p;
    WalkedLosesNothing(q);
    var x := PushBit(Walked(p), true);
    assert x == Binary(q) == 2 * Binary(p) + 1;
    ShlExact(x, h - |p|);
  }

  /** The code is the path's bits, a one, and zeros, left-aligned in 64 bits: nothing overflows. */
  lemma CodeIsAligned(p: Path)
    requires |p| <= MAX_DEPTH
    ensures Code(p) == Aligned(p, MAX_DEPTH)
    ensures 0 < Code(p) < TWO_64
  {
    Pow2_64();
    SealIsAligned(p, MAX_DEPTH);
  }

  lemma {:induction false} AlignedMonotone(p: Path, q: Path, h: nat)
    requires |p| <= h && |q| <= h
    ensures Aligned(p, h) < Aligned(q, h) <==> InOrder(p, q)
    decreases |p|
  {
    if p != [] && q != [] && p[0] == q[0] {
      AlignedMonotone(p[1..], q[1..], h - 1);
    }
  }

  /** Codes compare, as unsigned 64-bit numbers, exactly as the nodes lie in the tree in order. */
  lemma CodeMonotone(p: Path, q: Path)
    requires |p| <= MAX_DEPTH && |q| <= MAX_DEPTH
    ensures Code(p) < Code(q) <==> InOrder(p, q)
  {
    CodeIsAligned(p);
    CodeIsAligned(q);
    AlignedMonotone(p, q, MAX_DEPTH);
  }

  lemma {:induction false} AlignedNear(p: Path, r: Path, h: nat)
    requires |p| + |r| <= h && r != []
    ensures Aligned(p, h) - Pow2(h - |p|) < Aligned(p + r, h) < Aligned(p, h) + Pow2(h - |p|)
    decreases |p|
  {
    if p == [] {
      assert p + r == r;
    } else {
      AlignedNear(p[1..], r, h - 1);
      assert (p + r)[1..] == p[1..] + r;
    }
  }

  /** Everything below a node at depth d has a code within 2^(63-d) of its own. */
  lemma SubtreeInterval(p: Path, q: Path)
    requires p <= q && p != q && |q| <= MAX_DEPTH
    ensures Code(p) - Pow2(MAX_DEPTH - |p|) < Code(q) < Code(p) + Pow2(MAX_DEPTH - |p|)
  {
    hide Code, Aligned, Pow2;
    CodeIsAligned(p);
    CodeIsAligned(q);
    assert q == p + q[|p|..];
    AlignedNear(p, q[|p|..], MAX_DEPTH);
  }

  // ---- Codes and paths are in bijection ----

  /** The path whose aligned code on h + 1 bits is c. */
  function PathOf(c: nat, h: nat): (p: Path)
    requires 0 < c < Pow2(h + 1)
    ensures |p| <= h
    decreases h
  {
    if c == Pow2(h) then []
    else if c > Pow2(h) then [true] + PathOf(c - Pow2(h), h - 1)
    else [false] + PathOf(c, h - 1)
  }

  lemma {:induction false} PathOfAligned(p: Path, h: nat)
    requires |p| <= h
    ensures PathOf(Aligned(p, h), h) == p
    decreases h
  {
    if p == [] {
    } else {
      PathOfAligned(p[1..], h - 1);
      assert p == [p[0]] + p[1..];
    }
  }

  lemma {:induction false} AlignedPathOf(c: nat, h: nat)
    requires 0 < c < Pow2(h + 1)
    ensures Aligned(PathOf(c, h), h) == c
    decreases h
  {
    if c > Pow2(h) {
      AlignedPathOf(c - Pow2(h), h - 1);
    } else if c < Pow2(h) {
      AlignedPathOf(c, h - 1);
    }
  }

  /** Every path of at most 63 edges is recovered from its code ... */
  lemma CodeInjective(p: Path)
    requires |p| <= MAX_DEPTH
    ensures 0 < Code(p) < Pow2(64) && PathOf(Code(p), MAX_DEPTH) == p
  {
    CodeIsAligned(p);
    Pow2_64();
    PathOfAligned(p, MAX_DEPTH);
  }

  /** ... and every nonzero 64-bit number is the code of one such path. */
  lemma CodeSurjective(c: nat)
    requires 0 < c < TWO_64
    ensures c < Pow2(64) && |PathOf(c, MAX_DEPTH)| <= MAX_DEPTH && Code(PathOf(c, MAX_DEPTH)) == c
  {
    Pow2_64();
    AlignedPathOf(c, MAX_DEPTH);
    CodeIsAligned(PathOf(c, MAX_DEPTH));
  }

  /** The codes of the first three nodes: 2^63, 2^62 to the left of it, and 3 * 2^62 to the right. */
  lemma FirstCodes()
    ensures Code([]) == 0x8000_0000_0000_0000
    ensures Code([false]) == 0x4000_0000_0000_0000 && Code([true]) == 0xC000_0000_0000_0000
  {
    CodeIsAligned([]);
    CodeIsAligned([false]);
    CodeIsAligned([true]);
    Pow2_64();
    assert Pow2(64) == 2 * Pow2(63) && Pow2(63) == 2 * Pow2(62);
  }

  // ---- A register that is shifted on after it has been sealed ----

  function Zeros(k: nat): (z: seq<bool>)
    ensures |z| == k && forall i | 0 <= i < k :: !z[i]
  {
    if k == 0 then [] else Zeros(k - 1) + [false]
  }

  /** The last n bits. */
  function Tail(y: seq<bool>, n: nat): (z: seq<bool>)
    requires n <= |y|
    ensures |z| == n
  {
    y[|y| - n..]
  }

  /** The bits that sealing a register leaves in it. */
  function SealedBits(y: seq<bool>, length: nat): (z: seq<bool>)
    requires length <= MAX_DEPTH
    ensures |z| == |y| + 64 - length
  {
    y + [true] + Zeros(MAX_DEPTH - length)
  }

  lemma ModPlus(x: nat, q: nat)
    ensures (TWO_64 * q + x) % TWO_64 == x % TWO_64
  {
  }

  lemma Split(q: nat, r: nat, b: nat)
    ensures (TWO_64 * q + r) * b == TWO_64 * (q * b) + r * b
  {
  }

  lemma ModTimes(a: nat, b: nat)
    ensures a % TWO_64 * b % TWO_64 == a * b % TWO_64
  {
    var q, r := a / TWO_64, a % TWO_64;
    assert a == TWO_64 * q + r;
    Split(q, r, b);
    ModPlus(r * b, q * b);
  }

  lemma ModRest(x: nat, q: nat)
    requires x < TWO_64
    ensures (TWO_64 * q + x) % TWO_64 == x
  {
  }

  lemma Halves(x: nat) returns (q: nat, r: nat)
    ensures 2 * x == TWO_64 * q + 2 * r && 2 * r + 1 < TWO_64
  {
    q, r := x / 0x8000_0000_0000_0000, x % 0x8000_0000_0000_0000;
  }

  lemma EvenPlus(x: nat, b: bool)
    ensures 2 * x % TWO_64 + Bit(b) == (2 * x + Bit(b)) % TWO_64
  {
    var q, r := Halves(x);
    ModRest(2 * r, q);
    ModRest(2 * r + Bit(b), q);
  }

  lemma ShlOne(x: nat)
    ensures Shl(x, 1) == x * 2 % TWO_64
  {
    assert Pow2(1) == 2;
  }

  /** However many edges are taken, the register is their number modulo 2^64. */
  lemma {:induction false} WalkedModulo(p: Path)
    ensures Walked(p) == Binary(p) % TWO_64
    decreases |p|
  {
    if p == [] {
    } else {
      var q := p[..|p| - 1];
      WalkedModulo(q);
      ShlOne(Walked(q));
      ModTimes(Binary(q), 2);
      hide Shl;
      EvenPlus(Binary(q), p[|p| - 1]);
    }
  }

  lemma {:induction false} BinaryAppend(a: Path, b: Path)
    ensures Binary(a + b) == Binary(a) * Pow2(|b|) + Binary(b)
    decreases |b|
  {
    if b == [] {
      assert a + b == a;
    } else {
      var c := b[..|b| - 1];
      assert (a + b)[..|a + b| - 1] == a + c && (a + b)[|a + b| - 1] == b[|b| - 1];
      BinaryAppend(a, c);
      Double(Binary(a), Pow2(|c|), Binary(c));
    }
  }

  lemma Double(x: nat, k: nat, y: nat)
    ensures 2 * (x * k + y) == x * (2 * k) + 2 * y
  {
  }

  lemma {:induction false} BinaryZeros(k: nat)
    ensures Binary(Zeros(k)) == 0
  {
    if k == 0 {
    } else {
      BinaryZeros(k - 1);
      assert Zeros(k)[..k - 1] == Zeros(k - 1);
    }
  }

  lemma ShiftIsZeros(y: Path, k: nat)
    ensures Shl(Walked(y), k) == Walked(y + Zeros(k))
  {
    hide Walked, Binary, Zeros, Pow2;
    WalkedModulo(y);
    WalkedModulo(y + Zeros(k));
    BinaryAppend(y, Zeros(k));
    BinaryZeros(k);
    ModTimes(Binary(y), Pow2(k));
  }

  lemma SealIsBits(y: Path, length: nat)
    requires length <= MAX_DEPTH
    ensures Seal(Walked(y), length) == Walked(SealedBits(y, length))
  {
    hide Shl, PushBit, Zeros;
    var z := y + [true];
    assert z[..|z| - 1] == y && z[|z| - 1];
    ShiftIsZeros(z, MAX_DEPTH - length);
  }

  /** Only the last 64 bits are in the register. */
  lemma LastBitsCount(a: Path, b: Path)
    requires |b| == 64
    ensures Walked(a + b) == Walked(b)
  {
    hide Pow2, Binary, Walked;
    WalkedModulo(a + b);
    WalkedModulo(b);
    BinaryAppend(a, b);
    Pow2_64();
    ModPlus(Binary(b), Binary(a));
  }

  lemma SealedTail(y: Path, n: nat)
    requires n <= MAX_DEPTH && n <= |y|
    ensures SealedBits(y, n) == y[..|y| - n] + SealedBits(Tail(y, n), n)
  {
    hide Zeros;
    assert y == y[..|y| - n] + Tail(y, n);
  }

  /** A register with any bits in it, sealed for a node at depth n, is the code of the path that its
      last n bits spell, whatever the node's own path is. */
  lemma SealIsCodeOfTail(y: Path, n: nat)
    requires n <= MAX_DEPTH && n <= |y|
    ensures Seal(Walked(y), n) == Code(Tail(y, n))
  {
    hide Walked, Seal, SealedBits;
    SealIsBits(y, n);
    SealIsBits(Tail(y, n), n);
    SealedTail(y, n);
    LastBitsCount(y[..|y| - n], SealedBits(Tail(y, n), n));
  }

  /** So a traverse that was sealed at p and takes the edges q spells the path it is on exactly when p
      is the last bits of its own code. */
  lemma SpellsItsPath(p: Path, q: Path)
    requires |p| <= MAX_DEPTH
    ensures Tail(SealedBits(p, |p|) + q, |p| + |q|) == p + q <==> Tail(SealedBits(p, |p|), |p|) == p
  {
    hide SealedBits;
    assert Tail(SealedBits(p, |p|) + q, |p| + |q|) == Tail(SealedBits(p, |p|), |p|) + q;
    if Tail(SealedBits(p, |p|), |p|) + q == p + q {
      assert (Tail(SealedBits(p, |p|), |p|) + q)[..|p|] == (p + q)[..|p|];
    }
  }

  /** Down to depth 31 that is when p has only turned left. */
  lemma ShallowSpells(p: Path)
    requires |p| <= 31
    ensures Tail(SealedBits(p, |p|), |p|) == Zeros(|p|)
  {
  }
}
