/** Unsigned decimal printing: `sprintf("%llu")` as the server stores codes in a row. */
module Decimal {
  import opened Strings

  /** "%llu". */
  function Print(n: nat): (s: Str)
    ensures s != []
    decreases n
  {
    if n < 10 then [48 + n] else Print(n / 10) + [48 + n % 10]
  }

  ghost predicate AllDigits(s: Str) {
    forall i | 0 <= i < |s| :: 48 <= s[i] <= 57
  }

  /** The number a string of digits denotes: how a numeric column orders the cells. */
  function Value(s: Str): int {
    if s == [] then 0 else Value(s[..|s| - 1]) * 10 + (s[|s| - 1] as int - 48)
  }

  /** Printing loses nothing. */
  lemma {:induction false} PrintValue(n: nat)
    ensures Value(Print(n)) == n && AllDigits(Print(n))
    decreases n
  {
    var s := Print(n);
    if n < 10 {
      assert s[..0] == [];
      assert Value(s) == Value(s[..0]) * 10 + (s[0] - 48);
    } else {
      PrintValue(n / 10);
      assert s[..|s| - 1] == Print(n / 10);
    }
  }

  function Pow10(k: nat): (r: nat)
    ensures r > 0
  {
    if k == 0 then 1 else 10 * Pow10(k - 1)
  }

  lemma {:induction false} TimesMonotone(d: nat, a: nat, b: nat)
    requires a <= b
    ensures d * a <= d * b
  {
    if a == b {
    } else {
      TimesMonotone(d, a, b - 1);
    }
  }

  lemma QuotientOf(d: nat, q: nat, r: nat, q': nat, r': nat)
    requires r < d && r' < d && d * q + r == d * q' + r'
    ensures q <= q'
  {
    if q' < q {
      TimesMonotone(d, q' + 1, q);
    }
  }

  lemma DivideOnce(n: nat, d: nat, q: nat, r: nat)
    requires r < d && n == d * q + r
    ensures n / d == q
  {
    QuotientOf(d, q, r, n / d, n % d);
    QuotientOf(d, n / d, n % d, q, r);
  }

  lemma DivideTwice(n: nat, k: nat)
    requires k > 0
    ensures n / 10 / k == n / (10 * k)
  {
    var m, r := n / 10, n % 10;
    var q, s := m / k, m % k;
    assert n == 10 * m + r && m == k * q + s;
    Regroup(k, q, s, r);
    DivideOnce(n, 10 * k, q, 10 * s + r);
  }

  lemma Regroup(k: nat, q: nat, s: nat, r: nat)
    ensures 10 * (k * q + s) + r == (10 * k) * q + (10 * s + r)
  {
  }

  /** The text is the decimal digits of the number, the most significant first and no zero in front. */
  lemma {:induction false} PrintDigits(n: nat, i: nat)
    requires i < |Print(n)|
    ensures Print(n)[|Print(n)| - 1 - i] == 48 + n / Pow10(i) % 10
    ensures n > 0 ==> Print(n)[0] != 48
    decreases n
  {
    if n < 10 {
    } else {
      PrintDigits(n / 10, if i == 0 then 0 else i - 1);
      if i > 0 {
        DivideTwice(n, Pow10(i - 1));
      }
    }
  }

  lemma PrintNext(n: nat, digit: nat)
    requires n > 0 && digit < 10
    ensures Print(10 * n + digit) == Print(n) + [48 + digit]
  {
    LastDigit(n, digit);
    PrintStep(10 * n + digit, n, digit);
  }

  lemma LastDigit(n: nat, digit: nat)
    requires digit < 10
    ensures (10 * n + digit) / 10 == n && (10 * n + digit) % 10 == digit
  {
  }

  lemma PrintStep(m: nat, n: nat, digit: nat)
    requires m >= 10 && m / 10 == n && m % 10 == digit
    ensures Print(m) == Print(n) + [48 + digit]
  {
  }

  /** The code of a root as it is stored: "9223372036854775808". */
  lemma RootPrinted()
    ensures Print(0x8000_0000_0000_0000) ==
            [57, 50, 50, 51, 51, 55, 50, 48, 51, 54, 56, 53, 52, 55, 55, 53, 56, 48, 56]
  {
    assert Print(9) == [57];
    hide Print;
    PrintNext(9, 2);
    PrintNext(92, 2);
    PrintNext(922, 3);
    PrintNext(9223, 3);
    PrintNext(92233, 7);
    PrintNext(922337, 2);
    PrintNext(9223372, 0);
    PrintNext(92233720, 3);
    PrintNext(922337203, 6);
    PrintNext(9223372036, 8);
    PrintNext(92233720368, 5);
    PrintNext(922337203685, 4);
    PrintNext(9223372036854, 7);
    PrintNext(92233720368547, 7);
    PrintNext(922337203685477, 5);
    PrintNext(9223372036854775, 8);
    PrintNext(92233720368547758, 0);
    PrintNext(922337203685477580, 8);
  }

  lemma {:induction false} PrintLength(n: nat, k: nat)
    requires 0 < k && n < Pow10(k)
    ensures |Print(n)| <= k
    decreases k
  {
    if n < 10 {
    } else {
      assert k > 1 && n / 10 < Pow10(k - 1);
      PrintLength(n / 10, k - 1);
    }
  }

  /** Any 64-bit code fits, with its terminator, in the 25-byte buffer of `formatPath`. */
  lemma CodeFitsBuffer(n: nat)
    requires n < 0x1_0000_0000_0000_0000
    ensures |Print(n)| + 1 <= 25
  {
    assert Pow10(5) == 100000;
    assert Pow10(10) == 100000 * Pow10(5);
    assert Pow10(15) == 100000 * Pow10(10);
    assert Pow10(20) == 100000 * Pow10(15);
    PrintLength(n, 20);
  }
}
