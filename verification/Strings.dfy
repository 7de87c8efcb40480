/** Byte strings as `std::string` sees them: the comparison behind `compare` and
    `std::map`, the iteration order of a map, and the suffix test of the server. */
module Strings {

  type byte = x: int | 0 <= x < 256

  type Str = seq<byte>

  type Row = map<Str, Str>

  datatype Option<+T> = None | Some(value: T)

  /** Lexicographic order on unsigned bytes; a proper prefix comes first. */
  predicate Less(a: Str, b: Str) {
    if b == [] then false
    else if a == [] then true
    else if a[0] != b[0] then a[0] < b[0]
    else Less(a[1..], b[1..])
  }

  /** A strict total order: what the protocol needs of the client's comparison. */
  ghost predicate StrictTotalOrder(before: (Str, Str) -> bool) {
    && (forall a :: !before(a, a))
    && (forall a, b, c :: before(a, b) && before(b, c) ==> before(a, c))
    && (forall a, b :: a != b ==> before(a, b) || before(b, a))
  }

  lemma {:induction false} LessIrreflexive(a: Str)
    ensures !Less(a, a)
  {
    if a == [] {
    } else {
      LessIrreflexive(a[1..]);
    }
  }

  lemma {:induction false} LessTransitive(a: Str, b: Str, c: Str)
    requires Less(a, b) && Less(b, c)
    ensures Less(a, c)
  {
    if a != [] && a[0] == b[0] && b[0] == c[0] {
      LessTransitive(a[1..], b[1..], c[1..]);
    }
  }

  lemma {:induction false} LessTotal(a: Str, b: Str)
    requires a != b
    ensures Less(a, b) || Less(b, a)
  {
    if a != [] && b != [] && a[0] == b[0] {
      assert a == [a[0]] + a[1..] && b == [b[0]] + b[1..];
      LessTotal(a[1..], b[1..]);
    }
  }

  lemma LessIsStrictTotalOrder()
    ensures StrictTotalOrder(Less)
  {
    forall a ensures !Less(a, a) { LessIrreflexive(a); }
    forall a, b, c | Less(a, b) && Less(b, c) ensures Less(a, c) { LessTransitive(a, b, c); }
    forall a, b | a != b ensures Less(a, b) || Less(b, a) { LessTotal(a, b); }
  }

  /** The order is the lexicographic one: up to the first difference both agree, and there the first
      string has ended or has the smaller byte. */
  lemma {:induction false} LessIsLexicographic(a: Str, b: Str)
    ensures Less(a, b) <==>
            exists n :: 0 <= n <= |a| && n < |b| && a[..n] == b[..n] && (n == |a| || a[n] < b[n])
  {
    if b == [] {
    } else if a == [] {
      assert a[..0] == b[..0];
    } else if a[0] != b[0] {
      if a[0] < b[0] {
        assert a[..0] == b[..0];
      }
      forall n | 0 < n <= |a| && n < |b| ensures a[..n] != b[..n] {
        assert a[..n][0] != b[..n][0];
      }
    } else {
      LessIsLexicographic(a[1..], b[1..]);
      LexicographicTail(a, b);
    }
  }

  lemma LexicographicTail(a: Str, b: Str)
    requires a != [] && b != [] && a[0] == b[0]
    ensures (exists n :: 0 <= n <= |a| && n < |b| && a[..n] == b[..n] && (n == |a| || a[n] < b[n])) <==>
            (exists n :: 0 <= n <= |a[1..]| && n < |b[1..]| && a[1..][..n] == b[1..][..n] &&
                         (n == |a[1..]| || a[1..][n] < b[1..][n]))
  {
    if n :| 0 <= n <= |a| && n < |b| && a[..n] == b[..n] && (n == |a| || a[n] < b[n]) {
      assert a[1..][..n - 1] == a[..n][1..] && b[1..][..n - 1] == b[..n][1..];
    }
    if n :| 0 <= n <= |a[1..]| && n < |b[1..]| && a[1..][..n] == b[1..][..n] &&
            (n == |a[1..]| || a[1..][n] < b[1..][n]) {
      assert a[..n + 1] == [a[0]] + a[1..][..n] && b[..n + 1] == [b[0]] + b[1..][..n];
    }
  }

  // ---- Iteration order of std::map ----

  predicate IsLeast(k: Str, keys: set<Str>) {
    k in keys && forall x | x in keys :: x == k || Less(k, x)
  }

  lemma {:induction false} LeastExists(keys: set<Str>)
    requires keys != {}
    ensures exists k :: IsLeast(k, keys)
  {
    var any :| any in keys;
    if keys == {any} {
      assert IsLeast(any, keys);
    } else {
      var rest := keys - {any};
      assert keys == rest + {any};
      LeastExists(rest);
      var k :| IsLeast(k, rest);
      LessTotal(k, any);
      if Less(k, any) {
        assert IsLeast(k, keys);
      } else {
        forall x | x in keys && x != any ensures Less(any, x) {
          if x != k { LessTransitive(any, k, x); }
        }
        assert IsLeast(any, keys);
      }
    }
  }

  lemma LeastUnique(k: Str, k': Str, keys: set<Str>)
    requires IsLeast(k, keys) && IsLeast(k', keys)
    ensures k == k'
  {
    if k != k' {
      LessTransitive(k, k', k);
      LessIrreflexive(k);
    }
  }

  function Least(keys: set<Str>): (k: Str)
    requires keys != {}
    ensures IsLeast(k, keys)
  {
    LeastExists(keys);
    assert forall k, k' | IsLeast(k, keys) && IsLeast(k', keys) :: k == k' by {
      forall k, k' | IsLeast(k, keys) && IsLeast(k', keys) ensures k == k' { LeastUnique(k, k', keys); }
    }
    var k :| IsLeast(k, keys);
    k
  }

  lemma LeastFirst(k: Str, rest: seq<Str>, keys: set<Str>)
    requires IsLeast(k, keys)
    requires forall x :: x in rest <==> x in keys - {k}
    requires forall i, j | 0 <= i < j < |rest| :: Less(rest[i], rest[j])
    ensures forall x :: x in [k] + rest <==> x in keys
    ensures forall i, j | 0 <= i < j < |[k] + rest| :: Less(([k] + rest)[i], ([k] + rest)[j])
  {
    hide Less;
    assert forall i | 0 <= i < |rest| :: rest[i] in rest;
  }

  /** The keys in the order in which `std::map` iterates over them. */
  function SortedKeys(keys: set<Str>): (s: seq<Str>)
    ensures |s| == |keys|
    ensures forall k :: k in s <==> k in keys
    ensures forall i, j | 0 <= i < j < |s| :: Less(s[i], s[j])
    decreases |keys|
  {
    if keys == {} then []
    else
      var k := Least(keys);
      var rest := SortedKeys(keys - {k});
      LeastFirst(k, rest, keys);
      [k] + rest
  }

  /** The sorted list is the only one with these elements in this order. */
  lemma {:induction false} SortedKeysUnique(s: seq<Str>, keys: set<Str>)
    requires forall k :: k in s <==> k in keys
    requires forall i, j | 0 <= i < j < |s| :: Less(s[i], s[j])
    ensures s == SortedKeys(keys)
    decreases |s|
  {
    if s == [] {
      assert forall k :: k in keys <==> k in s;
      assert keys == {};
    } else {
      var k := s[0];
      assert k in s;
      LessIrreflexive(k);
      assert IsLeast(k, keys);
      LeastUnique(k, Least(keys), keys);
      assert s == [k] + s[1..];
      forall x ensures x in s[1..] <==> x in keys - {k} {
        assert x in s <==> x == k || x in s[1..];
        if x in s[1..] {
          var i :| 0 <= i < |s[1..]| && s[1..][i] == x;
          assert Less(s[0], s[i + 1]);
        }
      }
      SortedKeysUnique(s[1..], keys - {k});
    }
  }

  // ---- The suffix test ----

  /** `hasEnding`. */
  predicate HasEnding(full: Str, ending: Str) {
    |full| >= |ending| && full[|full| - |ending|..] == ending
  }

  /** "_ope" */
  const OPE_SUFFIX: Str := [95, 111, 112, 101]

  predicate IsOpe(field: Str) {
    HasEnding(field, OPE_SUFFIX)
  }

  lemma EndingIsSuffix(full: Str, ending: Str)
    ensures HasEnding(full, ending) <==> exists stem: Str :: full == stem + ending
  {
    if HasEnding(full, ending) {
      assert full == full[..|full| - |ending|] + ending;
    }
    if stem: Str :| full == stem + ending {
      assert full[|full| - |ending|..] == ending;
    }
  }

  /** A field holds a value to be ordered exactly when its name ends in these four bytes, "_ope". */
  lemma IsOpeExactly(field: Str)
    ensures IsOpe(field) <==> exists stem: Str :: field == stem + [95, 111, 112, 101]
  {
    EndingIsSuffix(field, [95, 111, 112, 101]);
  }

  ghost predicate IsFirstOpe(row: Row, field: Str) {
    && field in row && IsOpe(field)
    && forall f | f in row && IsOpe(f) :: f == field || Less(field, f)
  }

  ghost predicate IsLastOpe(row: Row, field: Str) {
    && field in row && IsOpe(field)
    && forall f | f in row && IsOpe(f) :: f == field || Less(f, field)
  }

  /** The first field, in iteration order, whose name ends in "_ope". */
  function FirstOpeIn(keys: seq<Str>): (r: Option<Str>) {
    if keys == [] then None
    else if IsOpe(keys[0]) then Some(keys[0])
    else FirstOpeIn(keys[1..])
  }

  function FirstOpe(row: Row): (r: Option<Str>) {
    FirstOpeIn(SortedKeys(row.Keys))
  }

  /** The last such field, or the empty name when there is none. */
  function LastOpeIn(keys: seq<Str>): (r: Str) {
    if keys == [] then []
    else if IsOpe(keys[|keys| - 1]) then keys[|keys| - 1]
    else LastOpeIn(keys[..|keys| - 1])
  }

  function LastOpe(row: Row): (r: Str) {
    LastOpeIn(SortedKeys(row.Keys))
  }

  lemma {:induction false} FirstOpeInMeaning(keys: seq<Str>)
    requires forall i, j | 0 <= i < j < |keys| :: Less(keys[i], keys[j])
    ensures FirstOpeIn(keys) == None <==> forall f | f in keys :: !IsOpe(f)
    ensures FirstOpeIn(keys).Some? ==>
              var r := FirstOpeIn(keys).value;
              r in keys && IsOpe(r) && forall f | f in keys && IsOpe(f) :: f == r || Less(r, f)
  {
    if keys != [] && !IsOpe(keys[0]) {
      FirstOpeInMeaning(keys[1..]);
      assert keys == [keys[0]] + keys[1..];
    }
  }

  lemma {:induction false} LastOpeInMeaning(keys: seq<Str>)
    requires forall i, j | 0 <= i < j < |keys| :: Less(keys[i], keys[j])
    requires exists f :: f in keys && IsOpe(f)
    ensures var r := LastOpeIn(keys);
            r in keys && IsOpe(r) && forall f | f in keys && IsOpe(f) :: f == r || Less(f, r)
  {
    var n := |keys| - 1;
    if !IsOpe(keys[n]) {
      assert keys == keys[..n] + [keys[n]];
      LastOpeInMeaning(keys[..n]);
    }
  }

  /** The two loops of the server over a row find its least and its greatest "_ope" field. */
  lemma OpeFieldsMeaning(row: Row)
    ensures FirstOpe(row) == None <==> forall f | f in row :: !IsOpe(f)
    ensures FirstOpe(row).Some? ==> IsFirstOpe(row, FirstOpe(row).value) && IsLastOpe(row, LastOpe(row))
  {
    var keys := SortedKeys(row.Keys);
    FirstOpeInMeaning(keys);
    if FirstOpe(row).Some? {
      LastOpeInMeaning(keys);
    }
  }

  /** The value the server files for a row: that of its first "_ope" field. */
  function Filed(row: Row): (v: Str)
    ensures FirstOpe(row).Some? ==> IsFirstOpe(row, FirstOpe(row).value) && v == row[FirstOpe(row).value]
  {
    OpeFieldsMeaning(row);
    if FirstOpe(row).Some? then row[FirstOpe(row).value] else []
  }

  /** The value the shipped client compares: that of its last "_ope" field. */
  function Own(row: Row): (v: Str)
    ensures FirstOpe(row).Some? ==> IsLastOpe(row, LastOpe(row)) && v == row[LastOpe(row)]
    ensures FirstOpe(row).None? ==> v == []
  {
    OpeFieldsMeaning(row);
    if FirstOpe(row).Some? then row[LastOpe(row)] else []
  }

  lemma OpeFieldsAre(row: Row, first: Str, last: Str)
    requires IsFirstOpe(row, first) && IsLastOpe(row, last)
    ensures FirstOpe(row) == Some(first) && LastOpe(row) == last
    ensures Filed(row) == row[first] && Own(row) == row[last]
  {
    OpeFieldsMeaning(row);
    var a, b := FirstOpe(row).value, LastOpe(row);
    if a != first {
      LessTransitive(a, first, a);
      LessIrreflexive(a);
    }
    if b != last {
      LessTransitive(b, last, b);
      LessIrreflexive(b);
    }
  }

  /** They are the same field exactly when the row has one "_ope" field. */
  lemma OpeFieldsAgree(row: Row)
    requires FirstOpe(row).Some?
    ensures FirstOpe(row).value == LastOpe(row) <==>
            forall f, g | f in row && g in row && IsOpe(f) && IsOpe(g) :: f == g
  {
    OpeFieldsMeaning(row);
    var a, b := FirstOpe(row).value, LastOpe(row);
    if a == b {
      forall f | f in row && IsOpe(f) ensures f == a {
        if f != a {
          LessTransitive(a, f, a);
          LessIrreflexive(a);
        }
      }
    }
  }
}
