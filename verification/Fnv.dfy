/** FNV-1a (32 bit) over UTF-16 code units, and the ids built on it.
    The algorithm is FNV-1a, section 2 of draft-eastlake-fnv, with code units instead of octets. */
module Fnv {
  import opened Bits
  import opened Utf16

  const MODULUS := 0x1_0000_0000
  const OFFSET: Word := 0x811c9dc5
  const PRIME := 0x01000193
  /** The inverse of the prime modulo 2^32. */
  const INVERSE := 0x359c449b

  /** An unsigned 32-bit value. */
  type Word = w: int | 0 <= w < 0x1_0000_0000

  /** `hash ^= unit`, on 32 bits. */
  function Mix(h: Word, u: CodeUnit): Word {
    assert Xor(h, u) < 0x1_0000_0000 by {
      assert Pow2(8) == 256;
      assert Pow2(16) == 65536;
      assert Pow2(24) == 0x100_0000;
      assert Pow2(32) == 0x1_0000_0000;
      XorBound(h, u, 32);
    }
    Xor(h, u)
  }

  /** `Math.imul(h, PRIME) >>> 0`. */
  function Multiply(h: Word): Word { h * PRIME % MODULUS }

  function Round(h: Word, u: CodeUnit): Word { Multiply(Mix(h, u)) }

  /** The state after the units of `t`, from the state `h`. */
  function Fold(h: Word, t: Text): Word
    decreases t
  {
    if t == [] then h else Fold(Round(h, t[0]), t[1..])
  }

  function Hash(t: Text): Word { Fold(OFFSET, t) }

  // ---- Each round is a bijection ----

  lemma MultiplyInjective(x: Word, y: Word)
    requires Multiply(x) == Multiply(y)
    ensures x == y
  {
    var z, c := x - y, x * PRIME / MODULUS - y * PRIME / MODULUS;
    assert z * PRIME == c * MODULUS;
    assert PRIME * INVERSE == 1 + 3513497 * MODULUS;
    assert z == MODULUS * (INVERSE * c - 3513497 * z);
  }

  lemma RoundInjective(g: Word, h: Word, u: CodeUnit)
    requires Round(g, u) == Round(h, u)
    ensures g == h
  {
    MultiplyInjective(Mix(g, u), Mix(h, u));
    XorInvolutive(g, u);
    XorInvolutive(h, u);
  }

  lemma RoundDistinguishes(h: Word, u: CodeUnit, v: CodeUnit)
    requires Round(h, u) == Round(h, v)
    ensures u == v
  {
    MultiplyInjective(Mix(h, u), Mix(h, v));
    XorSymmetric(h, u);
    XorSymmetric(h, v);
    XorInvolutive(u, h);
    XorInvolutive(v, h);
  }

  // ---- Whole strings ----

  lemma {:induction false} FoldInjective(g: Word, h: Word, t: Text)
    ensures Fold(g, t) == Fold(h, t) <==> g == h
    decreases t
  {
    if t != [] {
      FoldInjective(Round(g, t[0]), Round(h, t[0]), t[1..]);
      if Round(g, t[0]) == Round(h, t[0]) { RoundInjective(g, h, t[0]); }
    }
  }

  lemma {:induction false} FoldConcat(h: Word, s: Text, t: Text)
    ensures Fold(h, s + t) == Fold(Fold(h, s), t)
    decreases s
  {
    if s == [] {
      assert s + t == t;
    } else {
      FoldConcat(Round(h, s[0]), s[1..], t);
      assert (s + t)[1..] == s[1..] + t;
    }
  }

  /** A common suffix neither makes nor breaks a collision. */
  lemma SuffixPreserves(s: Text, t: Text, suffix: Text)
    ensures Hash(s + suffix) == Hash(t + suffix) <==> Hash(s) == Hash(t)
  {
    FoldConcat(OFFSET, s, suffix);
    FoldConcat(OFFSET, t, suffix);
    FoldInjective(Hash(s), Hash(t), suffix);
  }

  /** Strings of equal length that differ in exactly one code unit never collide. */
  lemma OneUnitNeverCollides(s: Text, i: nat, u: CodeUnit)
    requires i < |s| && s[i] != u
    ensures Hash(s) != Hash(s[i := u])
  {
    var p, q := s[..i], s[i + 1..];
    assert s == p + ([s[i]] + q) && s[i := u] == p + ([u] + q);
    FoldConcat(OFFSET, p, [s[i]] + q);
    FoldConcat(OFFSET, p, [u] + q);
    var h := Fold(OFFSET, p);
    assert ([s[i]] + q)[1..] == q && ([u] + q)[1..] == q;
    if Hash(s) == Hash(s[i := u]) {
      FoldInjective(Round(h, s[i]), Round(h, u), q);
      RoundDistinguishes(h, s[i], u);
    }
  }

  // ---- Hexadecimal text ----

  /** `n.toString(16)`. */
  function ToHex(n: nat): (t: Text)
    ensures |t| > 0
  {
    if n < 16 then [HexDigit(n)] else ToHex(n / 16) + [HexDigit(n % 16)]
  }

  function PadStart(t: Text, n: nat): Text
    decreases n - |t|
  {
    if |t| >= n then t else PadStart(['0' as int] + t, n)
  }

  predicate IsHex(t: Text) { forall i | 0 <= i < |t| :: IsHexDigit(t[i]) }

  function HexValue(t: Text): int
    requires IsHex(t)
  {
    if t == [] then 0 else 16 * HexValue(t[..|t| - 1]) + HexDigitValue(t[|t| - 1])
  }

  function Pow16(n: nat): nat { if n == 0 then 1 else 16 * Pow16(n - 1) }

  lemma {:induction false} ToHexValue(n: nat, k: nat)
    requires n < Pow16(k) && k > 0
    ensures IsHex(ToHex(n)) && HexValue(ToHex(n)) == n && |ToHex(n)| <= k
    decreases k
  {
    var t := ToHex(n);
    if n < 16 {
      assert t[..0] == [] && HexValue(t[..0]) == 0;
    } else {
      assert k > 1 by { assert Pow16(1) == 16; }
      ToHexValue(n / 16, k - 1);
      assert t[..|t| - 1] == ToHex(n / 16);
    }
  }

  lemma {:induction false} ZeroHexValue(t: Text)
    requires IsHex(t)
    ensures HexValue(['0' as int] + t) == HexValue(t)
  {
    var z := ['0' as int] + t;
    if t == [] {
      assert z[..0] == [];
    } else {
      ZeroHexValue(t[..|t| - 1]);
      assert z[..|z| - 1] == ['0' as int] + t[..|t| - 1];
    }
  }

  lemma {:induction false} PadValue(t: Text, n: nat)
    requires |t| <= n && IsHex(t)
    ensures |PadStart(t, n)| == n && IsHex(PadStart(t, n)) && HexValue(PadStart(t, n)) == HexValue(t)
    decreases n - |t|
  {
    if |t| < n {
      ZeroHexValue(t);
      PadValue(['0' as int] + t, n);
    }
  }

  function Fnv1a(t: Text): Text { PadStart(ToHex(Hash(t)), 8) }

  /** Always eight lower-case hex digits, and they spell the hash. */
  lemma {:induction false} EightHexDigits(t: Text)
    ensures |Fnv1a(t)| == 8 && IsHex(Fnv1a(t)) && HexValue(Fnv1a(t)) == Hash(t)
  {
    assert Pow16(4) == 65536;
    assert Pow16(8) == 0x1_0000_0000;
    ToHexValue(Hash(t), 8);
    PadValue(ToHex(Hash(t)), 8);
  }

  lemma TextsEqualWhenHashesEqual(s: Text, t: Text)
    ensures Fnv1a(s) == Fnv1a(t) <==> Hash(s) == Hash(t)
  {
    EightHexDigits(s);
    EightHexDigits(t);
  }

  /** The loop of the original. */
  method ComputeFnv1a(input: Text) returns (r: Text)
    ensures r == Fnv1a(input)
  {
    var hash: Word := OFFSET;
    for i := 0 to |input|
      invariant Fold(hash, input[i..]) == Hash(input)
    {
      assert input[i..][0] == input[i] && input[i..][1..] == input[i + 1..];
      hash := Mix(hash, input[i]);
      hash := Multiply(hash);
    }
    r := PadStart(ToHex(hash), 8);
  }

  // ---- Published values ----

  /** Only the lowest eight bits of the offset basis meet an ASCII unit. */
  lemma {:induction false} MixFirst()
    ensures Xor(0x811c9dc5, 0x61) == 0x811c9da4
  {
    assert Xor(0x811c9dc5 / 128, 0) == 0x811c9dc5 / 128;
    assert Xor(0x811c9dc5 / 64, 1) == 2 * (0x811c9dc5 / 128);
    assert Xor(0x811c9dc5 / 32, 3) == 4 * (0x811c9dc5 / 128) + 1;
    assert Xor(0x811c9dc5 / 16, 6) == 2 * Xor(0x811c9dc5 / 32, 3);
    assert Xor(0x811c9dc5 / 8, 12) == 2 * Xor(0x811c9dc5 / 16, 6);
    assert Xor(0x811c9dc5 / 4, 24) == 2 * Xor(0x811c9dc5 / 8, 12) + 1;
    assert Xor(0x811c9dc5 / 2, 48) == 2 * Xor(0x811c9dc5 / 4, 24);
  }

  /** A hexadecimal text without a leading zero is the text of its value. */
  lemma {:induction false} HexOfValue(t: Text)
    requires |t| > 0 && IsHex(t) && t[0] != '0' as int
    ensures HexValue(t) > 0 && ToHex(HexValue(t)) == t
  {
    var front, u := t[..|t| - 1], t[|t| - 1];
    if |t| == 1 {
      assert front == [] && t == [u] && HexDigitValue(u) > 0;
    } else {
      HexOfValue(front);
      var n, d := HexValue(front), HexDigitValue(u);
      assert (16 * n + d) / 16 == n && (16 * n + d) % 16 == d;
      assert t == front + [u];
    }
  }

  lemma {:induction false} EightDigits(t: Text)
    requires |t| == 8 && IsHex(t)
    ensures
      var v := (i: int) requires 0 <= i < 8 => HexDigitValue(t[i]);
      HexValue(t) ==
        0x1000_0000 * v(0) + 0x100_0000 * v(1) + 0x10_0000 * v(2) + 0x1_0000 * v(3)
        + 0x1000 * v(4) + 0x100 * v(5) + 0x10 * v(6) + v(7)
  {
    assert t[..8] == t && t[..0] == [];
    forall i | 0 <= i < 8 ensures IsHex(t[..i]) && HexValue(t[..i + 1]) == 16 * HexValue(t[..i]) + HexDigitValue(t[i]) {
      assert t[..i + 1][..i] == t[..i];
    }
    assert HexValue(t[..1]) == HexDigitValue(t[0]);
  }

  const BASIS_TEXT: Text := U("811c9dc5")
  const HASH_OF_A: Text := U("e40c292c")

  lemma {:induction false} BasisHex()
    ensures ToHex(0x811c9dc5) == BASIS_TEXT
  {
    EightDigits(BASIS_TEXT);
    HexOfValue(BASIS_TEXT);
  }

  lemma {:induction false} HexOfA()
    ensures ToHex(0xe40c292c) == HASH_OF_A
  {
    EightDigits(HASH_OF_A);
    HexOfValue(HASH_OF_A);
  }

  lemma {:induction false} PadEight(t: Text)
    requires |t| == 8
    ensures PadStart(t, 8) == t
  {
  }

  /** The hash of the empty text is the offset basis. */
  lemma {:induction false} HashOfEmpty()
    ensures Hash([]) == 0x811c9dc5 && Fnv1a([]) == BASIS_TEXT
  {
    BasisHex();
    PadEight(BASIS_TEXT);
  }

  lemma {:induction false} RoundOfA()
    ensures Round(OFFSET, 0x61) == 0xe40c292c
  {
    MixFirst();
    assert Mix(OFFSET, 0x61) == 0x811c9da4;
    assert 0x811c9da4 * 0x01000193 == 0x811d68 * 0x1_0000_0000 + 0xe40c292c;
    QuotientUnique(0x811c9da4 * 0x01000193, 0x1_0000_0000, 0x811d68, 0xe40c292c);
  }

  /** The hash of `a`: one round of xor and then multiply. */
  lemma {:induction false} KnownHash(a: Text)
    requires a == ['a' as int]
    ensures Hash(a) == 0xe40c292c && Fnv1a(a) == HASH_OF_A
  {
    RoundOfA();
    assert a[1..] == [] && a[0] == 0x61;
    assert Fold(OFFSET, a) == Fold(Round(OFFSET, a[0]), a[1..]);
    assert Fold(0xe40c292c, []) == 0xe40c292c;
    HexOfA();
    PadEight(HASH_OF_A);
  }

  // ---- Ids ----

  function Join(scanId: Text, category: Text, key: Text): Text {
    scanId + (U("|") + category + U("|") + key)
  }

  function MakeRootCauseId(scanId: Text, category: Text, key: Text): Text {
    U("rc_") + category + U("_") + Fnv1a(Join(scanId, category, key))
  }

  function MakeProbableId(scanId: Text, rootCauseId: Text): Text {
    U("prob_") + Fnv1a(scanId + (U("|") + rootCauseId))
  }

  /** The layout of the two ids, and what they hash. */
  lemma IdLayout(scanId: Text, category: Text, key: Text)
    ensures
      var bar, rc := ['|' as int], MakeRootCauseId(scanId, category, key);
      && |rc| == |category| + 12 && rc[..3] == U("rc_") && rc[3..3 + |category|] == category
      && rc[3 + |category|] == '_' as int
      && rc[4 + |category|..] == Fnv1a(scanId + bar + category + bar + key)
    ensures
      var id := MakeProbableId(scanId, key);
      |id| == 13 && id[..5] == U("prob_") && id[5..] == Fnv1a(scanId + ['|' as int] + key)
  {
    assert U("|") == ['|' as int] && U("_") == ['_' as int];
    assert Join(scanId, category, key) == scanId + ['|' as int] + category + ['|' as int] + key;
    assert scanId + (U("|") + key) == scanId + ['|' as int] + key;
    EightHexDigits(Join(scanId, category, key));
    EightHexDigits(scanId + (U("|") + key));
  }

  /** An id names its category, and beyond that exactly its hash. */
  lemma RootCauseIdParts(s: Text, c: Text, k: Text, s': Text, c': Text, k': Text)
    ensures MakeRootCauseId(s, c, k) == MakeRootCauseId(s', c', k') <==>
              c == c' && Hash(Join(s, c, k)) == Hash(Join(s', c', k'))
  {
    var f, f' := Fnv1a(Join(s, c, k)), Fnv1a(Join(s', c', k'));
    var a, a' := MakeRootCauseId(s, c, k), MakeRootCauseId(s', c', k');
    EightHexDigits(Join(s, c, k));
    EightHexDigits(Join(s', c', k'));
    TextsEqualWhenHashesEqual(Join(s, c, k), Join(s', c', k'));
    assert a[|a| - 8..] == f && a'[|a'| - 8..] == f';
    assert a[3..|a| - 9] == c && a'[3..|a'| - 9] == c';
  }

  /** For one root cause, ids of two scans collide exactly when the scan ids' own hashes collide. */
  lemma RootCauseIdScans(s: Text, s': Text, c: Text, k: Text)
    ensures MakeRootCauseId(s, c, k) == MakeRootCauseId(s', c, k) <==> Hash(s) == Hash(s')
  {
    RootCauseIdParts(s, c, k, s', c, k);
    SuffixPreserves(s, s', U("|") + c + U("|") + k);
  }

  /** Root causes of one scan and category whose keys differ in one code unit get different ids. */
  lemma RootCauseIdKeys(s: Text, c: Text, k: Text, i: nat, u: CodeUnit)
    requires i < |k| && k[i] != u
    ensures MakeRootCauseId(s, c, k) != MakeRootCauseId(s, c, k[i := u])
  {
    var j, j' := Join(s, c, k), Join(s, c, k[i := u]);
    var n := |j| - |k| + i;
    assert j[n] == k[i] && j[n := u] == j';
    OneUnitNeverCollides(j, n, u);
    RootCauseIdParts(s, c, k, s, c, k[i := u]);
  }

  lemma ProbableIdScans(s: Text, s': Text, root: Text)
    ensures MakeProbableId(s, root) == MakeProbableId(s', root) <==> Hash(s) == Hash(s')
  {
    var x, x' := s + (U("|") + root), s' + (U("|") + root);
    SuffixPreserves(s, s', U("|") + root);
    TextsEqualWhenHashesEqual(x, x');
    assert MakeProbableId(s, root)[5..] == Fnv1a(x) && MakeProbableId(s', root)[5..] == Fnv1a(x');
  }
}
