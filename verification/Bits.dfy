/** Natural numbers as bit strings: and, xor, shifts and powers of two. */
module Bits {

  function Pow2(n: nat): (p: nat)
    ensures p > 0
  {
    if n == 0 then 1 else 2 * Pow2(n - 1)
  }

  function And(a: nat, b: nat): nat {
    if a == 0 || b == 0 then 0
    else 2 * And(a / 2, b / 2) + (if a % 2 == 1 && b % 2 == 1 then 1 else 0)
  }

  function Xor(a: nat, b: nat): nat
    decreases a + b
  {
    if a == 0 then b else if b == 0 then a
    else 2 * Xor(a / 2, b / 2) + (if a % 2 == b % 2 then 0 else 1)
  }

  /** `n` without its last `s` bits. */
  function Shift(n: nat, s: nat): nat { if s == 0 then n else Shift(n / 2, s - 1) }

  lemma {:induction false} ShiftIsQuotient(n: nat, s: nat)
    ensures Shift(n, s) == n / Pow2(s)
  {
    if s > 0 {
      ShiftIsQuotient(n / 2, s - 1);
      HalfThenDivide(n, Pow2(s - 1));
    }
  }

  lemma HalfThenDivide(n: nat, p: nat)
    requires p > 0
    ensures n / 2 / p == n / (2 * p)
  {
    var q, r := n / 2 / p, n / 2 % p;
    assert n / 2 == q * p + r;
    var x := 2 * r + n % 2;
    assert n == q * (2 * p) + x by { assert q * (2 * p) == 2 * (q * p); }
    QuotientUnique(n, 2 * p, q, x);
  }

  lemma QuotientUnique(n: nat, d: nat, q: nat, r: nat)
    requires d > 0 && n == q * d + r && r < d
    ensures n / d == q
  {
    var k := n / d;
    assert n == k * d + n % d;
    assert (k - q) * d == r - n % d;
    AtLeastOne(k - q, d);
  }

  lemma AtLeastOne(z: int, d: int)
    requires d > 0
    ensures z >= 1 ==> z * d >= d
    ensures z <= -1 ==> z * d <= -d
  {
    if z >= 1 { assert (z - 1) * d >= 0; }
    if z <= -1 { assert (-z - 1) * d >= 0; }
  }

  /** Complementing `s` low bits within `n` bits. */
  lemma {:induction false} XorLowBits(n: nat, s: nat)
    requires s <= n
    ensures Xor(Pow2(n) - 1, Pow2(s) - 1) == Pow2(n) - Pow2(s)
  {
    if s > 0 {
      XorLowBits(n - 1, s - 1);
      assert (Pow2(n) - 1) / 2 == Pow2(n - 1) - 1 && (Pow2(s) - 1) / 2 == Pow2(s - 1) - 1;
    }
  }

  lemma {:induction false} AndAllOnes(n: nat, w: nat)
    requires w < Pow2(n)
    ensures And(w, Pow2(n) - 1) == w
    decreases n
  {
    if w > 0 {
      AndAllOnes(n - 1, w / 2);
      assert (Pow2(n) - 1) / 2 == Pow2(n - 1) - 1;
    }
  }

  lemma {:induction false} PowMonotone(m: nat, n: nat)
    requires m <= n
    ensures Pow2(m) <= Pow2(n)
    decreases n
  {
    if m < n { PowMonotone(m, n - 1); }
  }

  /** Masking off `s` low bits keeps the bits above them and nothing else. */
  lemma {:induction false} AndMask(n: nat, s: nat, w: nat)
    requires s <= n && w < Pow2(n)
    ensures Pow2(s) <= Pow2(n) && And(w, Pow2(n) - Pow2(s)) == Pow2(s) * Shift(w, s)
    decreases s
  {
    PowMonotone(s, n);
    if s == 0 {
      AndAllOnes(n, w);
    } else {
      PowMonotone(s - 1, n - 1);
      HalfBelow(w, n);
      AndMask(n - 1, s - 1, w / 2);
      MaskNext(n, s, w);
    }
  }

  lemma MaskNext(n: nat, s: nat, w: nat)
    requires 0 < s <= n && Pow2(s - 1) <= Pow2(n - 1)
    requires And(w / 2, Pow2(n - 1) - Pow2(s - 1)) == Pow2(s - 1) * Shift(w / 2, s - 1)
    ensures Pow2(s) <= Pow2(n) && And(w, Pow2(n) - Pow2(s)) == Pow2(s) * Shift(w, s)
  {
    var m := Pow2(n - 1) - Pow2(s - 1);
    assert Pow2(n) - Pow2(s) == 2 * m;
    AndEven(w, m);
    Twice(Shift(w / 2, s - 1), Pow2(s - 1));
  }

  lemma AndEven(w: nat, m: nat)
    ensures And(w, 2 * m) == 2 * And(w / 2, m)
  {
    assert 2 * m / 2 == m && 2 * m % 2 == 0;
    AndHalves(w, 2 * m);
  }

  lemma Twice(h: nat, p: nat)
    ensures h * (2 * p) == 2 * (h * p) && (2 * p) * h == 2 * (p * h)
  {
  }

  lemma AndHalves(a: nat, b: nat)
    ensures And(a, b) == 2 * And(a / 2, b / 2) + (if a % 2 == 1 && b % 2 == 1 then 1 else 0)
  {
    if a == 0 { assert And(0, b / 2) == 0; }
    if b == 0 { assert And(a / 2, 0) == 0; }
  }

  /** `n` with `k` zero bits appended. */
  function Scale(n: nat, k: nat): nat { if k == 0 then n else 2 * Scale(n, k - 1) }

  /** `&` works on high and low parts apart. */
  lemma {:induction false} AndParts(k: nat, h: nat, l: nat, h': nat, l': nat)
    requires l < Pow2(k) && l' < Pow2(k)
    ensures And(Scale(h, k) + l, Scale(h', k) + l') == Scale(And(h, h'), k) + And(l, l')
    decreases k
  {
    if k == 0 {
      NoLowBits(h, l, h', l');
    } else {
      HalfBelow(l, k);
      HalfBelow(l', k);
      AndParts(k - 1, h, l / 2, h', l' / 2);
      AndPartsNext(k, h, l, h', l');
    }
  }

  lemma AndPartsNext(k: nat, h: nat, l: nat, h': nat, l': nat)
    requires k > 0
    requires And(Scale(h, k - 1) + l / 2, Scale(h', k - 1) + l' / 2) == Scale(And(h, h'), k - 1) + And(l / 2, l' / 2)
    ensures And(Scale(h, k) + l, Scale(h', k) + l') == Scale(And(h, h'), k) + And(l, l')
  {
    ScaleHalf(h, k);
    ScaleHalf(h', k);
    ScaleHalf(And(h, h'), k);
    AndDoubled(Scale(h, k), l, Scale(h', k), l', Scale(And(h, h'), k));
  }

  lemma NoLowBits(h: nat, l: nat, h': nat, l': nat)
    requires l < Pow2(0) && l' < Pow2(0)
    ensures And(Scale(h, 0) + l, Scale(h', 0) + l') == Scale(And(h, h'), 0) + And(l, l')
  {
    assert l == 0 && l' == 0 && And(l, l') == 0;
    assert Scale(h, 0) + l == h && Scale(h', 0) + l' == h' && Scale(And(h, h'), 0) == And(h, h');
  }

  lemma ScaleHalf(n: nat, k: nat)
    requires k > 0
    ensures Scale(n, k) % 2 == 0 && Scale(n, k) / 2 == Scale(n, k - 1)
  {
    assert Scale(n, k) == 2 * Scale(n, k - 1);
  }

  lemma HalfBelow(n: nat, k: nat)
    requires n < Pow2(k) && k > 0
    ensures n / 2 < Pow2(k - 1)
  {
  }

  /** One more low bit on even `u`, `v` and `high`. */
  lemma AndDoubled(u: nat, l: nat, v: nat, l': nat, high: nat)
    requires u % 2 == 0 && v % 2 == 0 && high % 2 == 0
    requires And(u / 2 + l / 2, v / 2 + l' / 2) == high / 2 + And(l / 2, l' / 2)
    ensures And(u + l, v + l') == high + And(l, l')
  {
    assert (u + l) / 2 == u / 2 + l / 2 && (v + l') / 2 == v / 2 + l' / 2;
    AndHalves(u + l, v + l');
    AndHalves(l, l');
  }

  lemma AndParts8(h: nat, l: nat, h': nat, l': nat)
    requires l < 256 && l' < 256
    ensures And(h * 256 + l, h' * 256 + l') == And(h, h') * 256 + And(l, l')
  {
    assert Pow2(4) == 16;
    assert Pow2(8) == 256;
    ScaleByte(h);
    ScaleByte(h');
    ScaleByte(And(h, h'));
    AndParts(8, h, l, h', l');
  }

  lemma ScaleByte(n: nat)
    ensures Scale(n, 8) == n * 256
  {
    assert Scale(n, 1) == n * 2;
    assert Scale(n, 2) == n * 4;
    assert Scale(n, 4) == n * 16;
    assert Scale(n, 6) == n * 64;
  }

  lemma {:induction false} AndBound(a: nat, b: nat)
    ensures And(a, b) <= a
  {
    if a != 0 && b != 0 { AndBound(a / 2, b / 2); }
  }

  lemma {:induction false} AndIdempotent(a: nat, b: nat)
    ensures And(And(a, b), b) == And(a, b)
  {
    if a != 0 && b != 0 {
      AndIdempotent(a / 2, b / 2);
      AndHalves(And(a, b), b);
    }
  }

  lemma Pow32()
    ensures Pow2(32) == 0x1_0000_0000
  {
    assert Pow2(8) == 256;
    assert Pow2(16) == 0x1_0000;
    assert Pow2(24) == 0x100_0000;
  }

  // ---- Xor as a bijection ----

  lemma {:induction false} XorBound(a: nat, b: nat, n: nat)
    requires a < Pow2(n) && b < Pow2(n)
    ensures Xor(a, b) < Pow2(n)
    decreases n
  {
    if a != 0 && b != 0 {
      XorBound(a / 2, b / 2, n - 1);
    }
  }

  lemma {:induction false} XorInvolutive(a: nat, b: nat)
    ensures Xor(Xor(a, b), b) == a
    decreases a + b
  {
    if a == 0 {
      XorSelf(b);
    } else if b != 0 {
      XorInvolutive(a / 2, b / 2);
      var x := Xor(a, b);
      assert x / 2 == Xor(a / 2, b / 2);
      if x == 0 {
        assert Xor(x, b) == b;
        assert Xor(Xor(a / 2, b / 2), b / 2) == b / 2;
      }
    }
  }

  lemma {:induction false} XorSelf(b: nat)
    ensures Xor(b, b) == 0
  {
    if b != 0 { XorSelf(b / 2); }
  }

  lemma {:induction false} XorSymmetric(a: nat, b: nat)
    ensures Xor(a, b) == Xor(b, a)
    decreases a + b
  {
    if a != 0 && b != 0 { XorSymmetric(a / 2, b / 2); }
  }
}
