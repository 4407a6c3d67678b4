/** JavaScript strings as sequences of UTF-16 code units, with the order that
    `Array.prototype.sort` uses and the decimal text of a natural number. */
module Utf16 {
  type CodeUnit = u: int | 0 <= u < 0x1_0000

  type Text = seq<CodeUnit>

  /** The code units of an ASCII literal. */
  function U(s: string): (t: Text)
    requires forall i | 0 <= i < |s| :: s[i] as int < 128
    ensures |t| == |s|
    ensures forall i | 0 <= i < |s| :: t[i] == s[i] as int
  {
    seq(|s|, i requires 0 <= i < |s| => s[i] as int as CodeUnit)
  }

  // ---- Code-unit order ----

  /** `a < b` on JavaScript strings: the first differing code unit decides. */
  predicate Less(a: Text, b: Text) {
    b != [] && (a == [] || a[0] < b[0] || (a[0] == b[0] && Less(a[1..], b[1..])))
  }

  lemma {:induction false} LessTotal(a: Text, b: Text)
    ensures !Less(a, a)
    ensures Less(a, b) ==> !Less(b, a)
    ensures Less(a, b) || a == b || Less(b, a)
  {
    if a != [] && b != [] {
      LessTotal(a[1..], b[1..]);
      LessTotal(a[1..], a[1..]);
      assert a == [a[0]] + a[1..] && b == [b[0]] + b[1..];
    } else if a != [] {
      LessTotal(a[1..], a[1..]);
    }
  }

  lemma {:induction false} LessTransitive(a: Text, b: Text, c: Text)
    requires Less(a, b) && Less(b, c)
    ensures Less(a, c)
  {
    if a != [] && a[0] == b[0] == c[0] {
      LessTransitive(a[1..], b[1..], c[1..]);
    }
  }

  // ---- Decimal text ----

  predicate IsDigit(u: CodeUnit) { '0' as int <= u <= '9' as int }

  predicate AllDigits(t: Text) { forall i | 0 <= i < |t| :: IsDigit(t[i]) }

  /** `String(n)` for a natural number. */
  function Decimal(n: nat): (t: Text)
    ensures |t| > 0 && AllDigits(t)
  {
    if n < 10 then ['0' as int + n] else Decimal(n / 10) + ['0' as int + n % 10]
  }

  function DecimalValue(t: Text): nat
    requires AllDigits(t)
  {
    if t == [] then 0 else 10 * DecimalValue(t[..|t| - 1]) + (t[|t| - 1] - '0' as int)
  }

  lemma {:induction false} DecimalRoundTrip(n: nat)
    ensures DecimalValue(Decimal(n)) == n
  {
    var t := Decimal(n);
    if n < 10 {
      assert t[..0] == [];
    } else {
      assert t[..|t| - 1] == Decimal(n / 10);
      DecimalRoundTrip(n / 10);
    }
  }

  // ---- Hexadecimal digits ----

  function HexDigit(d: int): CodeUnit
    requires 0 <= d < 16
  {
    if d < 10 then '0' as int + d else 'a' as int + d - 10
  }

  predicate IsHexDigit(u: CodeUnit) {
    '0' as int <= u <= '9' as int || 'a' as int <= u <= 'f' as int
  }

  function HexDigitValue(u: CodeUnit): (d: int)
    requires IsHexDigit(u)
    ensures 0 <= d < 16 && HexDigit(d) == u
  {
    if u <= '9' as int then u - '0' as int else u - 'a' as int + 10
  }
}
