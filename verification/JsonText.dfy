/** `JSON.stringify` on JSON data, and why its text determines the value. */
module JsonText {
  import opened Options
  import opened Sequences
  import opened Utf16
  import opened CanonicalJson

  const QUOTE: CodeUnit := '\"' as int
  const BACKSLASH: CodeUnit := '\\' as int
  const COMMA: CodeUnit := ',' as int
  const COLON: CodeUnit := ':' as int

  // ---- Strings (RFC 8259, section 7, with ECMA-262 QuoteJSONString) ----

  predicate IsHigh(u: CodeUnit) { 0xD800 <= u < 0xDC00 }

  predicate IsLow(u: CodeUnit) { 0xDC00 <= u < 0xE000 }

  function UnicodeEscape(u: CodeUnit): Text {
    [BACKSLASH, 'u' as int, HexDigit(u / 4096), HexDigit(u / 256 % 16), HexDigit(u / 16 % 16), HexDigit(u % 16)]
  }

  /** The text of one code unit that is not half of a surrogate pair. */
  function EscapeUnit(u: CodeUnit): Text {
    if u == 8 then [BACKSLASH, 'b' as int]
    else if u == 9 then [BACKSLASH, 't' as int]
    else if u == 10 then [BACKSLASH, 'n' as int]
    else if u == 12 then [BACKSLASH, 'f' as int]
    else if u == 13 then [BACKSLASH, 'r' as int]
    else if u == QUOTE || u == BACKSLASH then [BACKSLASH, u]
    else if u < 0x20 || IsHigh(u) || IsLow(u) then UnicodeEscape(u)
    else [u]
  }

  function Escape(s: Text): Text {
    if s == [] then []
    else if |s| > 1 && IsHigh(s[0]) && IsLow(s[1]) then [s[0], s[1]] + Escape(s[2..])
    else EscapeUnit(s[0]) + Escape(s[1..])
  }

  function Quote(s: Text): Text { [QUOTE] + (Escape(s) + [QUOTE]) }

  /** An independent reader: the string up to the closing quote, and the text after it. */
  function ReadString(t: Text): Option<(Text, Text)> {
    if t == [] then None
    else if t[0] == QUOTE then Some(([], t[1..]))
    else if t[0] == BACKSLASH then
      match ReadEscape(t)
      case None => None
      case Some((u, n)) => Prepend(u, ReadString(t[n..]))
    else Prepend(t[0], ReadString(t[1..]))
  }

  function Prepend(u: CodeUnit, r: Option<(Text, Text)>): Option<(Text, Text)> {
    match r
    case None => None
    case Some((s, rest)) => Some(([u] + s, rest))
  }

  /** The code unit an escape denotes, and the length of the escape. */
  function ReadEscape(t: Text): (r: Option<(CodeUnit, nat)>)
    ensures r.Some? ==> 0 < r.value.1 <= |t|
  {
    if |t| < 2 then None
    else if t[1] == 'b' as int then Some((8, 2))
    else if t[1] == 't' as int then Some((9, 2))
    else if t[1] == 'n' as int then Some((10, 2))
    else if t[1] == 'f' as int then Some((12, 2))
    else if t[1] == 'r' as int then Some((13, 2))
    else if t[1] == QUOTE || t[1] == BACKSLASH then Some((t[1], 2))
    else if t[1] == 'u' as int && |t| >= 6 then
      if IsHexDigit(t[2]) && IsHexDigit(t[3]) && IsHexDigit(t[4]) && IsHexDigit(t[5])
      then
        var high, low := 16 * HexDigitValue(t[2]) + HexDigitValue(t[3]), 16 * HexDigitValue(t[4]) + HexDigitValue(t[5]);
        Some((256 * high + low, 6))
      else None
    else None
  }

  lemma ReadUnicodeEscape(u: CodeUnit, x: Text)
    ensures ReadEscape(UnicodeEscape(u) + x) == Some((u, 6))
  {
    HexRead(u / 4096);
    HexRead(u / 256 % 16);
    HexRead(u / 16 % 16);
    HexRead(u % 16);
    Nibbles(u);
  }

  lemma HexRead(d: int)
    requires 0 <= d < 16
    ensures IsHexDigit(HexDigit(d)) && HexDigitValue(HexDigit(d)) == d
  {
  }

  lemma Nibbles(u: int)
    requires u >= 0
    ensures u == 4096 * (u / 4096) + 256 * (u / 256 % 16) + 16 * (u / 16 % 16) + u % 16
  {
    var a, b := u / 16, u / 256;
    assert a / 16 == b && b / 16 == u / 4096;
  }

  lemma ReadUnit(u: CodeUnit, x: Text)
    ensures ReadString(EscapeUnit(u) + x) == Prepend(u, ReadString(x))
  {
    var e := EscapeUnit(u);
    assert (e + x)[|e|..] == x;
    if |e| == 1 {
      ReadPlain(u, x);
    } else if |e| == 2 {
      ReadShort(u, e[1], x);
    } else {
      ReadUnicodeEscape(u, x);
    }
  }

  lemma ReadShort(u: CodeUnit, c: CodeUnit, x: Text)
    requires EscapeUnit(u) == [BACKSLASH, c]
    ensures ReadString([BACKSLASH, c] + x) == Prepend(u, ReadString(x))
  {
    var t := [BACKSLASH, c] + x;
    assert t[2..] == x && t[1] == c;
    assert ReadEscape(t) == Some((u, 2));
  }

  lemma ReadPlain(u: CodeUnit, x: Text)
    requires u != QUOTE && u != BACKSLASH
    ensures ReadString([u] + x) == Prepend(u, ReadString(x))
  {
    assert ([u] + x)[1..] == x;
  }

  /** One more unit in front of a text that reads as `s`. */
  lemma ReadStep(u: CodeUnit, e: Text, x: Text, s: Text, rest: Text)
    requires ReadString(e + x) == Some((s, rest))
    ensures ReadString(EscapeUnit(u) + e + x) == Some(([u] + s, rest))
  {
    Associate(EscapeUnit(u), e, x);
    ReadUnit(u, e + x);
  }

  lemma ReadPair(h: CodeUnit, l: CodeUnit, e: Text, x: Text, s: Text, rest: Text)
    requires IsHigh(h) && IsLow(l) && ReadString(e + x) == Some((s, rest))
    ensures ReadString([h, l] + e + x) == Some(([h, l] + s, rest))
  {
    ReadPlain(l, e + x);
    ReadPlain(h, [l] + (e + x));
    assert [h, l] + e + x == [h] + ([l] + (e + x));
    assert [h] + ([l] + s) == [h, l] + s;
  }

  /** Reading back a quoted string returns exactly that string. */
  lemma {:induction false} ReadQuoted(s: Text, x: Text)
    ensures ReadString(Escape(s) + ([QUOTE] + x)) == Some((s, x))
  {
    if s == [] {
      assert Escape(s) + ([QUOTE] + x) == [QUOTE] + x;
      assert ([QUOTE] + x)[1..] == x;
    } else if |s| > 1 && IsHigh(s[0]) && IsLow(s[1]) {
      ReadQuoted(s[2..], x);
      ReadPair(s[0], s[1], Escape(s[2..]), [QUOTE] + x, s[2..], x);
      assert s == [s[0], s[1]] + s[2..];
    } else {
      ReadQuoted(s[1..], x);
      ReadStep(s[0], Escape(s[1..]), [QUOTE] + x, s[1..], x);
      assert s == [s[0]] + s[1..];
    }
  }

  lemma Tail(c: CodeUnit, t: Text, x: Text)
    ensures ([c] + t + x)[0] == c && ([c] + t + x)[1..] == t + x
  {
  }

  lemma QuoteSplit(s: Text, t: Text, x: Text, y: Text)
    requires Quote(s) + x == Quote(t) + y
    ensures s == t && x == y
  {
    ReadQuoted(s, x);
    ReadQuoted(t, y);
    Tail(QUOTE, Escape(s) + [QUOTE], x);
    Tail(QUOTE, Escape(t) + [QUOTE], y);
    Associate(Escape(s), [QUOTE], x);
    Associate(Escape(t), [QUOTE], y);
  }

  // ---- Values ----

  function Print(v: Json): (t: Text)
    ensures WellFormed(v) ==> |t| > 0
    decreases v, 1
  {
    match v
    case Null => U("null")
    case Bool(b) => if b then U("true") else U("false")
    case Num(lit) => lit
    case Str(s) => Quote(s)
    case Arr(items) => ['[' as int] + (if items == [] then [']' as int] else PrintFrom(items))
    case Obj(ms) => ['{' as int] + (if ms == [] then ['}' as int] else PrintMembersFrom(ms))
  }

  function PrintFrom(items: seq<Json>): Text
    requires items != []
    decreases items, 0
  {
    Print(items[0]) + PrintRest(items[1..])
  }

  function PrintRest(items: seq<Json>): Text
    decreases items, 1
  {
    if items == [] then [']' as int] else [COMMA] + PrintFrom(items)
  }

  function PrintMembersFrom(ms: seq<Member>): Text
    requires ms != []
    decreases ms, 0
  {
    Quote(ms[0].key) + ([COLON] + (Print(ms[0].val) + PrintMembersRest(ms[1..])))
  }

  function PrintMembersRest(ms: seq<Member>): Text
    decreases ms, 1
  {
    if ms == [] then ['}' as int] else [COMMA] + PrintMembersFrom(ms)
  }

  // ---- The layout of the text ----

  /** Texts with commas between them. */
  function Commas(parts: seq<Text>): Text {
    if parts == [] then [] else if |parts| == 1 then parts[0] else parts[0] + [COMMA] + Commas(parts[1..])
  }

  lemma {:induction false} CommasCons(t: Text, parts: seq<Text>)
    ensures Commas([t] + parts) == t + if parts == [] then [] else [COMMA] + Commas(parts)
  {
    assert ([t] + parts)[1..] == parts;
    Associate(t, [COMMA], Commas(parts));
  }

  function Printed(items: seq<Json>): (r: seq<Text>)
    ensures |r| == |items|
  {
    seq(|items|, i requires 0 <= i < |items| => Print(items[i]))
  }

  function PrintedMembers(ms: seq<Member>): (r: seq<Text>)
    ensures |r| == |ms|
  {
    seq(|ms|, i requires 0 <= i < |ms| => Quote(ms[i].key) + [COLON] + Print(ms[i].val))
  }

  lemma {:induction false} ItemsLayout(items: seq<Json>)
    requires items != []
    ensures PrintFrom(items) == Commas(Printed(items)) + [']' as int]
  {
    var t := items[1..];
    assert Printed(items) == [Print(items[0])] + Printed(t);
    CommasCons(Print(items[0]), Printed(t));
    if t != [] {
      ItemsLayout(t);
      Associate([COMMA], Commas(Printed(t)), [']' as int]);
      Associate(Print(items[0]), [COMMA] + Commas(Printed(t)), [']' as int]);
    } else {
      Associate(Print(items[0]), [], []);
    }
  }

  lemma {:induction false} MembersLayout(ms: seq<Member>)
    requires ms != []
    ensures PrintMembersFrom(ms) == Commas(PrintedMembers(ms)) + ['}' as int]
  {
    var first, t := Quote(ms[0].key) + [COLON] + Print(ms[0].val), ms[1..];
    assert PrintedMembers(ms) == [first] + PrintedMembers(t);
    CommasCons(first, PrintedMembers(t));
    assert PrintMembersFrom(ms) == first + PrintMembersRest(t) by {
      Associate(Quote(ms[0].key), [COLON], Print(ms[0].val));
      Associate(Quote(ms[0].key), [COLON], Print(ms[0].val) + PrintMembersRest(t));
      Associate(Quote(ms[0].key) + [COLON], Print(ms[0].val), PrintMembersRest(t));
    }
    if t != [] {
      MembersLayout(t);
      Associate([COMMA], Commas(PrintedMembers(t)), ['}' as int]);
      Associate(first, [COMMA] + Commas(PrintedMembers(t)), ['}' as int]);
    } else {
      Associate(first, [], []);
    }
  }

  /** The text of each kind of value, with no white space anywhere. */
  lemma {:induction false} Layout(b: bool, s: Text, items: seq<Json>, ms: seq<Member>)
    ensures Print(Null) == U("null") && Print(Bool(b)) == (if b then U("true") else U("false"))
    ensures Print(Str(s)) == [QUOTE] + Escape(s) + [QUOTE]
    ensures Print(Arr(items)) == ['[' as int] + Commas(Printed(items)) + [']' as int]
    ensures Print(Obj(ms)) == ['{' as int] + Commas(PrintedMembers(ms)) + ['}' as int]
  {
    Associate([QUOTE], Escape(s), [QUOTE]);
    if items != [] { ItemsLayout(items); }
    if ms != [] { MembersLayout(ms); }
    Associate(['[' as int], Commas(Printed(items)), [']' as int]);
    Associate(['{' as int], Commas(PrintedMembers(ms)), ['}' as int]);
  }

  /** Which code units are escaped, and how long the escape is; halves of surrogate pairs are when alone. */
  lemma EscapeLengths(u: CodeUnit)
    ensures |EscapeUnit(u)| == 1 <==> u >= 0x20 && u != 0x22 && u != 0x5c && !(0xd800 <= u < 0xe000)
    ensures |EscapeUnit(u)| == 2 <==> u in {8, 9, 10, 12, 13, 0x22, 0x5c}
    ensures |EscapeUnit(u)| in {1, 2, 6}
    ensures u in {0x22, 0x5c} ==> EscapeUnit(u) == [0x5c, u]
    ensures EscapeUnit(8) == [0x5c, 0x62] && EscapeUnit(9) == [0x5c, 0x74] && EscapeUnit(10) == [0x5c, 0x6e]
    ensures EscapeUnit(12) == [0x5c, 0x66] && EscapeUnit(13) == [0x5c, 0x72]
    ensures |EscapeUnit(u)| == 6 ==> EscapeUnit(u)[..2] == [0x5c, 0x75]
  {
  }

  /** Text that may follow a complete value. */
  predicate Stops(x: Text) {
    x == [] || x[0] == COMMA || x[0] == ']' as int || x[0] == '}' as int
  }

  lemma NumberSplit(a: Text, b: Text, x: Text, y: Text)
    requires forall i | 0 <= i < |a| :: NumberUnit(a[i])
    requires forall i | 0 <= i < |b| :: NumberUnit(b[i])
    requires Stops(x) && Stops(y) && a + x == b + y
    ensures a == b && x == y
  {
    if |a| <= |b| {
      ConcatSplit(a, b, x, y);
    } else {
      ConcatSplit(b, a, y, x);
    }
  }

  /** Each kind of value starts with its own code units. */
  function Kind(u: CodeUnit): nat {
    if u == 'n' as int then 0
    else if u == 't' as int then 1
    else if u == 'f' as int then 2
    else if u == QUOTE then 3
    else if u == '[' as int then 4
    else if u == '{' as int then 5
    else 6
  }

  function KindOf(v: Json): nat {
    match v
    case Null => 0
    case Bool(b) => if b then 1 else 2
    case Str(_) => 3
    case Arr(_) => 4
    case Obj(_) => 5
    case Num(_) => 6
  }

  lemma FirstUnit(v: Json)
    requires WellFormed(v)
    ensures |Print(v)| > 0 && Kind(Print(v)[0]) == KindOf(v)
  {
  }

  /** Two well-formed values whose texts agree up to complete-value boundaries are equal. */
  lemma {:induction false} PrintSplit(a: Json, b: Json, x: Text, y: Text)
    requires WellFormed(a) && WellFormed(b) && Stops(x) && Stops(y)
    requires Print(a) + x == Print(b) + y
    ensures a == b && x == y
    decreases a, 1
  {
    FirstUnit(a);
    FirstUnit(b);
    assert (Print(a) + x)[0] == Print(a)[0] && (Print(b) + y)[0] == Print(b)[0];
    assert KindOf(a) == KindOf(b);
    match a
    case Null => ConcatSplit(Print(a), Print(b), x, y);
    case Bool(_) => ConcatSplit(Print(a), Print(b), x, y);
    case Num(lit) => NumberSplit(lit, b.literal, x, y);
    case Str(s) => QuoteSplit(s, b.s, x, y);
    case Arr(items) => ArraySplit(items, b.items, x, y);
    case Obj(ms) => ObjectSplit(ms, b.members, x, y);
  }

  lemma FirstOfItems(items: seq<Json>)
    requires WellFormed(Arr(items)) && items != []
    ensures |PrintFrom(items)| > 0 && PrintFrom(items)[0] != ']' as int
  {
    FirstUnit(items[0]);
    assert PrintFrom(items)[0] == Print(items[0])[0];
    if items[0].Num? { assert NumberText(items[0].literal); }
  }

  lemma {:induction false} ArraySplit(a: seq<Json>, b: seq<Json>, x: Text, y: Text)
    requires WellFormed(Arr(a)) && WellFormed(Arr(b)) && Stops(x) && Stops(y)
    requires Print(Arr(a)) + x == Print(Arr(b)) + y
    ensures a == b && x == y
    decreases a, 1
  {
    var p := if a == [] then [']' as int] else PrintFrom(a);
    var q := if b == [] then [']' as int] else PrintFrom(b);
    Tail('[' as int, p, x);
    Tail('[' as int, q, y);
    if a != [] { FirstOfItems(a); }
    if b != [] { FirstOfItems(b); }
    assert (p + x)[0] == p[0] && (q + y)[0] == q[0];
    if a == [] {
      ConcatSplit(p, q, x, y);
    } else {
      FromSplit(a, b, x, y);
    }
  }

  lemma {:induction false} FromSplit(a: seq<Json>, b: seq<Json>, x: Text, y: Text)
    requires a != [] && b != []
    requires WellFormed(Arr(a)) && WellFormed(Arr(b)) && Stops(x) && Stops(y)
    requires PrintFrom(a) + x == PrintFrom(b) + y
    ensures a == b && x == y
    decreases a, 0
  {
    var r, t := PrintRest(a[1..]), PrintRest(b[1..]);
    Associate(Print(a[0]), r, x);
    Associate(Print(b[0]), t, y);
    assert (r + x)[0] == r[0] && (t + y)[0] == t[0];
    PrintSplit(a[0], b[0], r + x, t + y);
    RestSplit(a[1..], b[1..], x, y);
    assert a == [a[0]] + a[1..] && b == [b[0]] + b[1..];
  }

  lemma {:induction false} RestSplit(a: seq<Json>, b: seq<Json>, x: Text, y: Text)
    requires WellFormed(Arr(a)) && WellFormed(Arr(b)) && Stops(x) && Stops(y)
    requires PrintRest(a) + x == PrintRest(b) + y
    ensures a == b && x == y
    decreases a, 1
  {
    assert (PrintRest(a) + x)[0] == PrintRest(a)[0] && (PrintRest(b) + y)[0] == PrintRest(b)[0];
    if a == [] {
      ConcatSplit(PrintRest(a), PrintRest(b), x, y);
    } else {
      Tail(COMMA, PrintFrom(a), x);
      Tail(COMMA, PrintFrom(b), y);
      FromSplit(a, b, x, y);
    }
  }

  lemma {:induction false} ObjectSplit(a: seq<Member>, b: seq<Member>, x: Text, y: Text)
    requires WellFormed(Obj(a)) && WellFormed(Obj(b)) && Stops(x) && Stops(y)
    requires Print(Obj(a)) + x == Print(Obj(b)) + y
    ensures a == b && x == y
    decreases a, 1
  {
    var p := if a == [] then ['}' as int] else PrintMembersFrom(a);
    var q := if b == [] then ['}' as int] else PrintMembersFrom(b);
    Tail('{' as int, p, x);
    Tail('{' as int, q, y);
    assert (p + x)[0] == p[0] && (q + y)[0] == q[0];
    if a == [] {
      ConcatSplit(p, q, x, y);
    } else {
      MembersFromSplit(a, b, x, y);
    }
  }

  lemma {:induction false} MembersFromSplit(a: seq<Member>, b: seq<Member>, x: Text, y: Text)
    requires a != [] && b != []
    requires WellFormed(Obj(a)) && WellFormed(Obj(b)) && Stops(x) && Stops(y)
    requires PrintMembersFrom(a) + x == PrintMembersFrom(b) + y
    ensures a == b && x == y
    decreases a, 0
  {
    var r, t := PrintMembersRest(a[1..]), PrintMembersRest(b[1..]);
    var p, q := [COLON] + (Print(a[0].val) + r), [COLON] + (Print(b[0].val) + t);
    Associate(Quote(a[0].key), p, x);
    Associate(Quote(b[0].key), q, y);
    QuoteSplit(a[0].key, b[0].key, p + x, q + y);
    Tail(COLON, Print(a[0].val) + r, x);
    Tail(COLON, Print(b[0].val) + t, y);
    Associate(Print(a[0].val), r, x);
    Associate(Print(b[0].val), t, y);
    assert (r + x)[0] == r[0] && (t + y)[0] == t[0];
    PrintSplit(a[0].val, b[0].val, r + x, t + y);
    MembersRestSplit(a[1..], b[1..], x, y);
    assert a == [a[0]] + a[1..] && b == [b[0]] + b[1..];
  }

  lemma {:induction false} MembersRestSplit(a: seq<Member>, b: seq<Member>, x: Text, y: Text)
    requires WellFormed(Obj(a)) && WellFormed(Obj(b)) && Stops(x) && Stops(y)
    requires PrintMembersRest(a) + x == PrintMembersRest(b) + y
    ensures a == b && x == y
    decreases a, 1
  {
    var p, q := PrintMembersRest(a), PrintMembersRest(b);
    assert (p + x)[0] == p[0] && (q + y)[0] == q[0];
    if a == [] {
      ConcatSplit(p, q, x, y);
    } else {
      Tail(COMMA, PrintMembersFrom(a), x);
      Tail(COMMA, PrintMembersFrom(b), y);
      MembersFromSplit(a, b, x, y);
    }
  }
}
