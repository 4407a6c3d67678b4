/** Prefixes, and facts about concatenation that the solver is better told than asked to find. */
module Sequences {
  predicate StartsWith<T(==)>(s: seq<T>, prefix: seq<T>) { prefix <= s }

  /** `s.slice(0, n)`. */
  function Upto<T>(s: seq<T>, n: nat): seq<T> { if n < |s| then s[..n] else s }

  lemma Associate<T>(a: seq<T>, b: seq<T>, c: seq<T>)
    ensures a + b + c == a + (b + c)
    ensures a + [] == a
  {
  }

  lemma HeadIn<T>(s: seq<T>)
    ensures s == [] || s[0] in s
  {
  }

  /** A concatenation that starts with both `a` and the longer `b` starts `b` with `a`. */
  lemma ConcatSplit<T>(a: seq<T>, b: seq<T>, x: seq<T>, y: seq<T>)
    requires |a| <= |b| && a + x == b + y
    ensures a == b[..|a|] && x == b[|a|..] + y
  {
    assert a == (a + x)[..|a|] && (b + y)[..|a|] == b[..|a|];
    assert x == (a + x)[|a|..] && (b + y)[|a|..] == b[|a|..] + y;
  }

  lemma ConsPrefix<T>(a: T, r: seq<T>, b: T, p: seq<T>)
    ensures [a] + r <= [b] + p <==> a == b && r <= p
  {
    var s, t := [a] + r, [b] + p;
    if s <= t {
      assert s[0] == t[0];
      assert forall i | 0 <= i < |r| :: r[i] == s[i + 1] == t[i + 1] == p[i];
    }
  }
}
