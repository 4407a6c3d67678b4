/** The ordered adapter table of a requests session. */
module Adapters {
  import opened Options

  /** One item of the ordered dictionary; adapters are known by name. */
  datatype Entry = Entry(prefix: string, adapter: string)

  type Table = seq<Entry>

  ghost predicate DistinctPrefixes(t: Table) {
    forall i, j | 0 <= i < j < |t| :: t[i].prefix != t[j].prefix
  }

  /** Longer prefixes never come after shorter ones. */
  ghost predicate LongestFirst(t: Table) {
    forall i, j | 0 <= i < j < |t| :: |t[i].prefix| >= |t[j].prefix|
  }

  /** `d[prefix] = adapter`: in place for a key that exists, else at the end. */
  function Assign(t: Table, e: Entry): Table {
    if t == [] then [e] else if t[0].prefix == e.prefix then [e] + t[1..] else [t[0]] + Assign(t[1..], e)
  }

  /** The entry stored under a key, taken out. */
  function Remove(t: Table, prefix: string): Table {
    if t == [] then [] else if t[0].prefix == prefix then t[1..] else [t[0]] + Remove(t[1..], prefix)
  }

  function Longer(t: Table, n: nat): Table {
    if t == [] then [] else (if |t[0].prefix| >= n then [t[0]] else []) + Longer(t[1..], n)
  }

  function Shorter(t: Table, n: nat): Table {
    if t == [] then [] else (if |t[0].prefix| < n then [t[0]] else []) + Shorter(t[1..], n)
  }

  /** `mount`: assign, then the shorter prefixes move behind in their order. */
  function Mounted(t: Table, e: Entry): Table {
    var u := Assign(t, e);
    Longer(u, |e.prefix|) + Shorter(u, |e.prefix|)
  }

  // ---- Facts about the pieces ----

  lemma {:induction false} AssignElements(t: Table, e: Entry)
    requires DistinctPrefixes(t)
    ensures forall x :: x in Assign(t, e) <==> x == e || (x in t && x.prefix != e.prefix)
    ensures DistinctPrefixes(Assign(t, e))
  {
    if t != [] {
      assert t == [t[0]] + t[1..];
      forall x | x in t[1..] ensures x.prefix != t[0].prefix {
        var i :| 0 <= i < |t[1..]| && t[1..][i] == x;
        assert t[i + 1] == x;
      }
      if t[0].prefix != e.prefix {
        AssignElements(t[1..], e);
        var r := Assign(t[1..], e);
        forall i | 0 <= i < |r| ensures r[i].prefix != t[0].prefix { assert r[i] in r; }
      }
    }
  }

  lemma {:induction false} SplitElements(t: Table, n: nat)
    ensures forall x :: x in Longer(t, n) <==> x in t && |x.prefix| >= n
    ensures forall x :: x in Shorter(t, n) <==> x in t && |x.prefix| < n
  {
    if t != [] {
      SplitElements(t[1..], n);
      assert t == [t[0]] + t[1..];
    }
  }

  lemma {:induction false} PartsDistinct(t: Table, n: nat)
    requires DistinctPrefixes(t)
    ensures DistinctPrefixes(Longer(t, n)) && DistinctPrefixes(Shorter(t, n))
  {
    if t != [] {
      PartsDistinct(t[1..], n);
      SplitElements(t[1..], n);
      forall x | x in t[1..] ensures x.prefix != t[0].prefix {
        var i :| 0 <= i < |t[1..]| && t[1..][i] == x;
        assert t[i + 1] == x;
      }
      DistinctCons(t[0], if |t[0].prefix| >= n then Longer(t[1..], n) else Shorter(t[1..], n));
    }
  }

  lemma DistinctCons(e: Entry, t: Table)
    requires DistinctPrefixes(t) && forall x | x in t :: x.prefix != e.prefix
    ensures DistinctPrefixes([e] + t)
  {
  }

  lemma SplitDistinct(t: Table, n: nat)
    requires DistinctPrefixes(t)
    ensures DistinctPrefixes(Longer(t, n) + Shorter(t, n))
  {
    PartsDistinct(t, n);
    SplitElements(t, n);
    var a, b := Longer(t, n), Shorter(t, n);
    forall i, j | 0 <= i < |a| && 0 <= j < |b| ensures a[i].prefix != b[j].prefix {
      assert a[i] in a && b[j] in b;
    }
  }

  lemma {:induction false} AssignedFrom(t: Table, e: Entry)
    ensures forall x | x in Assign(t, e) :: x == e || x in t
  {
    if t != [] {
      AssignedFrom(t[1..], e);
      assert t == [t[0]] + t[1..];
    }
  }

  /** Assigning a new key at the end breaks the order only among shorter prefixes before it. */
  lemma {:induction false} LongerAfterAssign(t: Table, e: Entry)
    requires LongestFirst(t)
    ensures LongestFirst(Longer(Assign(t, e), |e.prefix|)) && LongestFirst(Shorter(Assign(t, e), |e.prefix|))
  {
    if t != [] {
      var n := |e.prefix|;
      HeadLongest(t);
      if t[0].prefix == e.prefix {
        SplitOrdered(t[1..], n);
        SplitElements(t[1..], n);
        assert Assign(t, e)[1..] == t[1..];
        LongestFirstCons(e, Longer(t[1..], n));
      } else {
        var r := Assign(t[1..], e);
        LongerAfterAssign(t[1..], e);
        AssignedFrom(t[1..], e);
        assert Assign(t, e)[1..] == r;
        SplitElements(r, n);
        if |t[0].prefix| >= n { LongestFirstCons(t[0], Longer(r, n)); } else { LongestFirstCons(t[0], Shorter(r, n)); }
      }
    }
  }

  lemma LongestFirstCons(e: Entry, t: Table)
    requires LongestFirst(t) && forall x | x in t :: |e.prefix| >= |x.prefix|
    ensures LongestFirst([e] + t)
  {
  }

  lemma HeadLongest(t: Table)
    requires LongestFirst(t) && t != []
    ensures LongestFirst(t[1..]) && forall x | x in t[1..] :: |t[0].prefix| >= |x.prefix|
  {
    forall x | x in t[1..] ensures |t[0].prefix| >= |x.prefix| {
      var i :| 0 <= i < |t[1..]| && t[1..][i] == x;
      assert t[i + 1] == x;
    }
  }

  lemma {:induction false} SplitOrdered(t: Table, n: nat)
    requires LongestFirst(t)
    ensures LongestFirst(Longer(t, n)) && LongestFirst(Shorter(t, n))
  {
    if t != [] {
      HeadLongest(t);
      SplitOrdered(t[1..], n);
      SplitElements(t[1..], n);
      if |t[0].prefix| >= n {
        LongestFirstCons(t[0], Longer(t[1..], n));
      } else {
        LongestFirstCons(t[0], Shorter(t[1..], n));
      }
    }
  }

  /** What every mount keeps, and what it stores. */
  lemma MountKeepsOrder(t: Table, e: Entry)
    requires LongestFirst(t) && DistinctPrefixes(t)
    ensures LongestFirst(Mounted(t, e)) && DistinctPrefixes(Mounted(t, e))
    ensures forall x :: x in Mounted(t, e) <==> x == e || (x in t && x.prefix != e.prefix)
  {
    var u, n := Assign(t, e), |e.prefix|;
    AssignElements(t, e);
    LongerAfterAssign(t, e);
    SplitElements(u, n);
    SplitDistinct(u, n);
    var a, b := Longer(u, n), Shorter(u, n);
    forall i, j | 0 <= i < |a| && 0 <= j < |b| ensures |a[i].prefix| >= |b[j].prefix| {
      assert a[i] in a && b[j] in b;
    }
  }

  // ---- Runs ----

  function MountAll(t: Table, es: seq<Entry>): Table
    decreases es
  {
    if es == [] then t else MountAll(Mounted(t, es[0]), es[1..])
  }

  /** The adapter last mounted under a prefix. */
  function Last(es: seq<Entry>, prefix: string): Option<string> {
    if es == [] then None
    else if es[|es| - 1].prefix == prefix then Some(es[|es| - 1].adapter)
    else Last(es[..|es| - 1], prefix)
  }

  lemma {:induction false} MountAllSnoc(t: Table, es: seq<Entry>, e: Entry)
    ensures MountAll(t, es + [e]) == Mounted(MountAll(t, es), e)
    decreases es
  {
    if es == [] {
      assert [] + [e] == [e] && [e][1..] == [];
    } else {
      assert (es + [e])[1..] == es[1..] + [e];
      MountAllSnoc(Mounted(t, es[0]), es[1..], e);
    }
  }

  /** After any sequence of mounts the table is ordered, and holds the last adapter of each prefix. */
  lemma {:induction false} MountsOrdered(es: seq<Entry>)
    ensures LongestFirst(MountAll([], es)) && DistinctPrefixes(MountAll([], es))
    ensures forall x :: x in MountAll([], es) <==> Last(es, x.prefix) == Some(x.adapter)
    decreases |es|
  {
    if es != [] {
      var init, e := es[..|es| - 1], es[|es| - 1];
      MountsOrdered(init);
      MountAllSnoc([], init, e);
      assert es == init + [e];
      MountKeepsOrder(MountAll([], init), e);
    }
  }

  // ---- Lookup ----

  function LowerChar(c: char): char { if 'A' <= c <= 'Z' then c - 'A' + 'a' else c }

  function Lower(s: string): (r: string)
    ensures |r| == |s|
  {
    seq(|s|, i requires 0 <= i < |s| => LowerChar(s[i]))
  }

  /** `url.lower().startswith(prefix.lower())`. */
  predicate Serves(prefix: string, url: string) { Lower(prefix) <= Lower(url) }

  /** One letter but for its case. */
  ghost predicate SameLetter(c: char, d: char) {
    || c == d
    || ('A' <= c <= 'Z' && d as int == c as int + 32)
    || ('A' <= d <= 'Z' && c as int == d as int + 32)
  }

  /** A prefix serves a URL iff the URL starts with it, letter case aside. */
  lemma ServesExact(prefix: string, url: string)
    ensures Serves(prefix, url) <==>
              |prefix| <= |url| && forall i | 0 <= i < |prefix| :: SameLetter(prefix[i], url[i])
  {
    var p, u := Lower(prefix), Lower(url);
    if |prefix| <= |url| {
      assert p <= u <==> forall i | 0 <= i < |p| :: p[i] == u[i] by {
        if forall i | 0 <= i < |p| :: p[i] == u[i] { assert u[..|p|] == p; }
      }
      assert forall i | 0 <= i < |p| :: p[i] == u[i] <==> SameLetter(prefix[i], url[i]);
    }
  }

  class Session {
    var adapters: Table

    constructor ()
      ensures adapters == []
    {
      adapters := [];
    }

    method Mount(prefix: string, adapter: string)
      requires LongestFirst(adapters) && DistinctPrefixes(adapters)
      modifies this
      ensures adapters == Mounted(old(adapters), Entry(prefix, adapter))
      ensures LongestFirst(adapters) && DistinctPrefixes(adapters)
    {
      var e := Entry(prefix, adapter);
      ghost var u := Assign(adapters, e);
      MountKeepsOrder(adapters, e);
      AssignElements(adapters, e);
      adapters := Assign(adapters, e);
      MoveShorter(|prefix|);
      MoveAll(u, |prefix|);
    }

    /** Every key shorter than `n` is popped and stored again, in table order. */
    method MoveShorter(n: nat)
      requires DistinctPrefixes(adapters)
      modifies this
      ensures adapters == MovedUpTo(old(adapters), n, |Shorter(old(adapters), n)|)
    {
      ghost var u := adapters;
      var keysToMove := Shorter(adapters, n);
      for i := 0 to |keysToMove|
        invariant adapters == MovedUpTo(u, n, i)
      {
        MoveOne(u, n, i);
        adapters := Remove(adapters, keysToMove[i].prefix) + [keysToMove[i]];
      }
    }

    /** The first match in table order is a longest matching prefix. */
    method GetAdapter(url: string) returns (r: Option<Entry>)
      requires LongestFirst(adapters)
      ensures r.None? <==> forall x | x in adapters :: !Serves(x.prefix, url)
      ensures r.Some? ==> r.value in adapters && Serves(r.value.prefix, url)
      ensures r.Some? ==> forall x | x in adapters && Serves(x.prefix, url) :: |x.prefix| <= |r.value.prefix|
    {
      for i := 0 to |adapters|
        invariant forall j | 0 <= j < i :: !Serves(adapters[j].prefix, url)
      {
        if Serves(adapters[i].prefix, url) { return Some(adapters[i]); }
      }
      return None;
    }
  }

  /** The table after the first `i` short keys have moved to the end. */
  ghost function MovedUpTo(u: Table, n: nat, i: nat): Table
    requires i <= |Shorter(u, n)|
  {
    DropShorter(u, n, i) + Shorter(u, n)[..i]
  }

  /** `u` without its first `i` entries shorter than `n`. */
  ghost function DropShorter(u: Table, n: nat, i: nat): Table {
    if u == [] || i == 0 then u
    else if |u[0].prefix| < n then DropShorter(u[1..], n, i - 1)
    else [u[0]] + DropShorter(u[1..], n, i)
  }

  lemma {:induction false} DropAll(u: Table, n: nat)
    ensures DropShorter(u, n, |Shorter(u, n)|) == Longer(u, n)
  {
    if u != [] {
      DropAll(u[1..], n);
      if |u[0].prefix| >= n && Shorter(u, n) == [] {
        assert DropShorter(u[1..], n, 0) == u[1..];
      }
    }
  }

  lemma MoveAll(u: Table, n: nat)
    ensures MovedUpTo(u, n, |Shorter(u, n)|) == Longer(u, n) + Shorter(u, n)
  {
    DropAll(u, n);
  }

  lemma {:induction false} RemoveNext(u: Table, n: nat, i: nat)
    requires DistinctPrefixes(u) && i < |Shorter(u, n)|
    ensures Remove(DropShorter(u, n, i), Shorter(u, n)[i].prefix) == DropShorter(u, n, i + 1)
    ensures Shorter(u, n)[i] in DropShorter(u, n, i)
    decreases u
  {
    var s, t := Shorter(u, n), Shorter(u[1..], n);
    if |u[0].prefix| < n {
      assert s == [u[0]] + t;
      if i > 0 {
        RemoveNext(u[1..], n, i - 1);
      }
    } else {
      assert s == [] + t == t;
      RemoveNext(u[1..], n, i);
      SplitElements(u[1..], n);
      RemoveCons(u[0], DropShorter(u[1..], n, i), s[i].prefix);
      assert DropShorter(u, n, i) == [u[0]] + DropShorter(u[1..], n, i);
    }
  }

  lemma RemoveCons(e: Entry, t: Table, prefix: string)
    requires e.prefix != prefix
    ensures Remove([e] + t, prefix) == [e] + Remove(t, prefix)
  {
    assert ([e] + t)[1..] == t;
  }

  lemma {:induction false} RemoveLeft(a: Table, b: Table, e: Entry)
    requires e in a
    ensures Remove(a + b, e.prefix) == Remove(a, e.prefix) + b
  {
    if a[0].prefix == e.prefix {
      assert (a + b)[1..] == a[1..] + b;
    } else {
      assert (a + b)[1..] == a[1..] + b;
      RemoveLeft(a[1..], b, e);
    }
  }

  lemma MoveOne(u: Table, n: nat, i: nat)
    requires DistinctPrefixes(u) && i < |Shorter(u, n)|
    ensures Remove(MovedUpTo(u, n, i), Shorter(u, n)[i].prefix) + [Shorter(u, n)[i]] == MovedUpTo(u, n, i + 1)
  {
    var s := Shorter(u, n);
    RemoveNext(u, n, i);
    RemoveLeft(DropShorter(u, n, i), s[..i], s[i]);
    assert s[..i + 1] == s[..i] + [s[i]];
  }
}
