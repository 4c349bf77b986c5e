/** Decimal numbers and space-separated tokens. */
module Text {

  function Digit(d: nat): char
    requires d < 10
  {
    ('0' as int + d) as char
  }

  predicate IsDigit(c: char) {
    '0' <= c <= '9'
  }

  predicate AllDigits(s: string) {
    forall c :: c in s ==> IsDigit(c)
  }

  /** The decimal digits of a number. */
  function Dec(n: nat): (s: string)
    ensures s != [] && AllDigits(s)
  {
    if n < 10 then [Digit(n)] else Dec(n / 10) + [Digit(n % 10)]
  }

  function DecInt(n: int): string {
    if n < 0 then "-" + Dec(-n) else Dec(n)
  }

  function Atoi(s: string): nat
    requires AllDigits(s)
  {
    if s == [] then 0
    else
      assert IsDigit(s[|s| - 1]);
      Atoi(s[..|s| - 1]) * 10 + (s[|s| - 1] as int - '0' as int)
  }

  lemma {:induction false} AtoiDec(n: nat)
    ensures Atoi(Dec(n)) == n
  {
    if n >= 10 {
      AtoiDec(n / 10);
      assert Dec(n)[..|Dec(n)| - 1] == Dec(n / 10);
    } else {
      assert Atoi([Digit(n)]) == Atoi([]) * 10 + n by {
        assert [Digit(n)][..0] == [];
      }
    }
  }

  // ----- tokens -----

  /** A piece of text that holds no separator. */
  predicate IsToken(t: string, sep: char) {
    t != [] && sep !in t
  }

  predicate Token(t: string) {
    IsToken(t, ' ')
  }

  function Cut(t: string): seq<string> {
    if t == [] then [] else [t]
  }

  /** The tokens of s between runs of separators, when cur has been read of the first one. */
  function TokensFrom(cur: string, s: string, sep: char): seq<string>
    decreases |s|
  {
    if s == [] then Cut(cur)
    else if s[0] == sep then Cut(cur) + TokensFrom([], s[1..], sep)
    else TokensFrom(cur + [s[0]], s[1..], sep)
  }

  function Split(s: string, sep: char): seq<string> {
    TokensFrom([], s, sep)
  }

  function Tokens(s: string): seq<string> {
    Split(s, ' ')
  }

  function Join(ts: seq<string>, sep: char): string {
    if |ts| == 0 then [] else if |ts| == 1 then ts[0] else ts[0] + [sep] + Join(ts[1..], sep)
  }

  lemma {:induction false} ReadToken(cur: string, t: string, rest: string, sep: char)
    requires sep !in t
    ensures TokensFrom(cur, t + rest, sep) == TokensFrom(cur + t, rest, sep)
    decreases |t|
  {
    if t == [] {
      assert t + rest == rest && cur + t == cur;
    } else {
      assert (t + rest)[0] == t[0] && (t + rest)[1..] == t[1..] + rest;
      ReadToken(cur + [t[0]], t[1..], rest, sep);
      assert cur + [t[0]] + t[1..] == cur + t;
    }
  }

  /** Two tokens around a separator. */
  lemma SplitPair(t: string, u: string, sep: char)
    requires IsToken(t, sep) && IsToken(u, sep)
    ensures Split(t + [sep] + u, sep) == [t, u]
  {
    ReadToken([], t, [sep] + u, sep);
    assert t + [sep] + u == t + ([sep] + u) && [] + t == t && ([sep] + u)[1..] == u;
    ReadToken([], u, [], sep);
    assert u + [] == u && [] + u == u;
  }

  /** Splitting joined tokens gives them back. */
  lemma {:induction false} SplitOfJoin(ts: seq<string>, sep: char)
    requires forall t :: t in ts ==> IsToken(t, sep)
    ensures Split(Join(ts, sep), sep) == ts
  {
    if ts != [] {
      assert ts[0] in ts && [] + ts[0] == ts[0];
    }
    if |ts| == 1 {
      ReadToken([], ts[0], [], sep);
      assert ts[0] + [] == ts[0];
    } else if |ts| > 1 {
      var rest := Join(ts[1..], sep);
      SplitOfJoin(ts[1..], sep);
      ReadToken([], ts[0], [sep] + rest, sep);
      assert ts[0] + [sep] + rest == ts[0] + ([sep] + rest);
      assert ([sep] + rest)[0] == sep && ([sep] + rest)[1..] == rest;
      assert [ts[0]] + ts[1..] == ts;
    }
  }

  /** The first separator splits a text in one way only. */
  lemma SplitAtFirst(a: string, b: string, c: string, d: string, sep: char)
    requires sep !in a && sep !in c && a + [sep] + b == c + [sep] + d
    ensures a == c && b == d
  {
    var s, t := a + [sep] + b, c + [sep] + d;
    assert s[|a|] == sep && t[|c|] == sep;
    assert forall i :: 0 <= i < |a| ==> s[i] == a[i] && s[i] != sep;
    assert forall i :: 0 <= i < |c| ==> t[i] == c[i] && t[i] != sep;
    assert s[..|a|] == a && t[..|c|] == c && s[|a| + 1..] == b && t[|c| + 1..] == d;
  }

  // ----- substrings -----

  ghost predicate OccursAt(p: string, s: string, i: nat) {
    i + |p| <= |s| && forall j {:trigger p[j]} :: 0 <= j < |p| ==> s[i + j] == p[j]
  }

  /** The text p occurs somewhere in s. */
  ghost predicate Occurs(p: string, s: string) {
    exists i: nat :: OccursAt(p, s, i)
  }

  /** The same test, executably. */
  predicate In(p: string, s: string)
    decreases |s|
  {
    p <= s || (s != [] && In(p, s[1..]))
  }

  /** An occurrence in a part is an occurrence in the whole. */
  lemma OccursWithin(p: string, a: string, s: string, b: string, i: nat)
    requires i + |p| <= |s|
    ensures OccursAt(p, a + s + b, |a| + i) <==> OccursAt(p, s, i)
  {
    var t := a + s + b;
    assert forall j {:trigger p[j]} :: 0 <= j < |p| ==> t[|a| + i + j] == s[i + j];
  }

  lemma OccursPart(p: string, a: string, s: string, b: string)
    requires Occurs(p, s)
    ensures Occurs(p, a + s + b)
  {
    var i: nat :| OccursAt(p, s, i);
    OccursWithin(p, a, s, b, i);
  }

  lemma {:induction false} InIsOccurs(p: string, s: string)
    ensures In(p, s) <==> Occurs(p, s)
    decreases |s|
  {
    if p <= s {
      assert OccursAt(p, s, 0);
    } else {
      assert !OccursAt(p, s, 0) by { NotAtStart(p, s); }
      if s != [] {
        InIsOccurs(p, s[1..]);
        OccursLater(p, s);
      }
    }
  }

  lemma NotAtStart(p: string, s: string)
    ensures OccursAt(p, s, 0) <==> p <= s
  {
    if OccursAt(p, s, 0) {
      assert forall j :: 0 <= j < |p| ==> s[0 + j] == p[j];
    }
  }

  lemma OccursLater(p: string, s: string)
    requires s != [] && !OccursAt(p, s, 0)
    ensures Occurs(p, s[1..]) <==> Occurs(p, s)
  {
    hide OccursAt;
    var rest := s[1..];
    assert [s[0]] + rest + [] == s;
    if Occurs(p, rest) {
      OccursPart(p, [s[0]], rest, []);
    }
    if Occurs(p, s) {
      var i: nat :| OccursAt(p, s, i);
      OccursFits(p, s, i);
      OccursWithin(p, [s[0]], rest, [], i - 1);
      assert OccursAt(p, rest, i - 1);
    }
  }

  lemma OccursFits(p: string, s: string, i: nat)
    requires OccursAt(p, s, i)
    ensures i + |p| <= |s|
  {
  }

  lemma OccursItself(p: string)
    ensures Occurs(p, p)
  {
    assert OccursAt(p, p, 0);
  }
}
