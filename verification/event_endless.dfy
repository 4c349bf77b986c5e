/** When the in-place rewriting of placeholders runs for ever: for templates with any number of
    placeholders and for any value, the exact condition on the template, the key and the value. */
module EventEndless {
  import opened Options
  import opened EventText

  // ----- where a placeholder stands -----

  predicate KeyAt(s: string, i: nat, k: string): (here: bool)
    ensures here ==> i + |k| + 2 <= |s|
  {
    i + |k| + 2 <= |s| && s[i] == '{' && s[i + 1 + |k|] == '}' && forall x :: 0 <= x < |k| ==> s[i + 1 + x] == k[x]
  }

  lemma {:induction false} FoundExactly(s: string, k: string)
    ensures Find(s, Key(k)).Some? <==> exists i: nat :: KeyAt(s, i, k)
  {
    hide Find;
    if Find(s, Key(k)).Some? {
      var i := Find(s, Key(k)).value;
      assert s[i..i + |Key(k)|] == Key(k);
      KeyChars(s, i, k);
    }
    if i: nat :| KeyAt(s, i, k) {
      assert s == s[..i] + Key(k) + s[i + |k| + 2..] by { KeySplits(s, i, k); }
      FoundWithin(s[..i], Key(k), s[i + |k| + 2..]);
    }
  }

  lemma KeyChars(s: string, i: nat, k: string)
    requires i + |k| + 2 <= |s| && s[i..i + |k| + 2] == Key(k)
    ensures KeyAt(s, i, k)
  {
    var t := s[i..i + |k| + 2];
    assert t[0] == s[i] && t[1 + |k|] == s[i + 1 + |k|];
    forall x | 0 <= x < |k| ensures s[i + 1 + x] == k[x] {
      assert t[1 + x] == Key(k)[1 + x];
    }
  }

  lemma KeySplits(s: string, i: nat, k: string)
    requires KeyAt(s, i, k)
    ensures s == s[..i] + Key(k) + s[i + |k| + 2..]
  {
    assert s[i..i + |k| + 2] == Key(k);
  }

  predicate ClosedAfter(s: string, i: nat) {
    exists j :: i < j < |s| && s[j] == '}'
  }

  predicate OpenedBefore(s: string, j: nat)
    requires j <= |s|
  {
    exists i :: 0 <= i < j && s[i] == '{'
  }

  /** Each opening brace is closed later, and each closing brace was opened before. */
  predicate Closed(s: string) {
    forall i :: 0 <= i < |s| ==> (s[i] == '{' ==> ClosedAfter(s, i)) && (s[i] == '}' ==> OpenedBefore(s, i))
  }

  lemma ClosedLeft(a: string, b: string, i: nat)
    requires i < |a|
    ensures ClosedAfter(a, i) ==> ClosedAfter(a + b, i)
    ensures OpenedBefore(a, i) ==> OpenedBefore(a + b, i)
  {
    var s := a + b;
    assert forall j :: 0 <= j < |a| ==> s[j] == a[j];
  }

  lemma ClosedRight(a: string, b: string, i: nat)
    requires i < |b|
    ensures ClosedAfter(b, i) ==> ClosedAfter(a + b, |a| + i)
    ensures OpenedBefore(b, i) ==> OpenedBefore(a + b, |a| + i)
  {
    var s := a + b;
    if j :| i < j < |b| && b[j] == '}' {
      assert s[|a| + j] == '}';
    }
    if j :| 0 <= j < i && b[j] == '{' {
      assert s[|a| + j] == '{';
    }
  }

  lemma ClosedAppend(a: string, b: string)
    requires Closed(a) && Closed(b)
    ensures Closed(a + b)
  {
    hide ClosedAfter, OpenedBefore;
    var s := a + b;
    forall i | 0 <= i < |s|
      ensures (s[i] == '{' ==> ClosedAfter(s, i)) && (s[i] == '}' ==> OpenedBefore(s, i))
    {
      if i < |a| {
        assert s[i] == a[i];
        ClosedLeft(a, b, i);
      } else {
        assert s[i] == b[i - |a|];
        ClosedRight(a, b, i - |a|);
      }
    }
  }

  lemma {:induction false} FlatIsClosed(ps: seq<Piece>)
    requires Flat(ps)
    ensures Closed(Show(ps))
  {
    if ps != [] {
      FlatIsClosed(ps[1..]);
      assert Closed(ShowPiece(ps[0])) by {
        if ps[0].Hole? {
          var t := Key(ps[0].name);
          assert t[0] == '{' && t[|t| - 1] == '}';
        }
      }
      ClosedAppend(ShowPiece(ps[0]), Show(ps[1..]));
    }
  }

  /** There are no braces between those of a placeholder. */
  lemma InsideKey(s: string, i: nat, k: string)
    requires KeyAt(s, i, k) && BraceFree(k)
    ensures forall y :: i < y < i + 1 + |k| ==> s[y] != '{' && s[y] != '}'
  {
    assert forall y :: i < y < i + 1 + |k| ==> s[y] == k[y - i - 1];
  }

  /** A placeholder that begins in closed text ends there, too. */
  lemma EndsThere(a: string, rest: string, i: nat, k: string)
    requires Closed(a) && BraceFree(k) && KeyAt(a + rest, i, k) && i < |a|
    ensures KeyAt(a, i, k)
  {
    var s := a + rest;
    assert a[i] == s[i];
    var j :| i < j < |a| && a[j] == '}';
    assert s[j] == '}';
    InsideKey(s, i, k);
    assert forall x :: 0 <= x < |k| ==> a[i + 1 + x] == k[x];
  }

  /** A placeholder that ends in closed text begins there, too. */
  lemma BeginsThere(rest: string, b: string, i: nat, k: string)
    requires Closed(b) && BraceFree(k) && KeyAt(rest + b, i, k) && i + 1 + |k| >= |rest|
    ensures i >= |rest| && KeyAt(b, i - |rest|, k)
  {
    var s, n := rest + b, |rest|;
    var e := i + 1 + |k| - n;
    assert b[e] == s[n + e];
    var j :| 0 <= j < e && b[j] == '{';
    assert s[n + j] == '{';
    InsideKey(s, i, k);
    assert forall x :: 0 <= x < |k| ==> b[i - n + 1 + x] == k[x];
    assert b[i - n] == s[i];
  }

  /** The placeholder stands nowhere in the text. */
  ghost predicate Clear(s: string, k: string) {
    forall i: nat :: !KeyAt(s, i, k)
  }

  lemma ClearIs(s: string, k: string)
    ensures Clear(s, k) <==> Find(s, Key(k)) == None
  {
    hide Find, KeyAt;
    FoundExactly(s, k);
  }

  // ----- rewriting in any order -----

  /** The text with the placeholder at i replaced. */
  function Put(s: string, i: nat, k: string, v: string): string
    requires i + |k| + 2 <= |s|
  {
    s[..i] + v + s[i + |k| + 2..]
  }

  /** Replacing n placeholders, one after another in some order, leads to r, which has none. */
  ghost predicate Settles(s: string, k: string, v: string, n: nat, r: string)
    decreases n
  {
    if n == 0 then s == r && Clear(s, k)
    else exists i: nat :: KeyAt(s, i, k) && Settles(Put(s, i, k, v), k, v, n - 1, r)
  }

  lemma PutAt(a: string, k: string, b: string, v: string)
    ensures KeyAt(a + Key(k) + b, |a|, k) && Put(a + Key(k) + b, |a|, k, v) == a + v + b
  {
    var s := a + Key(k) + b;
    assert s[|a|..|a| + |k| + 2] == Key(k);
    KeyChars(s, |a|, k);
    assert s[..|a|] == a && s[|a| + |k| + 2..] == b;
  }

  lemma SettlesStep(a: string, k: string, b: string, v: string, n: nat, r: string)
    requires Settles(a + v + b, k, v, n, r)
    ensures Settles(a + Key(k) + b, k, v, n + 1, r)
  {
    hide KeyAt, Put, Key;
    PutAt(a, k, b, v);
    assert KeyAt(a + Key(k) + b, |a|, k);
  }

  /** Two placeholders do not overlap. */
  lemma Apart(s: string, i: nat, j: nat, k: string)
    requires BraceFree(k) && KeyAt(s, i, k) && KeyAt(s, j, k) && i < j
    ensures i + |k| + 2 <= j
  {
    InsideKey(s, i, k);
  }

  /** The order in which two placeholders are replaced does not matter. */
  lemma Diamond(s: string, i: nat, j: nat, k: string, v: string)
    requires BraceFree(k) && KeyAt(s, i, k) && KeyAt(s, j, k) && i < j
    ensures i + |k| + 2 <= j
    ensures var j' := j + |v| - |k| - 2;
      && KeyAt(Put(s, j, k, v), i, k) && KeyAt(Put(s, i, k, v), j', k)
      && Put(Put(s, j, k, v), i, k, v) == Put(Put(s, i, k, v), j', k, v)
  {
    hide Key, Put, KeyAt;
    Apart(s, i, j, k);
    var a, b, c := s[..i], s[i + |k| + 2..j], s[j + |k| + 2..];
    TwoApart(s, i, j, k);
    var x := a + v + b;
    PutAt(a, k, b + Key(k) + c, v);
    Group(a, Key(k), b, Key(k), c);
    Group(a, v, b, Key(k), c);
    PutAt(a + Key(k) + b, k, c, v);
    Group(a, Key(k), b, v, c);
    PutAt(x, k, c, v);
    PutAt(a, k, b + v + c, v);
    Group(a, v, b, v, c);
  }

  lemma Group(a: string, p: string, b: string, q: string, c: string)
    ensures a + p + b + q + c == a + p + (b + q + c)
  {
  }

  /** A text with two placeholders. */
  lemma TwoApart(s: string, i: nat, j: nat, k: string)
    requires KeyAt(s, i, k) && KeyAt(s, j, k) && i + |k| + 2 <= j
    ensures s == s[..i] + Key(k) + s[i + |k| + 2..j] + Key(k) + s[j + |k| + 2..]
  {
    assert s[i..i + |k| + 2] == Key(k) && s[j..j + |k| + 2] == Key(k);
  }

  /** If some order leads to a text without placeholders, then every order does, to the same text and
      after as many replacements. */
  lemma {:induction false} AnyOrder(s: string, i: nat, k: string, v: string, n: nat, r: string)
    requires BraceFree(k) && KeyAt(s, i, k) && Settles(s, k, v, n, r)
    ensures n > 0 && Settles(Put(s, i, k, v), k, v, n - 1, r)
    decreases n
  {
    hide KeyAt, Put, BraceFree;
    if n > 0 {
      var j: nat :| KeyAt(s, j, k) && Settles(Put(s, j, k, v), k, v, n - 1, r);
      if i < j {
        Diamond(s, i, j, k, v);
        AnyOrder(Put(s, j, k, v), i, k, v, n - 1, r);
        assert KeyAt(Put(s, i, k, v), j + |v| - |k| - 2, k);
      } else if j < i {
        Diamond(s, j, i, k, v);
        AnyOrder(Put(s, j, k, v), i + |v| - |k| - 2, k, v, n - 1, r);
        assert KeyAt(Put(s, i, k, v), j, k);
      }
    }
  }

  /** The loop ends exactly if some order of replacing does, and with the same text. */
  lemma {:induction false} LoopSettles(s: string, k: string, v: string, n: nat, r: string)
    requires BraceFree(k) && Settles(s, k, v, n, r)
    ensures Ends(s, Key(k), v) && Loop(s, Key(k), v) == r
    decreases n
  {
    hide Find, Ends, Loop, KeyAt;
    ClearIs(s, k);
    if Find(s, Key(k)) == None {
      NoRound(s, Key(k), v);
      assert n == 0;
    } else {
      var i := FirstKey(s, k, v);
      AnyOrder(s, i, k, v, n, r);
      LoopSettles(Put(s, i, k, v), k, v, n - 1, r);
      OneRound(s, Key(k), v);
    }
  }

  lemma FirstKey(s: string, k: string, v: string) returns (i: nat)
    requires Find(s, Key(k)).Some?
    ensures i == Find(s, Key(k)).value && KeyAt(s, i, k) && Rewrite(s, i, |Key(k)|, v) == Put(s, i, k, v)
  {
    hide Find;
    i := Find(s, Key(k)).value;
    KeyChars(s, i, k);
  }

  lemma {:induction false} LoopIsOrder(s: string, k: string, v: string, m: nat) returns (n: nat)
    requires BraceFree(k) && EndsWithin(s, Key(k), v, m)
    ensures n <= m && Settles(s, k, v, n, Rewrites(s, Key(k), v, m))
    decreases m
  {
    hide Find, KeyAt;
    ClearIs(s, k);
    if Find(s, Key(k)) == None {
      n := 0;
    } else {
      var i := FirstKey(s, k, v);
      n := LoopIsOrder(Put(s, i, k, v), k, v, m - 1);
      n := n + 1;
      assert KeyAt(s, i, k) && Settles(Put(s, i, k, v), k, v, n - 1, Rewrites(s, Key(k), v, m));
    }
  }

  // ----- values that lock with themselves -----

  function Head(v: string): (h: string)
    ensures |h| <= |v| && h == v[..|h|] && forall x :: 0 <= x < |h| ==> v[x] != '{' && v[x] != '}'
    ensures |h| < |v| ==> v[|h|] == '{' || v[|h|] == '}'
  {
    if v == [] || v[0] == '{' || v[0] == '}' then [] else [v[0]] + Head(v[1..])
  }

  function Last(v: string): (t: string)
    ensures |t| <= |v| && t == v[|v| - |t|..] && forall x :: |v| - |t| <= x < |v| ==> v[x] != '{' && v[x] != '}'
    ensures |t| < |v| ==> v[|v| - |t| - 1] == '{' || v[|v| - |t| - 1] == '}'
  {
    if v == [] || v[|v| - 1] == '{' || v[|v| - 1] == '}' then [] else Last(v[..|v| - 1]) + [v[|v| - 1]]
  }

  predicate IsSuffix(a: string, s: string) {
    |a| <= |s| && s[|s| - |a|..] == a
  }

  /** The value begins with the end of a placeholder. */
  predicate Closes(k: string, v: string) {
    |Head(v)| < |v| && v[|Head(v)|] == '}' && IsSuffix(Head(v), k)
  }

  /** The value ends with the beginning of a placeholder. */
  predicate Opens(k: string, v: string) {
    |Last(v)| < |v| && v[|v| - |Last(v)| - 1] == '{' && Last(v) <= k
  }

  /** What the value still needs before it to be the end of a placeholder, and behind it to be the
      beginning of one. */
  function Missing(k: string, v: string): (e: string)
    requires Closes(k, v)
  {
    ['{'] + k[..|k| - |Head(v)|]
  }

  function Wanting(k: string, v: string): (b: string)
    requires Opens(k, v)
  {
    k[|Last(v)|..] + ['}']
  }

  /** The value without the end of a placeholder at its beginning, and without the beginning of one
      at its end. */
  function Behead(v: string): string
    requires |Head(v)| < |v|
  {
    v[|Head(v)| + 1..]
  }

  function Curtail(v: string): string
    requires |Last(v)| < |v|
  {
    v[..|v| - |Last(v)| - 1]
  }

  /** What is left of the value between the two. */
  function Middle(v: string): string
    requires |Head(v)| + |Last(v)| + 2 <= |v|
  {
    v[|Head(v)| + 1..|v| - |Last(v)| - 1]
  }

  /** The text between two copies of the value that makes one placeholder of their ends. */
  function Joint(k: string, v: string): string
    requires |Head(v)| + |Last(v)| <= |k|
  {
    k[|Last(v)|..|k| - |Head(v)|]
  }

  /** Two copies of the value with that text between them hold a placeholder. */
  predicate Joins(k: string, v: string) {
    && Closes(k, v) && Opens(k, v)
    && |Head(v)| + |Last(v)| <= |k| && |Head(v)| + |Last(v)| + 2 <= |v|
  }

  /** And replacing it makes a placeholder on either side of the new copy. */
  predicate Nests(k: string, v: string) {
    Joins(k, v) && Wanting(k, v) <= Middle(v) && IsSuffix(Missing(k, v), Middle(v))
  }

  // ----- values that grow for ever -----

  /** The value has an end of a placeholder, a middle, and a beginning of one. */
  lemma Parts(k: string, v: string)
    requires Joins(k, v)
    ensures v == (Head(v) + ['}']) + Middle(v) + (['{'] + Last(v))
  {
    hide Head, Last;
    ThreeAround(v, |Head(v)|, |v| - |Last(v)| - 1);
  }

  lemma ThreeAround(v: string, i: nat, j: nat)
    requires i < j < |v|
    ensures v == (v[..i] + [v[i]]) + v[i + 1..j] + ([v[j]] + v[j + 1..])
  {
  }

  /** The end and the beginning of a placeholder with what is missing, wanted or between them. */
  lemma Locks(k: string, v: string)
    requires Joins(k, v)
    ensures (['{'] + Last(v)) + Wanting(k, v) == Key(k)
    ensures Missing(k, v) + (Head(v) + ['}']) == Key(k)
    ensures (['{'] + Last(v)) + Joint(k, v) + (Head(v) + ['}']) == Key(k)
  {
    hide Head, Last, Key;
    var t, h := |Last(v)|, |k| - |Head(v)|;
    assert Last(v) == k[..t] && Head(v) == k[h..];
    KeyCut(k, t);
    KeyCut(k, h);
    KeyCutTwice(k, t, h);
  }

  lemma KeyCut(k: string, i: nat)
    requires i <= |k|
    ensures Key(k) == (['{'] + k[..i]) + (k[i..] + ['}'])
  {
    assert k == k[..i] + k[i..];
  }

  lemma KeyCutTwice(k: string, i: nat, j: nat)
    requires i <= j <= |k|
    ensures Key(k) == (['{'] + k[..i]) + k[i..j] + (k[j..] + ['}'])
  {
    assert k == k[..i] + k[i..j] + k[j..];
  }

  lemma Inner(k: string, v: string) returns (m: string, n: string)
    requires Nests(k, v)
    ensures Middle(v) == m + Missing(k, v) && Middle(v) == Wanting(k, v) + n
  {
    hide Head, Last;
    m := Middle(v)[..|Middle(v)| - |Missing(k, v)|];
    n := Middle(v)[|Wanting(k, v)|..];
  }

  lemma Inside(x: string, h: string, m: string, t: string, b: string, y: string)
    ensures x + (h + m + t) + b + y == (x + h + m) + (t + b) + y
  {
  }

  lemma Outside(x: string, e: string, h: string, m: string, t: string, y: string)
    ensures (x + e) + (h + m + t) + y == x + (e + h) + (m + t + y)
  {
  }

  lemma Onward(x: string, v: string, b: string, n: string, t: string, y: string)
    ensures x + v + (b + n + t + y) == x + v + b + (n + t + y)
  {
  }

  /** One replacement is the first of those that settle the text. */
  lemma First(a: string, k: string, b: string, v: string, n: nat, r: string)
    requires BraceFree(k) && Settles(a + Key(k) + b, k, v, n, r)
    ensures n > 0 && Settles(a + v + b, k, v, n - 1, r)
  {
    hide Key, KeyAt, Put, Settles;
    PutAt(a, k, b, v);
    AnyOrder(a + Key(k) + b, |a|, k, v, n, r);
  }

  /** Behind a copy of a nesting value, what is wanted there makes a placeholder; two replacements
      later there is another such copy. */
  lemma {:induction false} GrowsOn(x: string, y: string, k: string, v: string, n: nat, r: string)
    requires Nests(k, v) && BraceFree(k)
    ensures !Settles(x + v + Wanting(k, v) + y, k, v, n, r)
    decreases n
  {
    hide Key, Missing, Wanting, Middle, Settles, Head, Last, IsSuffix, Closes, Opens, BraceFree;
    if Settles(x + v + Wanting(k, v) + y, k, v, n, r) {
      var h, t, b, e, mid := Head(v) + ['}'], ['{'] + Last(v), Wanting(k, v), Missing(k, v), Middle(v);
      Parts(k, v);
      Locks(k, v);
      var m, m' := Inner(k, v);
      Inside(x, h, mid, t, b, y);
      First(x + h + mid, k, y, v, n, r);
      assert x + h + mid == x + h + m + e;
      Outside(x + h + m, e, h, mid, t, y);
      First(x + h + m, k, mid + t + y, v, n - 1, r);
      assert mid + t + y == b + m' + t + y;
      Onward(x + h + m, v, b, m', t, y);
      GrowsOn(x + h + m, m' + t + y, k, v, n - 2, r);
    }
  }

  /** Two placeholders with the joint between them grow for ever if the value nests. */
  lemma {:induction false} JointGrows(a: string, b: string, k: string, v: string, n: nat, r: string)
    requires Nests(k, v) && BraceFree(k)
    ensures !Settles(a + Key(k) + Joint(k, v) + Key(k) + b, k, v, n, r)
  {
    hide Key, Missing, Wanting, Middle, Settles, Head, Last, IsSuffix, Closes, Opens, BraceFree, Joint;
    var l := Joint(k, v);
    if Settles(a + Key(k) + l + Key(k) + b, k, v, n, r) {
      var h, t, mid := Head(v) + ['}'], ['{'] + Last(v), Middle(v);
      Parts(k, v);
      Locks(k, v);
      var m, m' := Inner(k, v);
      First(a + Key(k) + l, k, b, v, n, r);
      Group(a, Key(k), l, v, b);
      First(a, k, l + v + b, v, n - 1, r);
      Joined(a, h, mid, t, l, b);
      First(a + h + mid, k, mid + t + b, v, n - 2, r);
      assert mid + t + b == Wanting(k, v) + m' + t + b;
      Onward(a + h + mid, v, Wanting(k, v), m', t, b);
      GrowsOn(a + h + mid, m' + t + b, k, v, n - 3, r);
    }
  }

  lemma Joined(a: string, h: string, m: string, t: string, l: string, b: string)
    ensures a + (h + m + t) + (l + (h + m + t) + b) == (a + h + m) + (t + l + h) + (m + t + b)
  {
  }

  // ----- templates around their placeholders -----

  /** The pieces before the first placeholder for k, and those behind it. */
  function Before(ps: seq<Piece>, k: string): seq<Piece> {
    if ps == [] || ps[0] == Hole(k) then [] else [ps[0]] + Before(ps[1..], k)
  }

  function After(ps: seq<Piece>, k: string): (qs: seq<Piece>)
    ensures ps != [] ==> |qs| < |ps|
  {
    if ps == [] then [] else if ps[0] == Hole(k) then ps[1..] else After(ps[1..], k)
  }

  lemma {:induction false} FlatParts(ps: seq<Piece>, k: string)
    requires Flat(ps)
    ensures Flat(Before(ps, k)) && Offset(Before(ps, k), k) == None && Flat(After(ps, k))
  {
    if ps != [] && ps[0] != Hole(k) {
      FlatParts(ps[1..], k);
      var a := Before(ps[1..], k);
      assert ([ps[0]] + a)[1..] == a;
    }
  }

  lemma {:induction false} ShowParts(ps: seq<Piece>, k: string, v: string)
    requires Offset(ps, k).Some?
    ensures Show(ps) == Show(Before(ps, k)) + Key(k) + Show(After(ps, k))
    ensures Show(SubstOne(ps, k, v)) == Show(Before(ps, k)) + v + Show(SubstOne(After(ps, k), k, v))
  {
    hide Show, Key;
    var p, qs := ps[0], ps[1..];
    assert ps == [p] + qs;
    ShowCons(p, qs);
    if p == Hole(k) {
      ShowCons(Lit(v), SubstOne(qs, k, v));
      assert Show([]) == [] by { ShowNothing(); }
    } else {
      ShowParts(qs, k, v);
      ShowCons(p, Before(qs, k));
      ShowCons(p, SubstOne(qs, k, v));
      Regroup(ShowPiece(p), Show(Before(qs, k)), Key(k), Show(After(qs, k)));
      Regroup(ShowPiece(p), Show(Before(qs, k)), v, Show(SubstOne(After(qs, k), k, v)));
    }
  }

  lemma Regroup(a: string, b: string, c: string, d: string)
    ensures a + (b + c + d) == a + b + c + d
  {
  }

  /** Text without the placeholder stays so with flat text behind it that has none. */
  lemma ClearBehind(w: string, ps: seq<Piece>, k: string)
    requires Clear(w, k) && Flat(ps) && BraceFree(k) && Offset(ps, k) == None
    ensures Clear(w + Show(ps), k)
  {
    hide KeyAt, Closed, BraceFree, Flat, Show, Find;
    var b := Show(ps);
    FlatIsClosed(ps);
    FindInPieces(ps, k);
    ClearIs(b, k);
    forall i: nat ensures !KeyAt(w + b, i, k) {
      if KeyAt(w + b, i, k) {
        if i + |k| + 2 <= |w| {
          assert [] + w + b == w + b;
          KeyWithin([], w, b, i, k);
        } else {
          BeginsThere(w, b, i, k);
        }
      }
    }
  }

  lemma KeyWithin(a: string, s: string, b: string, i: nat, k: string)
    requires KeyAt(a + s + b, i, k) && |a| <= i && i + |k| + 2 <= |a| + |s|
    ensures KeyAt(s, i - |a|, k)
  {
    var t := a + s + b;
    assert forall j :: |a| <= j < |a| + |s| ==> t[j] == s[j - |a|];
    forall x | 0 <= x < |k| ensures s[i - |a| + 1 + x] == k[x] {
      assert t[i + 1 + x] == k[x];
    }
  }

  // ----- where copies of the value meet other text -----

  /** A placeholder that straddles the beginning of a value ends with the value's head. */
  lemma IntoValue(w: string, v: string, z: string, i: nat, k: string)
    requires BraceFree(k) && |Head(v)| < |v| && KeyAt(w + v + z, i, k) && i < |w| < i + |k| + 2
    ensures Closes(k, v) && i + |Missing(k, v)| == |w| && w[i..] == Missing(k, v)
  {
    hide Head;
    var s, h := w + v + z, |Head(v)|;
    InsideKey(s, i, k);
    assert forall j :: 0 <= j < |v| ==> s[|w| + j] == v[j];
    var e := i + |k| + 1 - |w|;
    assert s[|w| + h] == v[h];
    assert e <= h;
    assert s[|w| + e] == v[e] == '}';
    assert e == h;
    assert forall x :: 0 <= x < h ==> v[x] == s[|w| + x] == k[|k| - h + x];
    assert k[|k| - h..] == v[..h];
    assert forall j :: i <= j < |w| ==> s[j] == w[j];
    assert w[i..] == ['{'] + k[..|k| - h];
  }

  /** A placeholder that straddles the end of a value begins with the value's tail. */
  lemma OutOfValue(w: string, v: string, z: string, i: nat, k: string)
    requires BraceFree(k) && |Last(v)| < |v| && KeyAt(w + v + z, i, k)
    requires |w| <= i + |k| + 1 && i < |w| + |v| < i + |k| + 2
    ensures Opens(k, v) && i == |w| + |v| - |Last(v)| - 1
    ensures |Wanting(k, v)| <= |z| && z[..|Wanting(k, v)|] == Wanting(k, v)
  {
    hide Last;
    var s, t := w + v + z, |Last(v)|;
    var n := |w| + |v|;
    InsideKey(s, i, k);
    assert forall j :: 0 <= j < |v| ==> s[|w| + j] == v[j];
    assert s[n - t - 1] == v[|v| - t - 1];
    assert i >= n - t - 1;
    assert s[i] == v[i - |w|] == '{';
    assert i == n - t - 1;
    assert forall x :: 0 <= x < t ==> v[|v| - t + x] == s[i + 1 + x] == k[x];
    assert k[..t] == v[|v| - t..];
    assert forall j :: n <= j < |s| ==> s[j] == z[j - n];
    assert z[..|k| - t + 1] == k[t..] + ['}'];
  }

  lemma HeadBeforeLast(k: string, v: string)
    requires Closes(k, v) && Opens(k, v)
    ensures |Head(v)| + |Last(v)| + 2 <= |v|
  {
    hide Head, Last;
    var i, j := |Head(v)|, |v| - |Last(v)| - 1;
    assert v[i] == '}' && v[j] == '{';
    assert i != j && i <= j;
  }

  // ----- values whose ends never meet -----

  /** A copy of the value between two texts, where a placeholder can only be at the left border. */
  lemma OnlyLeft(w: string, v: string, z: string, i: nat, k: string)
    requires BraceFree(k) && Clear(w, k) && Clear(v + z, k) && |Head(v)| < |v| && KeyAt(w + v + z, i, k)
    ensures i < |w| && Closes(k, v) && w == w[..i] + Missing(k, v)
  {
    hide BraceFree, Head;
    if i + |k| + 2 <= |w| {
      assert [] + w + (v + z) == w + v + z;
      KeyWithin([], w, v + z, i, k);
    } else if i >= |w| {
      assert w + (v + z) + [] == w + v + z;
      KeyWithin(w, v + z, [], i, k);
    } else {
      IntoValue(w, v, z, i, k);
    }
  }

  /** What follows a beheaded copy does not reach back to the copy before it. */
  lemma ClearOver(v: string, z: string, k: string)
    requires BraceFree(k) && Closes(k, v) && '{' in v && Clear(v + Behead(v), k) && Clear(v + z, k)
    ensures Clear(v + (Behead(v) + z), k)
  {
    hide BraceFree, Head, KeyAt;
    var u, s := Behead(v), v + (Behead(v) + z);
    forall i: nat ensures !KeyAt(s, i, k) {
      if KeyAt(s, i, k) {
        if i + |k| + 2 <= |v + u| {
          assert [] + (v + u) + z == s;
          KeyWithin([], v + u, z, i, k);
        } else if i >= |v| {
          assert v[..|Head(v)| + 1] + (u + z) == v + z;
          assert v + (u + z) + [] == s;
          KeyWithin(v, u + z, [], i, k);
          KeyBehind(v[..|Head(v)| + 1], u + z, i - |v|, k);
        } else {
          OpensBehead(v);
          CoversNothing(v, u, z, i, k);
        }
      }
    }
  }

  lemma KeyBehind(a: string, s: string, i: nat, k: string)
    requires KeyAt(s, i, k)
    ensures KeyAt(a + s, |a| + i, k)
  {
    var t := a + s;
    assert forall j :: 0 <= j < |s| ==> t[|a| + j] == s[j];
    assert forall x :: 0 <= x < |k| ==> s[i + 1 + x] == k[x];
    forall x | 0 <= x < |k| ensures t[|a| + i + 1 + x] == k[x] {
      assert t[|a| + (i + 1 + x)] == s[i + 1 + x];
    }
  }

  lemma OpensBehead(v: string)
    requires |Head(v)| < |v| && v[|Head(v)|] == '}' && '{' in v
    ensures '{' in Behead(v)
  {
    hide Head;
    var j :| 0 <= j < |v| && v[j] == '{';
    assert j > |Head(v)| && Behead(v)[j - |Head(v)| - 1] == '{';
  }

  /** No placeholder covers text with a brace in it. */
  lemma CoversNothing(a: string, u: string, z: string, i: nat, k: string)
    requires BraceFree(k) && ('{' in u || '}' in u) && i < |a| && i + |k| + 2 > |a + u|
    ensures !KeyAt(a + (u + z), i, k)
  {
    var s := a + (u + z);
    var j :| 0 <= j < |u| && (u[j] == '{' || u[j] == '}');
    assert s[|a| + j] == u[j];
    if KeyAt(s, i, k) {
      InsideKey(s, i, k);
    }
  }

  /** If a copy of the value followed by a beheaded one holds no placeholder, then text without
      placeholders, one placeholder, and a flat rest settle: all that can happen is that the copies
      use up the left text. */
  lemma {:induction false} GoLeft(w: string, z: string, ps: seq<Piece>, k: string, v: string)
    returns (n: nat, r: string)
    requires BraceFree(k) && Flat(ps) && '{' in v && Clear(v, k) && Clear(w, k) && Clear(v + z, k)
    requires Closes(k, v) ==> Clear(v + Behead(v), k)
    ensures Settles(w + Key(k) + (z + Show(ps)), k, v, n, r)
    decreases |ps|, 1, |w|
  {
    hide KeyAt, Clear, Settles, Key, Show, Flat, BraceFree, Head, IsSuffix;
    var b := z + Show(ps);
    if Clear(w + v + z, k) {
      n, r := GoOnLeft(w + v + z, ps, k, v);
      assert w + v + z + Show(ps) == w + v + b;
    } else {
      var i := SomeKey(w + v + z, k);
      HasHead(v);
      OnlyLeft(w, v, z, i, k);
      ClearOver(v, z, k);
      ClearHalves(w[..i], Missing(k, v), k);
      n, r := GoLeft(w[..i], Behead(v) + z, ps, k, v);
      TakesLeft(w[..i], k, v, z, Show(ps));
    }
    SettlesStep(w, k, b, v, n, r);
    n := n + 1;
  }

  lemma ClearHalves(a: string, b: string, k: string)
    requires Clear(a + b, k)
    ensures Clear(a, k) && Clear(b, k)
  {
    hide KeyAt;
    forall i: nat ensures !KeyAt(a, i, k) {
      if KeyAt(a, i, k) {
        KeyBefore(a, b, i, k);
      }
    }
    forall i: nat ensures !KeyAt(b, i, k) {
      if KeyAt(b, i, k) {
        KeyBehind(a, b, i, k);
      }
    }
  }

  lemma KeyBefore(s: string, b: string, i: nat, k: string)
    requires KeyAt(s, i, k)
    ensures KeyAt(s + b, i, k)
  {
    var t := s + b;
    assert forall j :: 0 <= j < |s| ==> t[j] == s[j];
    forall x | 0 <= x < |k| ensures t[i + 1 + x] == k[x] {
      assert s[i + 1 + x] == k[x];
    }
  }

  lemma SomeKey(s: string, k: string) returns (i: nat)
    requires !Clear(s, k)
    ensures KeyAt(s, i, k)
  {
    i :| KeyAt(s, i, k);
  }

  lemma HasHead(v: string)
    requires '{' in v || '}' in v
    ensures |Head(v)| < |v|
  {
  }

  lemma TakesLeft(w: string, k: string, v: string, z: string, b: string)
    requires Closes(k, v)
    ensures w + Key(k) + ((Behead(v) + z) + b) == (w + Missing(k, v)) + v + (z + b)
  {
    hide Head, Key;
    var h := Head(v) + ['}'];
    assert v == h + Behead(v);
    assert Head(v) == k[|k| - |Head(v)|..];
    KeyCut(k, |k| - |Head(v)|);
    Outside(w, Missing(k, v), h, Behead(v), z, b);
    assert w + Key(k) + ((Behead(v) + z) + b) == w + Key(k) + (Behead(v) + z + b);
    assert (w + Missing(k, v)) + (h + Behead(v) + z) + b == (w + Missing(k, v)) + v + (z + b);
  }

  lemma {:induction false} GoOnLeft(w: string, ps: seq<Piece>, k: string, v: string) returns (n: nat, r: string)
    requires BraceFree(k) && Flat(ps) && '{' in v && Clear(v, k) && Clear(w, k)
    requires Closes(k, v) ==> Clear(v + Behead(v), k)
    ensures Settles(w + Show(ps), k, v, n, r)
    decreases |ps|, 0, 0
  {
    hide KeyAt, Clear, Key, Show, Flat, BraceFree, Head, IsSuffix, Offset;
    if Offset(ps, k) == None {
      ClearBehind(w, ps, k);
      n, r := 0, w + Show(ps);
    } else {
      var a, b := Before(ps, k), After(ps, k);
      FlatParts(ps, k);
      ShowParts(ps, k, v);
      ClearBehind(w, a, k);
      assert v + [] == v;
      HasPieces(ps, k);
      n, r := GoLeft(w + Show(a), [], b, k, v);
      Regroup(w, Show(a), Key(k), Show(b));
      assert [] + Show(b) == Show(b);
    }
  }

  lemma HasPieces(ps: seq<Piece>, k: string)
    requires Offset(ps, k).Some?
    ensures ps != []
  {
  }

  // ----- and the same from the other side -----

  /** The pieces before the last placeholder for k, and those behind it. */
  function BeforeLast(ps: seq<Piece>, k: string): (qs: seq<Piece>)
    ensures ps != [] ==> |qs| < |ps|
  {
    if ps == [] || Offset(ps[1..], k) == None then [] else [ps[0]] + BeforeLast(ps[1..], k)
  }

  function AfterLast(ps: seq<Piece>, k: string): seq<Piece> {
    if ps == [] then [] else if Offset(ps[1..], k) == None then ps[1..] else AfterLast(ps[1..], k)
  }

  lemma {:induction false} FlatLast(ps: seq<Piece>, k: string)
    requires Flat(ps)
    ensures Flat(BeforeLast(ps, k)) && Flat(AfterLast(ps, k)) && Offset(AfterLast(ps, k), k) == None
  {
    if ps != [] && Offset(ps[1..], k).Some? {
      FlatLast(ps[1..], k);
      var a := BeforeLast(ps[1..], k);
      assert ([ps[0]] + a)[1..] == a;
    }
  }

  lemma {:induction false} ShowLast(ps: seq<Piece>, k: string)
    requires Offset(ps, k).Some?
    ensures Show(ps) == Show(BeforeLast(ps, k)) + Key(k) + Show(AfterLast(ps, k))
  {
    hide Show, Key;
    var p, qs := ps[0], ps[1..];
    assert ps == [p] + qs;
    ShowCons(p, qs);
    if Offset(qs, k) == None {
      assert Show([]) == [] by { ShowNothing(); }
    } else {
      ShowLast(qs, k);
      ShowCons(p, BeforeLast(qs, k));
      Regroup(ShowPiece(p), Show(BeforeLast(qs, k)), Key(k), Show(AfterLast(qs, k)));
    }
  }

  lemma ClearBefore(w: string, ps: seq<Piece>, k: string)
    requires Clear(w, k) && Flat(ps) && BraceFree(k) && Offset(ps, k) == None
    ensures Clear(Show(ps) + w, k)
  {
    hide KeyAt, Closed, BraceFree, Flat, Show, Find;
    var a := Show(ps);
    FlatIsClosed(ps);
    FindInPieces(ps, k);
    ClearIs(a, k);
    forall i: nat ensures !KeyAt(a + w, i, k) {
      if KeyAt(a + w, i, k) {
        if i >= |a| {
          assert a + w + [] == a + w;
          KeyWithin(a, w, [], i, k);
        } else {
          EndsThere(a, w, i, k);
        }
      }
    }
  }

  /** A copy of the value between two texts, where a placeholder can only be at the right border. */
  lemma OnlyRight(z: string, v: string, w: string, i: nat, k: string)
    requires BraceFree(k) && Clear(z + v, k) && Clear(w, k) && |Last(v)| < |v| && KeyAt(z + v + w, i, k)
    ensures Opens(k, v) && |Wanting(k, v)| <= |w| && w[..|Wanting(k, v)|] == Wanting(k, v)
  {
    hide BraceFree, Last;
    if i + |k| + 2 <= |z + v| {
      assert [] + (z + v) + w == z + v + w;
      KeyWithin([], z + v, w, i, k);
    } else if i >= |z + v| {
      assert (z + v) + w + [] == z + v + w;
      KeyWithin(z + v, w, [], i, k);
    } else {
      OutOfValue(z, v, w, i, k);
    }
  }

  lemma ClearUnder(z: string, v: string, k: string)
    requires BraceFree(k) && Opens(k, v) && '}' in v && Clear(Curtail(v) + v, k) && Clear(z + v, k)
    ensures Clear((z + Curtail(v)) + v, k)
  {
    hide BraceFree, Last, KeyAt;
    var u, s, t := Curtail(v), (z + Curtail(v)) + v, v[|v| - |Last(v)| - 1..];
    assert u + t == v && z + v == (z + u) + t;
    forall i: nat ensures !KeyAt(s, i, k) {
      if KeyAt(s, i, k) {
        if i >= |z| {
          assert z + (u + v) + [] == s;
          KeyWithin(z, u + v, [], i, k);
        } else if i + |k| + 2 <= |z + u| {
          assert [] + (z + u) + v == s;
          KeyWithin([], z + u, v, i, k);
          KeyBefore(z + u, t, i, k);
        } else {
          ClosesCurtail(v);
          assert z + (u + v) == s;
          CoversNothing(z, u, v, i, k);
        }
      }
    }
  }

  lemma ClosesCurtail(v: string)
    requires |Last(v)| < |v| && v[|v| - |Last(v)| - 1] == '{' && '}' in v
    ensures '}' in Curtail(v)
  {
    hide Last;
    var j :| 0 <= j < |v| && v[j] == '}';
    assert j < |v| - |Last(v)| - 1 && Curtail(v)[j] == '}';
  }

  /** If a curtailed copy of the value followed by a whole one holds no placeholder, then a flat
      text, one placeholder, and text without placeholders settle. */
  lemma {:induction false} GoRight(ps: seq<Piece>, z: string, w: string, k: string, v: string)
    returns (n: nat, r: string)
    requires BraceFree(k) && Flat(ps) && '}' in v && Clear(v, k) && Clear(w, k) && Clear(z + v, k)
    requires Opens(k, v) ==> Clear(Curtail(v) + v, k)
    ensures Settles((Show(ps) + z) + Key(k) + w, k, v, n, r)
    decreases |ps|, 1, |w|
  {
    hide KeyAt, Clear, Settles, Key, Show, Flat, BraceFree, Last;
    var a := Show(ps) + z;
    if Clear(z + v + w, k) {
      n, r := GoOnRight(ps, z + v + w, k, v);
      assert Show(ps) + (z + v + w) == a + v + w;
    } else {
      var i := SomeKey(z + v + w, k);
      HasLast(v);
      OnlyRight(z, v, w, i, k);
      ClearUnder(z, v, k);
      var y := w[|Wanting(k, v)|..];
      assert w == Wanting(k, v) + y;
      ClearHalves(Wanting(k, v), y, k);
      n, r := GoRight(ps, z + Curtail(v), y, k, v);
      TakesRight(Show(ps), z, v, k, y);
    }
    SettlesStep(a, k, w, v, n, r);
    n := n + 1;
  }

  lemma HasLast(v: string)
    requires '{' in v || '}' in v
    ensures |Last(v)| < |v|
  {
  }

  lemma TakesRight(a: string, z: string, v: string, k: string, w: string)
    requires Opens(k, v)
    ensures (a + (z + Curtail(v))) + Key(k) + w == (a + z) + v + (Wanting(k, v) + w)
  {
    hide Last, Key;
    var t := ['{'] + Last(v);
    assert v == Curtail(v) + t;
    assert Last(v) == k[..|Last(v)|];
    KeyCut(k, |Last(v)|);
    assert (a + (z + Curtail(v))) + (t + Wanting(k, v)) + w == (a + z) + (Curtail(v) + t) + (Wanting(k, v) + w);
  }

  lemma {:induction false} GoOnRight(ps: seq<Piece>, w: string, k: string, v: string) returns (n: nat, r: string)
    requires BraceFree(k) && Flat(ps) && '}' in v && Clear(v, k) && Clear(w, k)
    requires Opens(k, v) ==> Clear(Curtail(v) + v, k)
    ensures Settles(Show(ps) + w, k, v, n, r)
    decreases |ps|, 0, 0
  {
    hide KeyAt, Clear, Key, Show, Flat, BraceFree, Last, Offset;
    if Offset(ps, k) == None {
      ClearBefore(w, ps, k);
      n, r := 0, Show(ps) + w;
    } else {
      var a, b := BeforeLast(ps, k), AfterLast(ps, k);
      FlatLast(ps, k);
      ShowLast(ps, k);
      ClearBefore(w, b, k);
      assert [] + v == v;
      HasPieces(ps, k);
      n, r := GoRight(a, [], Show(b) + w, k, v);
      Padded(Show(a), Key(k), Show(b), w);
    }
  }

  lemma Padded(a: string, p: string, b: string, w: string)
    ensures (a + []) + p + (b + w) == (a + p + b) + w
  {
  }

  // ----- values whose copies never join -----

  /** Nothing in front of the copy that is about to be made, or a copy that was made before. */
  datatype Front = Begin | Copy(text: string, template: string)

  /** In the text so far and in the template so far. */
  predicate Fronts(f: Front, w: string, pre: string, k: string, v: string) {
    match f
    case Begin => w == [] && pre == []
    case Copy(x, q) => w == x + v && pre == q + Key(k)
  }

  /** Two copies of the value with flat text between them hold a placeholder only if that text is
      their joint. */
  lemma JoinedOnly(x: string, y: string, i: nat, k: string, v: string)
    requires BraceFree(k) && |Head(v)| < |v| && KeyAt(x + v + y + v, i, k)
    requires i < |x + v| && |x + v + y| < i + |k| + 2
    ensures Joins(k, v) && y == Joint(k, v)
  {
    hide Head, Last, BraceFree;
    assert x + v + (y + v) == x + v + y + v;
    assert (x + v + y) + v + [] == x + v + y + v;
    if i < |x| {
      assert x + (v + (y + v)) == x + v + y + v;
      assert v[|Head(v)|] in v;
      CoversNothing(x, v, y + v, i, k);
    } else {
      IntoValue(x + v + y, v, [], i, k);
      HasLast(v);
      OutOfValue(x, v, y + v, i, k);
      HeadBeforeLast(k, v);
      BetweenCopies(x, y, i, k, v);
    }
  }

  lemma BetweenCopies(x: string, y: string, i: nat, k: string, v: string)
    requires Closes(k, v) && Opens(k, v) && i == |x| + |v| - |Last(v)| - 1
    requires (x + v + y)[i..] == Missing(k, v)
    ensures |Head(v)| + |Last(v)| <= |k| && y == Joint(k, v)
  {
    hide Head, Last;
    var s, t := (x + v + y)[i..], |Last(v)|;
    assert s == v[|v| - t - 1..] + y;
    assert s[1 + t..] == y && |s| == 1 + |k| - |Head(v)|;
    assert s[1 + t..] == k[t..|k| - |Head(v)|];
  }

  /** The template in which two placeholders have the joint between them. */
  predicate JointOccurs(text: string, k: string, v: string)
    requires Joins(k, v)
  {
    Find(text, Key(k) + Joint(k, v) + Key(k)).Some?
  }

  /** After one more copy the text so far still holds no placeholder. */
  lemma ClearCopy(f: Front, w: string, pre: string, ps: seq<Piece>, rest: string, k: string, v: string)
    requires BraceFree(k) && Flat(ps) && Offset(ps, k) == None && Clear(w, k) && Clear(v, k) && Fronts(f, w, pre, k, v)
    requires Joins(k, v) ==> !JointOccurs(pre + Show(ps) + Key(k) + rest, k, v)
    ensures Clear(w + Show(ps) + v, k)
  {
    hide KeyAt, Clear, Key, Show, Flat, BraceFree, Head, Last, Find, Closed, Offset, Joint, Closes, Opens;
    var y := Show(ps);
    ClearBehind(w, ps, k);
    FlatIsClosed(ps);
    if !Clear(w + y + v, k) {
      var i := SomeKey(w + y + v, k);
      assert v + [] == v;
      Straddles(w + y, v, i, k);
      NotInside(w, y, v, i, k);
      var x := f.text;
      JoinedOnly(x, y, i, k, v);
      assert f.template + (Key(k) + y + Key(k)) + rest == pre + y + Key(k) + rest;
      FoundWithin(f.template, Key(k) + y + Key(k), rest);
    }
  }

  /** A placeholder in the last of two texts without placeholders begins in the first of them and
      ends with the head of the value. */
  lemma Straddles(a: string, v: string, i: nat, k: string)
    requires BraceFree(k) && Clear(a, k) && Clear(v, k) && KeyAt(a + v, i, k)
    ensures i < |a| < i + |k| + 2 && |Head(v)| < |v|
  {
    hide BraceFree, Head;
    assert [] + a + v == a + v && a + v + [] == a + v;
    if i + |k| + 2 <= |a| {
      KeyWithin([], a, v, i, k);
    } else if i >= |a| {
      KeyWithin(a, v, [], i, k);
    } else {
      var e := i + |k| + 1 - |a|;
      assert v[e] == (a + v)[|a| + e] == '}';
      HasHead(v);
    }
  }

  /** It does not begin in closed text that lies between. */
  lemma NotInside(w: string, y: string, v: string, i: nat, k: string)
    requires BraceFree(k) && Closed(y) && KeyAt(w + y + v, i, k) && |w + y| < i + |k| + 2
    ensures i < |w| || i >= |w + y|
  {
    hide BraceFree, Closed;
    if |w| <= i < |w + y| {
      assert w + (y + v) + [] == w + y + v;
      KeyWithin(w, y + v, [], i, k);
      EndsThere(y, v, i - |w|, k);
    }
  }

  /** If nowhere in the template two placeholders have the joint of the value between them, the loop
      substitutes each placeholder and ends. */
  lemma {:induction false} GoPlain(f: Front, w: string, pre: string, ps: seq<Piece>, k: string, v: string)
    returns (n: nat)
    requires BraceFree(k) && Flat(ps) && Clear(w, k) && Clear(v, k) && Fronts(f, w, pre, k, v)
    requires Joins(k, v) ==> !JointOccurs(pre + Show(ps), k, v)
    ensures Settles(w + Show(ps), k, v, n, w + Show(SubstOne(ps, k, v)))
    decreases |ps|
  {
    hide KeyAt, Clear, Key, Show, Flat, BraceFree, Offset, JointOccurs, Joins, SubstOne;
    if Offset(ps, k) == None {
      ClearBehind(w, ps, k);
      NoHoles(ps, k, v);
      n := 0;
    } else {
      var a, b := Before(ps, k), After(ps, k);
      FlatParts(ps, k);
      ShowParts(ps, k, v);
      HasPieces(ps, k);
      var pre' := pre + Show(a) + Key(k);
      Regroup(pre, Show(a), Key(k), Show(b));
      ClearCopy(f, w, pre, a, Show(b), k, v);
      n := GoPlain(Copy(w + Show(a), pre + Show(a)), w + Show(a) + v, pre', b, k, v);
      SettlesStep(w + Show(a), k, Show(b), v, n, w + Show(a) + v + Show(SubstOne(b, k, v)));
      n := n + 1;
      Regroup(w, Show(a), Key(k), Show(b));
      Regroup(w, Show(a), v, Show(SubstOne(b, k, v)));
    }
  }

  // ----- the two theorems -----

  /** A value for which a copy holds no placeholder gets stuck on one side or the other, unless it nests. */
  lemma OneSide(k: string, v: string)
    requires BraceFree(k) && Clear(v, k) && !Nests(k, v) && Joins(k, v)
    ensures Clear(v + Behead(v), k) || Clear(Curtail(v) + v, k)
  {
    hide KeyAt, BraceFree, Head, Last, Clear, Key, Nests, IsSuffix;
    if !Clear(v + Behead(v), k) && !Clear(Curtail(v) + v, k) {
      RightSide(k, v);
      LeftSide(k, v);
      NestsIs(k, v);
    }
  }

  lemma NestsIs(k: string, v: string)
    requires Joins(k, v) && Wanting(k, v) <= Middle(v) && IsSuffix(Missing(k, v), Middle(v))
    ensures Nests(k, v)
  {
  }

  lemma RightSide(k: string, v: string)
    requires BraceFree(k) && Clear(v, k) && Joins(k, v) && !Clear(v + Behead(v), k)
    ensures Wanting(k, v) <= Middle(v)
  {
    hide KeyAt, BraceFree, Head, Last, Clear, Key, Wanting, Behead, Middle;
    var u := Behead(v);
    BeheadCut(v);
    assert [] + v == v;
    ClearHalves(v[..|Head(v)| + 1], u, k);
    var i := SomeKey(v + u, k);
    OnlyRight([], v, u, i, k);
    EndsInMiddle(k, v);
  }

  lemma BeheadCut(v: string)
    requires |Head(v)| < |v|
    ensures v == v[..|Head(v)| + 1] + Behead(v)
  {
    hide Head;
  }

  lemma EndsInMiddle(k: string, v: string)
    requires Joins(k, v) && |Wanting(k, v)| <= |Behead(v)| && Behead(v)[..|Wanting(k, v)|] == Wanting(k, v)
    ensures Wanting(k, v) <= Middle(v)
  {
    hide Head, Last;
    var b, u, n := Wanting(k, v), Behead(v), |Head(v)| + 1;
    assert u[|b| - 1] == b[|b| - 1] == '}';
    assert u[|b| - 1] == v[n + |b| - 1];
    assert |b| <= |Middle(v)|;
    assert Middle(v) == u[..|Middle(v)|];
    assert Middle(v)[..|b|] == b;
  }

  lemma LeftSide(k: string, v: string)
    requires BraceFree(k) && Clear(v, k) && Joins(k, v) && !Clear(Curtail(v) + v, k)
    ensures IsSuffix(Missing(k, v), Middle(v))
  {
    hide KeyAt, BraceFree, Head, Last, Clear, Key, Missing, IsSuffix;
    var c := Curtail(v);
    assert c + v[|v| - |Last(v)| - 1..] == v && v + [] == v && c + v + [] == c + v;
    ClearHalves(c, v[|v| - |Last(v)| - 1..], k);
    var i := SomeKey(c + v, k);
    OnlyLeft(c, v, [], i, k);
    BeginsInMiddle(k, v, i);
  }

  lemma BeginsInMiddle(k: string, v: string, i: nat)
    requires Joins(k, v) && i <= |Curtail(v)| && Curtail(v) == Curtail(v)[..i] + Missing(k, v)
    ensures IsSuffix(Missing(k, v), Middle(v))
  {
    hide Head, Last;
    var e, c, n := Missing(k, v), Curtail(v), |Head(v)| + 1;
    assert c[i] == e[0] == '{' && c[i] == v[i];
    assert i >= n;
    assert Middle(v) == c[n..];
    assert c[i..] == e && Middle(v)[i - n..] == c[i..];
  }

  /** In a flat template the loop runs for ever exactly if a placeholder of the key occurs and either
      the value contains that placeholder, or the value nests and two placeholders have its joint
      between them. */
  lemma {:induction false} EndlessExactly(ps: seq<Piece>, k: string, v: string)
    requires Flat(ps) && BraceFree(k) && k != []
    ensures !Ends(Show(ps), Key(k), v) <==>
      Offset(ps, k).Some? && (Find(v, Key(k)).Some? || (Nests(k, v) && JointOccurs(Show(ps), k, v)))
  {
    hide KeyAt, Clear, Key, Show, Flat, BraceFree, Offset, Find, Ends, Settles, Joins, JointOccurs, Nests;
    FindInPieces(ps, k);
    LoopEnds(Show(ps), k, v);
    ClearIs(v, k);
    if Offset(ps, k) == None {
      NoRound(Show(ps), Key(k), v);
    } else if Find(v, Key(k)) == None {
      NestsJoins(k, v);
      if Nests(k, v) && JointOccurs(Show(ps), k, v) {
        NestingEndless(Show(ps), k, v);
      } else {
        OtherwiseEnds(ps, k, v);
      }
    }
  }

  lemma NestsJoins(k: string, v: string)
    ensures Nests(k, v) ==> Joins(k, v)
  {
  }

  lemma NestingEndless(s: string, k: string, v: string)
    requires BraceFree(k) && Nests(k, v) && JointOccurs(s, k, v)
    ensures !Ends(s, Key(k), v)
  {
    hide KeyAt, Clear, Key, BraceFree, Find, Settles, Joint, Nests;
    NestsJoins(k, v);
    var p := Key(k) + Joint(k, v) + Key(k);
    var i := Find(s, p).value;
    var a, b := s[..i], s[i + |p|..];
    assert s == a + Key(k) + Joint(k, v) + Key(k) + b;
    if Ends(s, Key(k), v) {
      var m: nat :| EndsWithin(s, Key(k), v, m);
      var n := LoopIsOrder(s, k, v, m);
      JointGrows(a, b, k, v, n, Rewrites(s, Key(k), v, m));
    }
  }

  lemma OtherwiseEnds(ps: seq<Piece>, k: string, v: string)
    requires Flat(ps) && BraceFree(k) && k != [] && Clear(v, k)
    requires Nests(k, v) ==> !JointOccurs(Show(ps), k, v)
    ensures Ends(Show(ps), Key(k), v)
  {
    hide KeyAt, Clear, Key, Show, Flat, BraceFree, Find, Ends, Loop, Settles, JointOccurs, Nests, Closes, Opens, Joins;
    var n, r;
    assert [] + Show(ps) == Show(ps) == Show(ps) + [];
    NoneInNothing(k);
    if !Joins(k, v) || !JointOccurs(Show(ps), k, v) {
      n := GoPlain(Begin, [], [], ps, k, v);
      r := [] + Show(SubstOne(ps, k, v));
    } else {
      OneSide(k, v);
      BothBraces(k, v);
      if Clear(v + Behead(v), k) {
        n, r := GoOnLeft([], ps, k, v);
      } else {
        n, r := GoOnRight(ps, [], k, v);
      }
    }
    LoopSettles(Show(ps), k, v, n, r);
  }

  lemma NoneInNothing(k: string)
    ensures Clear([], k)
  {
  }

  lemma BothBraces(k: string, v: string)
    requires Joins(k, v)
    ensures '{' in v && '}' in v && |Head(v)| < |v| && |Last(v)| < |v|
  {
    hide Head, Last;
    assert v[|Head(v)|] == '}' && v[|v| - |Last(v)| - 1] == '{';
  }

  /** The one-pass replacement replaces every placeholder. */
  lemma {:induction false} ReplaceSplits(a: string, k: string, b: string, v: string)
    requires BraceFree(k)
    ensures Replace(a + Key(k) + b, Key(k), v) == Replace(a, Key(k), v) + v + Replace(b, Key(k), v)
    decreases |a|
  {
    hide Key, KeyAt, BraceFree, Replace;
    var p := Key(k);
    KeyIsKey(k);
    if a == [] {
      assert a + p + b == p + b;
      ThisHole(k, b, v);
      assert Replace([], p, v) == [] by { ReplaceNothing(k, v); }
    } else if p <= a + p + b {
      KeyFirst(a + p + b, k);
      PutAt(a, k, b, v);
      Apart(a + p + b, 0, |a|, k);
      var c := a[|p|..];
      KeyDrops(a, p, b);
      ThisHole(k, c, v);
      ThisHole(k, c + p + b, v);
      ReplaceSplits(c, k, b, v);
      Regroup(v, Replace(c, p, v), v, Replace(b, p, v));
    } else {
      var x, c := [a[0]], a[1..];
      assert a == x + c;
      assert p <= a ==> p <= a + p + b;
      Regroup(x, c, p, b);
      Pass(a[0], c, p, v);
      Pass(a[0], c + p + b, p, v);
      ReplaceSplits(c, k, b, v);
      Regroup(x, Replace(c, p, v), v, Replace(b, p, v));
    }
  }

  lemma KeyDrops(a: string, p: string, b: string)
    requires |p| <= |a| && p <= a + p + b
    ensures a == p + a[|p|..] && a + p + b == p + (a[|p|..] + p + b)
  {
    assert a[..|p|] == (a + p + b)[..|p|] == p;
  }

  lemma KeyIsKey(k: string)
    ensures IsKey(Key(k))
  {
  }

  lemma KeyFirst(s: string, k: string)
    requires Key(k) <= s
    ensures KeyAt(s, 0, k) && |Key(k)| == |k| + 2
  {
    assert s[0..|k| + 2] == Key(k);
    KeyChars(s, 0, k);
  }

  /** Where two placeholders have the joint of the value between them, substituting both leaves a placeholder. */
  lemma JointStays(ps: seq<Piece>, k: string, v: string)
    requires Flat(ps) && BraceFree(k) && Joins(k, v) && JointOccurs(Show(ps), k, v)
    ensures !Clear(Show(SubstOne(ps, k, v)), k)
  {
    hide KeyAt, Key, Find, Replace, Head, Last, Middle, Joint, Closes, Opens, Show, SubstOne;
    var l, p, s := Joint(k, v), Key(k), Show(ps);
    var i := Find(s, p + l + p).value;
    var a, b := s[..i], s[i + |p + l + p|..];
    assert s == a + p + (l + p + b);
    ReplaceInPieces(ps, k, v);
    ReplaceSplits(a, k, l + p + b, v);
    ReplaceSplits(l, k, b, v);
    PlainJoint(k, v);
    Parts(k, v);
    Locks(k, v);
    var h, t, m := Head(v) + ['}'], ['{'] + Last(v), Middle(v);
    var x, y := Replace(a, p, v), Replace(b, p, v);
    assert x + v + (l + v + y) == (x + h + m) + (t + l + h) + (m + t + y) by { Joined(x, h, m, t, l, y); }
    PutAt(x + h + m, k, m + t + y, []);
  }

  lemma PlainJoint(k: string, v: string)
    requires BraceFree(k) && Joins(k, v)
    ensures Replace(Joint(k, v), Key(k), v) == Joint(k, v)
  {
    hide Replace, Key, Head, Last;
    var l := Joint(k, v);
    KeyIsKey(k);
    ReplaceNothing(k, v);
    assert '{' !in l;
    Skips(l, [], Key(k), v);
    assert l + [] == l;
  }

  /** In a flat template the loop ends and substitutes each placeholder exactly if none of the key
      occurs, or the value does not contain it and no two placeholders have the joint of the value
      between them. */
  lemma {:induction false} SubstitutedExactly(ps: seq<Piece>, k: string, v: string)
    requires Flat(ps) && BraceFree(k) && k != []
    ensures (Ends(Show(ps), Key(k), v) && Loop(Show(ps), Key(k), v) == Show(SubstOne(ps, k, v))) <==>
      Offset(ps, k) == None || (Find(v, Key(k)) == None && !(Joins(k, v) && JointOccurs(Show(ps), k, v)))
  {
    hide KeyAt, Clear, Key, Show, Flat, BraceFree, Offset, Find, Ends, Loop, Settles, Joins, JointOccurs, SubstOne;
    FindInPieces(ps, k);
    LoopEnds(Show(ps), k, v);
    ClearIs(v, k);
    if Offset(ps, k) == None {
      NoRound(Show(ps), Key(k), v);
      NoHoles(ps, k, v);
    } else if Find(v, Key(k)) == None {
      if Joins(k, v) && JointOccurs(Show(ps), k, v) {
        JointStays(ps, k, v);
        if Ends(Show(ps), Key(k), v) { LeavesNone(Show(ps), k, v); }
      } else {
        NoneInNothing(k);
        assert [] + Show(ps) == Show(ps) && [] + Show(SubstOne(ps, k, v)) == Show(SubstOne(ps, k, v));
        var n := GoPlain(Begin, [], [], ps, k, v);
        LoopSettles(Show(ps), k, v, n, Show(SubstOne(ps, k, v)));
      }
    }
  }

  lemma LeavesNone(s: string, k: string, v: string)
    requires Ends(s, Key(k), v)
    ensures Clear(Loop(s, Key(k), v), k)
  {
    hide KeyAt, Find, Key;
    ClearIs(Loop(s, Key(k), v), k);
  }

  const PAIR := [Hole("k"), Hole("k")]
  const GROWING := "k}k}{{"

  /** Two placeholders side by side and a value that does not contain them, on which the loop runs for ever. */
  lemma {:induction false} EndlessPair()
    ensures Flat(PAIR) && Find(GROWING, Key("k")) == None && !Ends(Show(PAIR), Key("k"), GROWING)
  {
    hide Ends, Show, Find, JointOccurs, Nests;
    PairShown();
    GrowingNests();
    GrowingClear();
    ClearIs(GROWING, "k");
    EndlessExactly(PAIR, "k", GROWING);
  }

  lemma PairShown()
    ensures Flat(PAIR) && Offset(PAIR, "k") == Some(0) && Show(PAIR) == Key("k") + Key("k")
  {
    hide Key;
    assert PAIR == [Hole("k")] + [Hole("k")] && [Hole("k")] == [Hole("k")] + [];
    ShowCons(Hole("k"), [Hole("k")]);
    ShowCons(Hole("k"), []);
    ShowNothing();
    assert PAIR[1..] == [Hole("k")];
  }

  lemma GrowingNests()
    ensures Nests("k", GROWING) && JointOccurs(Key("k") + Key("k"), "k", GROWING)
  {
    var v := GROWING;
    assert v[1..][0] == '}' && Head(v[1..]) == [] && Head(v) == ['k'];
    assert v[5] == '{' && Last(v) == [];
    assert Middle(v) == "k}{" && Wanting("k", v) == "k}" && Missing("k", v) == "{";
    assert Joint("k", v) == [];
    FoundWithin([], Key("k") + [] + Key("k"), []);
    assert [] + (Key("k") + [] + Key("k")) + [] == Key("k") + Key("k");
  }

  lemma GrowingClear()
    ensures Clear(GROWING, "k")
  {
    assert GROWING[0] == 'k' && GROWING[1] == '}' && GROWING[2] == 'k' && GROWING[3] == '}';
  }
}
