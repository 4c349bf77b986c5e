/** How an event's description template becomes the logged text: the key=value strings the
    callers build, the in-place rewriting of `{key}` placeholders with its static result buffer,
    and the one-pass replacement of the Python version as its simple form. */
module EventText {
  import opened Options
  import opened Text
  import opened EventSizes

  // ----- finding and rewriting -----

  /** The first occurrence of p in s. */
  function Find(s: string, p: string): (r: Option<nat>)
    ensures r.Some? ==> r.value + |p| <= |s| && s[r.value..r.value + |p|] == p
  {
    if p <= s then Some(0)
    else if s == [] then None
    else
      match Find(s[1..], p)
      case None => None
      case Some(i) =>
        assert s[1..][i..i + |p|] == s[i + 1..i + 1 + |p|];
        Some(i + 1)
  }

  function Rewrite(s: string, i: nat, size: nat, rep: string): string
    requires i + size <= |s|
  {
    s[..i] + rep + s[i + size..]
  }

  function Braces(s: string): nat {
    if s == [] then 0 else (if s[0] == '{' then 1 else 0) + Braces(s[1..])
  }

  lemma {:induction false} BracesAppend(a: string, b: string)
    ensures Braces(a + b) == Braces(a) + Braces(b)
  {
    if a == [] {
      assert a + b == b;
    } else {
      assert (a + b)[0] == a[0] && (a + b)[1..] == a[1..] + b;
      BracesAppend(a[1..], b);
    }
  }

  lemma {:induction false} NoBraces(s: string)
    requires '{' !in s
    ensures Braces(s) == 0
  {
    if s != [] {
      assert s[0] in s;
      NoBraces(s[1..]);
    }
  }

  predicate IsKey(p: string) {
    p != [] && p[0] == '{'
  }

  /** A value without an opening brace makes progress: each rewriting step leaves fewer of them. */
  lemma {:induction false} RewriteProgress(s: string, p: string, rep: string)
    requires IsKey(p) && '{' !in rep && Find(s, p).Some?
    ensures Braces(Rewrite(s, Find(s, p).value, |p|, rep)) < Braces(s)
  {
    hide Find, Braces;
    var i := Find(s, p).value;
    var a, c := s[..i], s[i + |p|..];
    assert s == a + (p + c);
    BracesAppend(a, p + c);
    BracesAppend(p, c);
    BracesAppend(a + rep, c);
    BracesAppend(a, rep);
    NoBraces(rep);
    KeyHasBrace(p);
  }

  lemma KeyHasBrace(p: string)
    requires IsKey(p)
    ensures Braces(p) > 0
  {
  }

  /** The rewriting loop: as long as the key occurs, its first occurrence is replaced. */
  function ReplaceLoop(s: string, p: string, rep: string): string
    requires IsKey(p) && '{' !in rep
    decreases Braces(s)
  {
    match Find(s, p)
    case None => s
    case Some(i) =>
      RewriteProgress(s, p, rep);
      ReplaceLoop(Rewrite(s, i, |p|, rep), p, rep)
  }

  // ----- when the loop ends -----

  /** At most n rounds of the rewriting loop. */
  function Rewrites(s: string, p: string, rep: string, n: nat): string
    decreases n
  {
    match Find(s, p)
    case None => s
    case Some(i) => if n == 0 then s else Rewrites(Rewrite(s, i, |p|, rep), p, rep, n - 1)
  }

  predicate EndsWithin(s: string, p: string, rep: string, n: nat) {
    Find(Rewrites(s, p, rep, n), p) == None
  }

  /** The loop ends: after some number of rounds the key does not occur any more. */
  ghost predicate Ends(s: string, p: string, rep: string) {
    exists n: nat :: EndsWithin(s, p, rep, n)
  }

  lemma {:induction false} FewestRounds(s: string, p: string, rep: string, n: nat) returns (m: nat)
    requires EndsWithin(s, p, rep, n)
    ensures EndsWithin(s, p, rep, m) && forall k: nat :: k < m ==> !EndsWithin(s, p, rep, k)
  {
    m := 0;
    while !EndsWithin(s, p, rep, m)
      invariant m <= n && forall k: nat :: k < m ==> !EndsWithin(s, p, rep, k)
      decreases n - m
    {
      m := m + 1;
    }
  }

  /** After how many rounds the loop ends. */
  ghost function Rounds(s: string, p: string, rep: string): (n: nat)
    requires Ends(s, p, rep)
    ensures EndsWithin(s, p, rep, n) && forall k: nat :: k < n ==> !EndsWithin(s, p, rep, k)
  {
    assert exists m: nat :: EndsWithin(s, p, rep, m) && forall k: nat :: k < m ==> !EndsWithin(s, p, rep, k) by {
      var n: nat :| EndsWithin(s, p, rep, n);
      var m := FewestRounds(s, p, rep, n);
    }
    var n: nat :| EndsWithin(s, p, rep, n) && forall k: nat :: k < n ==> !EndsWithin(s, p, rep, k);
    n
  }

  /** What the loop leaves, if it ends. */
  ghost function Loop(s: string, p: string, rep: string): string
    requires Ends(s, p, rep)
  {
    Rewrites(s, p, rep, Rounds(s, p, rep))
  }

  /** One round of the loop: it ends from here if and only if it ends from there, with the same text
      and one round later. */
  lemma {:induction false} OneRound(s: string, p: string, rep: string)
    requires Find(s, p).Some?
    ensures var next := Rewrite(s, Find(s, p).value, |p|, rep);
      && (Ends(s, p, rep) <==> Ends(next, p, rep))
      && (Ends(s, p, rep) ==> Loop(s, p, rep) == Loop(next, p, rep) && Rounds(s, p, rep) == Rounds(next, p, rep) + 1)
  {
    hide Find, Rewrite, Rewrites, EndsWithin;
    var next := Rewrite(s, Find(s, p).value, |p|, rep);
    if Ends(s, p, rep) {
      var n := Rounds(s, p, rep);
      RoundLater(s, p, rep, n);
      assert EndsWithin(next, p, rep, n - 1);
      var m := Rounds(next, p, rep);
      RoundLater(s, p, rep, m + 1);
      assert m == n - 1;
    }
    if Ends(next, p, rep) {
      RoundLater(s, p, rep, Rounds(next, p, rep) + 1);
    }
  }

  lemma RoundLater(s: string, p: string, rep: string, n: nat)
    requires Find(s, p).Some?
    ensures var next := Rewrite(s, Find(s, p).value, |p|, rep);
      if n == 0 then !EndsWithin(s, p, rep, n)
      else EndsWithin(s, p, rep, n) == EndsWithin(next, p, rep, n - 1)
           && Rewrites(s, p, rep, n) == Rewrites(next, p, rep, n - 1)
  {
  }

  lemma {:induction false} NoRound(s: string, p: string, rep: string)
    requires Find(s, p) == None
    ensures Ends(s, p, rep) && Rounds(s, p, rep) == 0 && Loop(s, p, rep) == s
  {
    assert EndsWithin(s, p, rep, 0);
  }

  /** The text and every result on the way fit the buffers they are written to. */
  ghost predicate StaysWithin(s: string, p: string, rep: string)
    requires Ends(s, p, rep)
  {
    forall m: nat :: m <= Rounds(s, p, rep) ==> |Rewrites(s, p, rep, m)| < MAX_LOG_STR
  }

  lemma {:induction false} WithinStep(s: string, p: string, rep: string)
    requires Ends(s, p, rep)
    ensures Find(s, p) == None ==> (StaysWithin(s, p, rep) <==> |s| < MAX_LOG_STR)
    ensures Find(s, p).Some? ==> var next := Rewrite(s, Find(s, p).value, |p|, rep);
      Ends(next, p, rep) && (StaysWithin(s, p, rep) <==> |s| < MAX_LOG_STR && StaysWithin(next, p, rep))
  {
    if Find(s, p) == None {
      NoRound(s, p, rep);
      assert Rewrites(s, p, rep, 0) == s;
    } else {
      OneRound(s, p, rep);
      var next := Rewrite(s, Find(s, p).value, |p|, rep);
      assert Rewrites(s, p, rep, 0) == s;
      assert forall m: nat :: Rewrites(s, p, rep, m + 1) == Rewrites(next, p, rep, m);
      if |s| < MAX_LOG_STR && StaysWithin(next, p, rep) {
        forall m: nat | m <= Rounds(s, p, rep) ensures |Rewrites(s, p, rep, m)| < MAX_LOG_STR {
          if m > 0 { assert |Rewrites(next, p, rep, m - 1)| < MAX_LOG_STR; }
        }
      }
      if StaysWithin(s, p, rep) {
        forall m: nat | m <= Rounds(next, p, rep) ensures |Rewrites(next, p, rep, m)| < MAX_LOG_STR {
          assert |Rewrites(s, p, rep, m + 1)| < MAX_LOG_STR;
        }
      }
    }
  }

  /** With a value without an opening brace the loop ends. */
  lemma {:induction false} PlainLoop(s: string, p: string, rep: string)
    requires IsKey(p) && '{' !in rep
    ensures Ends(s, p, rep) && Loop(s, p, rep) == ReplaceLoop(s, p, rep)
    decreases Braces(s)
  {
    if Find(s, p) == None {
      NoRound(s, p, rep);
    } else {
      RewriteProgress(s, p, rep);
      PlainLoop(Rewrite(s, Find(s, p).value, |p|, rep), p, rep);
      OneRound(s, p, rep);
    }
  }

  /** What stands somewhere in a text is found. */
  lemma {:induction false} FoundWithin(a: string, p: string, b: string)
    ensures Find(a + p + b, p).Some?
  {
    var s := a + p + b;
    if a == [] {
      assert s == p + b && p <= s;
    } else if !(p <= s) {
      assert s[1..] == a[1..] + p + b;
      FoundWithin(a[1..], p, b);
    }
  }

  lemma KeyStaysOnce(a: string, p: string, rep: string, c: string)
    requires Find(rep, p).Some?
    ensures Find(a + rep + c, p).Some?
  {
    hide Find;
    var j := Find(rep, p).value;
    var u, v := rep[..j], rep[j + |p|..];
    assert rep == u + p + v;
    assert a + rep + c == (a + u) + p + (v + c);
    FoundWithin(a + u, p, v + c);
  }

  /** With a value that contains the placeholder, the placeholder never goes away. */
  lemma {:induction false} KeyStays(s: string, p: string, rep: string, n: nat)
    requires Find(s, p).Some? && Find(rep, p).Some?
    ensures !EndsWithin(s, p, rep, n)
    decreases n
  {
    hide Find;
    if n > 0 {
      var i := Find(s, p).value;
      KeyStaysOnce(s[..i], p, rep, s[i + |p|..]);
      KeyStays(Rewrite(s, i, |p|, rep), p, rep, n - 1);
    }
  }

  /** A value without closing braces, or one without opening braces, always lets the loop end; a
      value that contains the placeholder lets it end only if the placeholder does not occur. */
  lemma {:induction false} LoopEnds(s: string, k: string, rep: string)
    requires k != []
    ensures '{' !in rep || '}' !in rep ==> Ends(s, Key(k), rep)
    ensures Find(rep, Key(k)).Some? ==> (Ends(s, Key(k), rep) <==> Find(s, Key(k)) == None)
  {
    if '{' !in rep { PlainLoop(s, Key(k), rep); }
    if '}' !in rep { OpenLoop(s, Key(k), rep); }
    if Find(s, Key(k)) == None {
      NoRound(s, Key(k), rep);
    } else if Find(rep, Key(k)).Some? {
      forall n: nat ensures !EndsWithin(s, Key(k), rep, n) {
        KeyStays(s, Key(k), rep, n);
      }
    }
  }

  /** A value that is its own placeholder keeps the loop running for ever. */
  lemma {:induction false} EndlessLoop()
    ensures !Ends("{k}", Key("k"), "{k}")
  {
    assert Key("k") == "{k}" && Find("{k}", "{k}") == Some(0);
    LoopEnds("{k}", "k", "{k}");
  }

  function Closings(s: string): nat {
    if s == [] then 0 else (if s[0] == '}' then 1 else 0) + Closings(s[1..])
  }

  lemma {:induction false} ClosingsAppend(a: string, b: string)
    ensures Closings(a + b) == Closings(a) + Closings(b)
  {
    if a == [] {
      assert a + b == b;
    } else {
      assert (a + b)[0] == a[0] && (a + b)[1..] == a[1..] + b;
      ClosingsAppend(a[1..], b);
    }
  }

  lemma {:induction false} NoClosings(s: string)
    ensures Closings(s) == 0 <==> '}' !in s
  {
    if s != [] {
      assert s == [s[0]] + s[1..];
      NoClosings(s[1..]);
    }
  }

  /** With a value without a closing brace the loop ends, too. */
  lemma {:induction false} OpenLoop(s: string, p: string, rep: string)
    requires '}' in p && '}' !in rep
    ensures Ends(s, p, rep)
    decreases Closings(s)
  {
    hide Find;
    if Find(s, p) == None {
      NoRound(s, p, rep);
    } else {
      var i := Find(s, p).value;
      var a, c := s[..i], s[i + |p|..];
      assert s == a + (p + c);
      ClosingsAppend(a, p + c);
      ClosingsAppend(p, c);
      ClosingsAppend(a + rep, c);
      ClosingsAppend(a, rep);
      NoClosings(rep);
      NoClosings(p);
      OpenLoop(Rewrite(s, i, |p|, rep), p, rep);
      OneRound(s, p, rep);
    }
  }

  /** The simple form: one pass from left to right over occurrences that do not overlap. */
  function Replace(s: string, p: string, rep: string): string
    requires p != []
    decreases |s|
  {
    if p <= s then rep + Replace(s[|p|..], p, rep)
    else if s == [] then []
    else [s[0]] + Replace(s[1..], p, rep)
  }

  // ----- templates as pieces -----

  datatype Piece = Lit(text: string) | Hole(name: string)

  predicate BraceFree(t: string) {
    '{' !in t && '}' !in t
  }

  predicate FlatPiece(p: Piece) {
    match p
    case Lit(t) => BraceFree(t)
    case Hole(n) => BraceFree(n)
  }

  /** Braces only around the names of the placeholders, and never nested. */
  predicate Flat(ps: seq<Piece>) {
    ps == [] || (FlatPiece(ps[0]) && Flat(ps[1..]))
  }

  function Key(k: string): string {
    ['{'] + k + ['}']
  }

  function ShowPiece(p: Piece): string {
    match p
    case Lit(t) => t
    case Hole(n) => Key(n)
  }

  function Show(ps: seq<Piece>): string {
    if ps == [] then [] else ShowPiece(ps[0]) + Show(ps[1..])
  }

  function SubstOne(ps: seq<Piece>, k: string, v: string): seq<Piece> {
    if ps == [] then []
    else [if ps[0] == Hole(k) then Lit(v) else ps[0]] + SubstOne(ps[1..], k, v)
  }

  function SubstFirst(ps: seq<Piece>, k: string, v: string): seq<Piece> {
    if ps == [] then []
    else if ps[0] == Hole(k) then [Lit(v)] + ps[1..]
    else [ps[0]] + SubstFirst(ps[1..], k, v)
  }

  /** Where the first placeholder for k begins. */
  function Offset(ps: seq<Piece>, k: string): Option<nat> {
    if ps == [] then None
    else if ps[0] == Hole(k) then Some(0)
    else
      match Offset(ps[1..], k)
      case None => None
      case Some(i) => Some(|ShowPiece(ps[0])| + i)
  }

  function Holes(ps: seq<Piece>, k: string): nat {
    if ps == [] then 0 else (if ps[0] == Hole(k) then 1 else 0) + Holes(ps[1..], k)
  }

  // ----- the search respects the pieces -----

  function Shift(r: Option<nat>, n: nat): Option<nat> {
    if r == None then None else Some(r.value + n)
  }

  lemma Pass(c: char, s: string, p: string, rep: string)
    requires IsKey(p) && !(p <= [c] + s)
    ensures Find([c] + s, p) == Shift(Find(s, p), 1)
    ensures Replace([c] + s, p, rep) == [c] + Replace(s, p, rep)
  {
    assert ([c] + s)[1..] == s;
  }

  /** A key does not begin in text without opening braces. */
  lemma {:induction false} Skips(t: string, s: string, p: string, rep: string)
    requires '{' !in t && IsKey(p)
    ensures Find(t + s, p) == Shift(Find(s, p), |t|)
    ensures Replace(t + s, p, rep) == t + Replace(s, p, rep)
  {
    hide Find, Replace;
    if t == [] {
      assert t + s == s && t + Replace(s, p, rep) == Replace(s, p, rep);
    } else {
      var u := t[1..];
      Skips(u, s, p, rep);
      assert t[0] in t && t == [t[0]] + u && t + s == [t[0]] + (u + s);
      Pass(t[0], u + s, p, rep);
      assert [t[0]] + (u + Replace(s, p, rep)) == t + Replace(s, p, rep);
    }
  }

  /** A key matches another placeholder only if the names are the same. */
  lemma KeysDiffer(k: string, n: string, s: string)
    requires BraceFree(k) && BraceFree(n) && k != n
    ensures !(Key(k) <= Key(n) + s)
  {
    var a, b := Key(k), Key(n) + s;
    if a <= b {
      var u := b[|a|..];
      assert b == a + u;
      assert b[1..] == k + ['}'] + u && b[1..] == n + ['}'] + s;
      SplitAtFirst(k, u, n, s, '}');
    }
  }

  /** A placeholder for another name is passed over. */
  lemma OtherHole(k: string, n: string, s: string, v: string)
    requires BraceFree(k) && BraceFree(n) && k != n
    ensures Find(Key(n) + s, Key(k)) == Shift(Find(s, Key(k)), |Key(n)|)
    ensures Replace(Key(n) + s, Key(k), v) == Key(n) + Replace(s, Key(k), v)
  {
    hide Find, Replace;
    KeysDiffer(k, n, s);
    var t := n + ['}'];
    assert Key(n) == ['{'] + t && Key(n) + s == ['{'] + (t + s);
    Pass('{', t + s, Key(k), v);
    Skips(t, s, Key(k), v);
    assert ['{'] + (t + Replace(s, Key(k), v)) == Key(n) + Replace(s, Key(k), v);
  }

  lemma ThisHole(k: string, s: string, v: string)
    ensures Find(Key(k) + s, Key(k)) == Some(0)
    ensures Replace(Key(k) + s, Key(k), v) == v + Replace(s, Key(k), v)
  {
    assert (Key(k) + s)[|Key(k)|..] == s;
  }

  lemma {:induction false} FindInPieces(ps: seq<Piece>, k: string)
    requires Flat(ps) && BraceFree(k)
    ensures Find(Show(ps), Key(k)) == Offset(ps, k)
  {
    hide Find, Key, BraceFree, Replace, Show, ShowPiece, FlatPiece;
    if ps == [] {
      FindNothing(k);
      ShowNothing();
    } else {
      var p, qs := ps[0], ps[1..];
      assert ps == [p] + qs;
      ShowCons(p, qs);
      FindInPieces(qs, k);
      OnePiece(p, Show(qs), k, []);
      PieceSize(p, k);
    }
  }

  lemma PieceSize(p: Piece, k: string)
    ensures p == Hole(k) ==> ShowPiece(p) == Key(k)
  {
  }

  lemma ShowNothing()
    ensures Show([]) == []
  {
  }

  lemma FindNothing(k: string)
    ensures Find([], Key(k)) == None
  {
  }

  /** What the search and the replacement do with the first piece. */
  lemma OnePiece(p: Piece, rest: string, k: string, v: string)
    requires FlatPiece(p) && BraceFree(k)
    ensures Find(ShowPiece(p) + rest, Key(k)) ==
      if p == Hole(k) then Some(0) else Shift(Find(rest, Key(k)), |ShowPiece(p)|)
    ensures Replace(ShowPiece(p) + rest, Key(k), v) ==
      (if p == Hole(k) then v else ShowPiece(p)) + Replace(rest, Key(k), v)
  {
    hide Find, Replace;
    if p.Lit? {
      Skips(p.text, rest, Key(k), v);
    } else if p.name == k {
      ThisHole(k, rest, v);
    } else {
      OtherHole(k, p.name, rest, v);
    }
  }

  /** The one-pass replacement substitutes every placeholder of that name. */
  lemma {:induction false} ReplaceInPieces(ps: seq<Piece>, k: string, v: string)
    requires Flat(ps) && BraceFree(k)
    ensures Replace(Show(ps), Key(k), v) == Show(SubstOne(ps, k, v))
  {
    hide Find, Key, BraceFree, Replace;
    if ps != [] {
      ReplaceInPieces(ps[1..], k, v);
      OnePiece(ps[0], Show(ps[1..]), k, v);
    } else {
      ReplaceNothing(k, v);
    }
  }

  lemma ReplaceNothing(k: string, v: string)
    ensures Replace([], Key(k), v) == []
  {
  }

  lemma RewriteSkips(a: string, s: string, i: nat, size: nat, v: string)
    requires i + size <= |s|
    ensures Rewrite(a + s, |a| + i, size, v) == a + Rewrite(s, i, size, v)
  {
    assert (a + s)[..|a| + i] == a + s[..i] && (a + s)[|a| + i + size..] == s[i + size..];
    assert a + s[..i] + v + s[i + size..] == a + (s[..i] + v + s[i + size..]);
  }

  lemma RewriteStart(a: string, s: string, v: string)
    ensures Rewrite(a + s, 0, |a|, v) == v + s
  {
    assert (a + s)[|a|..] == s && (a + s)[..0] + v == v;
  }

  lemma ShowCons(p: Piece, qs: seq<Piece>)
    ensures Show([p] + qs) == ShowPiece(p) + Show(qs)
  {
    assert ([p] + qs)[1..] == qs;
  }

  lemma {:induction false} RewriteInPieces(ps: seq<Piece>, k: string, v: string)
    requires Offset(ps, k).Some?
    ensures var i := Offset(ps, k).value;
      i + |Key(k)| <= |Show(ps)| && Rewrite(Show(ps), i, |Key(k)|, v) == Show(SubstFirst(ps, k, v))
  {
    hide Rewrite, Key, Show;
    var p, qs := ps[0], ps[1..];
    assert ps == [p] + qs;
    ShowCons(p, qs);
    if p == Hole(k) {
      ShowCons(Lit(v), qs);
      RewriteStart(Key(k), Show(qs), v);
    } else {
      RewriteInPieces(qs, k, v);
      ShowCons(p, SubstFirst(qs, k, v));
      RewriteSkips(ShowPiece(p), Show(qs), Offset(qs, k).value, |Key(k)|, v);
    }
  }

  /** The first placeholder is one of those to be substituted. */
  lemma {:induction false} FirstOfAll(ps: seq<Piece>, k: string, v: string)
    requires Offset(ps, k).Some?
    ensures Holes(SubstFirst(ps, k, v), k) == Holes(ps, k) - 1
    ensures SubstOne(SubstFirst(ps, k, v), k, v) == SubstOne(ps, k, v)
  {
    if ps[0] == Hole(k) {
      assert ([Lit(v)] + ps[1..])[1..] == ps[1..];
    } else {
      FirstOfAll(ps[1..], k, v);
      var next := SubstFirst(ps[1..], k, v);
      assert ([ps[0]] + next)[1..] == next;
    }
  }

  lemma {:induction false} NoHoles(ps: seq<Piece>, k: string, v: string)
    requires Offset(ps, k) == None
    ensures SubstOne(ps, k, v) == ps
  {
    if ps != [] {
      NoHoles(ps[1..], k, v);
    }
  }

  lemma {:induction false} FirstStaysFlat(ps: seq<Piece>, k: string, v: string)
    requires Flat(ps) && BraceFree(v)
    ensures Flat(SubstFirst(ps, k, v)) && Flat(SubstOne(ps, k, v))
  {
    if ps != [] {
      FirstStaysFlat(ps[1..], k, v);
    }
  }

  /** The rewriting loop substitutes every placeholder of that name. */
  lemma {:induction false} LoopInPieces(ps: seq<Piece>, k: string, v: string)
    requires Flat(ps) && BraceFree(k) && BraceFree(v)
    ensures ReplaceLoop(Show(ps), Key(k), v) == Show(SubstOne(ps, k, v))
    decreases Holes(ps, k)
  {
    FindInPieces(ps, k);
    if Offset(ps, k) == None {
      NoHoles(ps, k, v);
    } else {
      RewriteInPieces(ps, k, v);
      FirstOfAll(ps, k, v);
      FirstStaysFlat(ps, k, v);
      LoopInPieces(SubstFirst(ps, k, v), k, v);
    }
  }

  lemma {:induction false} Longer(ps: seq<Piece>, k: string, v: string)
    requires |v| >= |Key(k)|
    ensures |Show(SubstOne(ps, k, v))| >= |Show(ps)|
  {
    hide Show, Key;
    if ps != [] {
      Longer(ps[1..], k, v);
      assert ps == [ps[0]] + ps[1..];
      ShowCons(ps[0], ps[1..]);
      ShowCons(if ps[0] == Hole(k) then Lit(v) else ps[0], SubstOne(ps[1..], k, v));
    }
  }

  /** On the way from a text to the substituted one no result is longer than both. */
  lemma {:induction false} FlatStays(ps: seq<Piece>, k: string, v: string)
    requires Flat(ps) && BraceFree(k) && BraceFree(v)
    ensures Ends(Show(ps), Key(k), v)
    ensures StaysWithin(Show(ps), Key(k), v) <==>
      |Show(ps)| < MAX_LOG_STR && |Show(SubstOne(ps, k, v))| < MAX_LOG_STR
    decreases Holes(ps, k)
  {
    hide Find, Ends, StaysWithin, Show, Key, Rewrite, Flat, BraceFree;
    FindInPieces(ps, k);
    PlainEnds(ps, k, v);
    WithinStep(Show(ps), Key(k), v);
    if Offset(ps, k) == None {
      NoHoles(ps, k, v);
    } else {
      RewriteInPieces(ps, k, v);
      FirstOfAll(ps, k, v);
      FirstStaysFlat(ps, k, v);
      var next := SubstFirst(ps, k, v);
      FlatStays(next, k, v);
      RewriteSize(Show(ps), Offset(ps, k).value, |Key(k)|, v);
      if |v| >= |Key(k)| { Longer(next, k, v); }
    }
  }

  lemma PlainEnds(ps: seq<Piece>, k: string, v: string)
    requires BraceFree(v)
    ensures Ends(Show(ps), Key(k), v)
  {
    PlainLoop(Show(ps), Key(k), v);
  }

  lemma RewriteSize(s: string, i: nat, size: nat, v: string)
    requires i + size <= |s|
    ensures |Rewrite(s, i, size, v)| == |s| - size + |v|
  {
  }

  /** For a flat template and a value without braces, repeated rewriting of the first occurrence
      is the one-pass replacement. */
  lemma {:induction false} LoopIsReplace(ps: seq<Piece>, k: string, v: string)
    requires Flat(ps) && BraceFree(k) && BraceFree(v)
    ensures ReplaceLoop(Show(ps), Key(k), v) == Replace(Show(ps), Key(k), v)
  {
    LoopInPieces(ps, k, v);
    ReplaceInPieces(ps, k, v);
  }

  /** With nested braces the two can differ: what one rewriting leaves may be a placeholder again. */
  lemma {:induction false} NestedDiffers()
    ensures ReplaceLoop("{{k}}", "{k}", "k") == "k" && Replace("{{k}}", "{k}", "k") == "{k}"
  {
    var s, p := "{{k}}", "{k}";
    assert p[1] == 'k' && s[1] == '{';
    assert s[1..] == "{k}}" && Find("{k}}", p) == Some(0) && !(p <= s);
    assert Find(s, p) == Some(1);
    assert Rewrite(s, 1, 3, "k") == "{k}";
    assert Find("{k}", p) == Some(0) && Rewrite("{k}", 0, 3, "k") == "k";
    assert Find("k", p) == None by { assert "k"[1..] == [] && Find([], p) == None; }
    assert ReplaceLoop("k", p, "k") == "k" && ReplaceLoop("{k}", p, "k") == "k";
    assert "{k}}"[3..] == "}" && "}"[1..] == [];
    assert Replace("}", p, "k") == "}";
    assert Replace("{k}}", p, "k") == "k}";
  }

  // ----- several substitutions -----

  type Pairs = seq<(string, string)>

  function SubstPairs(ps: seq<Piece>, kvs: Pairs): seq<Piece>
    decreases |kvs|
  {
    if kvs == [] then ps else SubstPairs(SubstOne(ps, kvs[0].0, kvs[0].1), kvs[1..])
  }

  /** The values by key; the first pair for a key counts. */
  function MapOf(kvs: Pairs): map<string, string> {
    if kvs == [] then map[] else MapOf(kvs[1..])[kvs[0].0 := kvs[0].1]
  }

  /** All substitutions at once. */
  function SubstMap(ps: seq<Piece>, m: map<string, string>): seq<Piece> {
    if ps == [] then []
    else [if ps[0].Hole? && ps[0].name in m then Lit(m[ps[0].name]) else ps[0]] + SubstMap(ps[1..], m)
  }

  lemma {:induction false} SubstOneThenMap(ps: seq<Piece>, k: string, v: string, m: map<string, string>)
    ensures SubstMap(SubstOne(ps, k, v), m) == SubstMap(ps, m[k := v])
  {
    if ps != [] {
      SubstOneThenMap(ps[1..], k, v, m);
    }
  }

  lemma {:induction false} SubstNothing(ps: seq<Piece>)
    ensures SubstMap(ps, map[]) == ps
  {
    if ps != [] {
      SubstNothing(ps[1..]);
    }
  }

  /** One substitution after another is substitution at once. */
  lemma {:induction false} SequentialIsSimultaneous(ps: seq<Piece>, kvs: Pairs)
    ensures SubstPairs(ps, kvs) == SubstMap(ps, MapOf(kvs))
    decreases |kvs|
  {
    if kvs == [] {
      SubstNothing(ps);
    } else {
      SequentialIsSimultaneous(SubstOne(ps, kvs[0].0, kvs[0].1), kvs[1..]);
      SubstOneThenMap(ps, kvs[0].0, kvs[0].1, MapOf(kvs[1..]));
    }
  }

  predicate DistinctKeys(kvs: Pairs) {
    forall i, j :: 0 <= i < j < |kvs| ==> kvs[i].0 != kvs[j].0
  }

  lemma {:induction false} MapOfIs(kvs: Pairs)
    requires DistinctKeys(kvs)
    ensures forall k :: k in MapOf(kvs) ==> (k, MapOf(kvs)[k]) in kvs
    ensures forall x :: x in kvs ==> x.0 in MapOf(kvs) && MapOf(kvs)[x.0] == x.1
  {
    if kvs != [] {
      assert kvs == [kvs[0]] + kvs[1..];
      assert DistinctKeys(kvs[1..]);
      MapOfIs(kvs[1..]);
      assert kvs[0] in kvs;
    }
  }

  lemma MapWithin(kvs: Pairs, perm: Pairs)
    requires DistinctKeys(kvs) && DistinctKeys(perm) && forall x :: x in kvs ==> x in perm
    ensures forall k :: k in MapOf(kvs) ==> k in MapOf(perm) && MapOf(perm)[k] == MapOf(kvs)[k]
  {
    hide MapOf, DistinctKeys;
    MapOfIs(kvs);
    MapOfIs(perm);
    forall k | k in MapOf(kvs) ensures k in MapOf(perm) && MapOf(perm)[k] == MapOf(kvs)[k] {
      var x := (k, MapOf(kvs)[k]);
      assert x in kvs && x in perm;
    }
  }

  lemma SameElements(kvs: Pairs, perm: Pairs)
    requires multiset(kvs) == multiset(perm)
    ensures forall x :: x in kvs ==> x in perm
  {
    forall x | x in kvs ensures x in perm {
      assert x in multiset(kvs);
      assert x in multiset(perm);
    }
  }

  /** The order of the arguments does not matter. */
  lemma {:induction false} OrderIndependent(ps: seq<Piece>, kvs: Pairs, perm: Pairs)
    requires DistinctKeys(kvs) && DistinctKeys(perm) && multiset(kvs) == multiset(perm)
    ensures MapOf(kvs) == MapOf(perm) && SubstPairs(ps, kvs) == SubstPairs(ps, perm)
  {
    hide MapOf, DistinctKeys, SubstPairs;
    SameElements(kvs, perm);
    SameElements(perm, kvs);
    MapWithin(kvs, perm);
    MapWithin(perm, kvs);
    assert MapOf(kvs) == MapOf(perm);
    SequentialIsSimultaneous(ps, kvs);
    SequentialIsSimultaneous(ps, perm);
  }

  // ----- key=value strings -----

  /** The string for a key and a formatted value; the value is first cut to the buffer. */
  function KeyValueString(k: string, value: string): (r: Option<string>)
    ensures r.Some? ==> |r.value| <= KEY_VALUE_SIZE - 2
  {
    var v := if |value| > KEY_VALUE_SIZE - 1 then value[..KEY_VALUE_SIZE - 1] else value;
    if !(0 < |k| < KEY_VALUE_SIZE) then None
    else if KEY_VALUE_SIZE - (|k| + 1) <= 0 then None
    else if !(0 < |v| < KEY_VALUE_SIZE - (|k| + 2)) then None
    else Some(k + ['='] + v)
  }

  /** A string is built exactly when key and value are not empty and together have at most 125
      characters; then the value is whole, and splitting gives the pair back. */
  lemma {:induction false} KeyValueRoundTrip(k: string, value: string)
    ensures KeyValueString(k, value).Some? <==> k != [] && value != [] && |k| + |value| <= KEY_VALUE_SIZE - 3
    ensures KeyValueString(k, value).Some? ==> KeyValueString(k, value).value == k + ['='] + value
    ensures KeyValueString(k, value).Some? && '=' !in k && '=' !in value ==>
      Split(KeyValueString(k, value).value, '=') == [k, value]
  {
    if KeyValueString(k, value).Some? && '=' !in k && '=' !in value {
      SplitPair(k, value, '=');
    }
  }

  /** The accumulated list: what still fits of the next entry is appended. */
  function Accumulate(all: string, entry: string): (r: string)
    requires |all| <= 2 * KEY_VALUE_SIZE - 1
    ensures |r| <= 2 * KEY_VALUE_SIZE - 1
  {
    var room := 2 * KEY_VALUE_SIZE - |all| - 1;
    all + (if |entry| <= room then entry else entry[..room])
  }

  function AccumulateAll(all: string, entries: seq<string>): (r: string)
    requires |all| <= 2 * KEY_VALUE_SIZE - 1
    ensures |r| <= 2 * KEY_VALUE_SIZE - 1
    decreases |entries|
  {
    if entries == [] then all else AccumulateAll(Accumulate(all, entries[0] + [',']), entries[1..])
  }

  function Concat(all: string, entries: seq<string>): string
    decreases |entries|
  {
    if entries == [] then all else Concat(all + (entries[0] + [',']), entries[1..])
  }

  lemma {:induction false} ConcatExtends(all: string, entries: seq<string>)
    ensures |all| <= |Concat(all, entries)| && Concat(all, entries)[..|all|] == all
    decreases |entries|
  {
    if entries != [] {
      var next := all + (entries[0] + [',']);
      ConcatExtends(next, entries[1..]);
      assert Concat(next, entries[1..])[..|all|] == next[..|all|] == all;
    }
  }

  /** The list never exceeds its buffer and is always a prefix of the full list, cut only when
      the buffer is full. */
  lemma {:induction false} ListIsPrefix(all: string, entries: seq<string>)
    requires |all| <= 2 * KEY_VALUE_SIZE - 1
    ensures var r, full := AccumulateAll(all, entries), Concat(all, entries);
      r == if |full| <= 2 * KEY_VALUE_SIZE - 1 then full else full[..2 * KEY_VALUE_SIZE - 1]
    decreases |entries|
  {
    if entries != [] {
      var max := 2 * KEY_VALUE_SIZE - 1;
      var entry := entries[0] + [','];
      var next := Accumulate(all, entry);
      ConcatExtends(all + entry, entries[1..]);
      if |all + entry| <= max {
        ListIsPrefix(all + entry, entries[1..]);
      } else {
        assert next == (all + entry)[..max];
        FullStays(next, entries[1..]);
        assert Concat(all + entry, entries[1..])[..max] == (all + entry)[..max];
      }
    }
  }

  lemma {:induction false} FullStays(all: string, entries: seq<string>)
    requires |all| == 2 * KEY_VALUE_SIZE - 1
    ensures AccumulateAll(all, entries) == all
    decreases |entries|
  {
    if entries != [] {
      assert Accumulate(all, entries[0] + [',']) == all;
      FullStays(all, entries[1..]);
    }
  }

  // ----- the rewriting as the C library performs it -----

  /** The placeholder for a key; an empty key gets no closing brace. */
  function KeyName(k: string): string {
    ['{'] + k + (if k == [] then [] else ['}'])
  }

  /** A text being rewritten in place, and the static result buffer. */
  datatype Texts = Texts(text: string, buffer: string)

  /** How a call ends: it never returns, reads through a null pointer or writes past a buffer; it is
      refused, and leaves the result buffer as given; or it is done. */
  datatype Call<T> = Undefined | Fails(buffer: string) | Done(value: T)

  /** One call of the replacement: without an occurrence, the result buffer is not written. */
  ghost function Replaced(t: Texts, k: string, v: string): Call<Texts> {
    if |k| > KEY_VALUE_SIZE - 2 then Fails(t.buffer)
    else if Find(t.text, KeyName(k)) == None then Done(t)
    else if !Ends(t.text, KeyName(k), v) || !StaysWithin(t.text, KeyName(k), v) then Undefined
    else var done := Loop(t.text, KeyName(k), v); Done(Texts(done, done))
  }

  ghost function ReplaceEach(t: Texts, k: string, vs: seq<string>): Call<Texts>
    decreases |vs|
  {
    if vs == [] then Done(t)
    else
      match Replaced(t, k, vs[0])
      case Done(u) => ReplaceEach(u, k, vs[1..])
      case other => other
  }

  /** Rewrites a text for one key=value string.  The text always becomes the result buffer. */
  ghost function Populate(t: Texts, kv: string): Call<Texts> {
    if !(0 < |kv| < KEY_VALUE_SIZE) then Fails(t.buffer)
    else
      var ts := Split(kv, '=');
      if ts == [] then Undefined
      else if |ts| == 1 then Fails(t.buffer)
      else
        match ReplaceEach(t, ts[0], ts[1..])
        case Done(r) => if FitsLog(r.buffer) then Done(Texts(r.buffer, r.buffer)) else Fails(r.buffer)
        case other => other
  }

  predicate FitsLog(s: string) {
    0 < |s| < MAX_LOG_STR
  }

  // ----- composing the message of an event -----

  /** One string after another rewrites the text and is appended to the list. */
  ghost function Message(t: Texts, all: string, kvs: seq<string>): Call<(Texts, string)>
    requires |all| <= 2 * KEY_VALUE_SIZE - 1
    decreases |kvs|
  {
    if kvs == [] then Done((t, all))
    else
      match Populate(t, kvs[0])
      case Undefined => Undefined
      case Fails(b) => Fails(b)
      case Done(u) =>
        if |kvs[0]| + 1 >= KEY_VALUE_SIZE then Undefined
        else Message(u, Accumulate(all, kvs[0] + [',']), kvs[1..])
  }

  /** The arguments up to the number of keys, or up to the first one that is NULL. */
  function Given(args: seq<Option<string>>, keys: int): seq<string>
    decreases |args|
  {
    if keys <= 0 || args == [] || args[0] == None then []
    else [args[0].value] + Given(args[1..], keys - 1)
  }

  /** What the buffer for one pair holds when each argument is used: the argument, if it fits; if
      not, still the string before it, with the comma that was added there. */
  function Stored(pair: string, args: seq<string>): (r: seq<string>)
    ensures |r| == |args|
    decreases |args|
  {
    if args == [] then []
    else
      var kv := if |args[0]| < KEY_VALUE_SIZE then args[0] else pair;
      [kv] + Stored(kv + [','], args[1..])
  }

  /** Arguments that fit are used as they are. */
  lemma {:induction false} StoredWhole(pair: string, args: seq<string>)
    requires forall a :: a in args ==> |a| < KEY_VALUE_SIZE
    ensures Stored(pair, args) == args
    decreases |args|
  {
    if args != [] {
      assert args[0] in args;
      StoredWhole(args[0] + [','], args[1..]);
    }
  }

  function Kv(x: (string, string)): string {
    x.0 + ['='] + x.1
  }

  function Kvs(xs: Pairs): seq<string> {
    if xs == [] then [] else [Kv(xs[0])] + Kvs(xs[1..])
  }

  /** A key and a value without braces and equals signs that fit a key=value string. */
  predicate PairOk(x: (string, string)) {
    && BraceFree(x.0) && BraceFree(x.1) && IsToken(x.0, '=') && IsToken(x.1, '=')
    && |x.0| + |x.1| <= KEY_VALUE_SIZE - 3
  }

  predicate PairsOk(xs: Pairs) {
    forall x :: x in xs ==> PairOk(x)
  }

  lemma RoomForComma(x: (string, string))
    requires PairOk(x)
    ensures |Kv(x)| + 1 < KEY_VALUE_SIZE
  {
  }

  /** The key occurs, and the text or the rewritten one is too long for its buffer. */
  predicate Overruns(ps: seq<Piece>, x: (string, string)) {
    Offset(ps, x.0).Some? && (|Show(ps)| >= MAX_LOG_STR || |Show(SubstOne(ps, x.0, x.1))| >= MAX_LOG_STR)
  }

  /** For one pair: the text becomes the result buffer, which is the rewritten text if the key
      occurs, and whatever it was before if not. */
  lemma PopulateFlat(ps: seq<Piece>, x: (string, string), t: Texts)
    requires Flat(ps) && t.text == Show(ps) && PairOk(x)
    ensures var result := if Offset(ps, x.0).Some? then Show(SubstOne(ps, x.0, x.1)) else t.buffer;
      Populate(t, Kv(x)) ==
      if Overruns(ps, x) then Undefined
      else if FitsLog(result) then Done(Texts(result, result))
      else Fails(result)
  {
    hide Find, ReplaceLoop, Loop, Ends, StaysWithin, Show, SubstOne;
    PlainLoop(t.text, Key(x.0), x.1);
    FlatStays(ps, x.0, x.1);
    SplitPair(x.0, x.1, '=');
    FindInPieces(ps, x.0);
    LoopInPieces(ps, x.0, x.1);
    assert KeyName(x.0) == Key(x.0);
    var ts := [x.0, x.1];
    assert ts[1..] == [x.1] && [x.1][1..] == [];
    assert Replaced(t, x.0, x.1).Done? || Replaced(t, x.0, x.1) == Undefined;
    assert ReplaceEach(t, x.0, [x.1]) == Replaced(t, x.0, x.1);
  }

  /** So the placeholder is replaced exactly when the rewritten text fits and the key occurs, or
      the buffer happens to hold the text. */
  lemma {:induction false} PopulateExactly(ps: seq<Piece>, x: (string, string), t: Texts)
    requires Flat(ps) && t.text == Show(ps) && PairOk(x)
    ensures var right := Show(SubstOne(ps, x.0, x.1));
      Populate(t, Kv(x)).Done? && Populate(t, Kv(x)).value.text == right <==>
      FitsLog(right) && if Offset(ps, x.0).Some? then |t.text| < MAX_LOG_STR else t.buffer == t.text
  {
    PopulateFlat(ps, x, t);
    if Offset(ps, x.0) == None { NoHoles(ps, x.0, x.1); }
  }

  /** The text and every intermediate one fit. */
  predicate AllFit(ps: seq<Piece>, xs: Pairs)
    decreases |xs|
  {
    xs == [] ||
    (var next := SubstOne(ps, xs[0].0, xs[0].1);
     |Show(ps)| < MAX_LOG_STR && FitsLog(Show(next)) && AllFit(next, xs[1..]))
  }

  /** Some text is too long for its buffer before any is empty. */
  predicate Outgrows(ps: seq<Piece>, xs: Pairs)
    decreases |xs|
  {
    xs != [] &&
    var next := SubstOne(ps, xs[0].0, xs[0].1);
    Overruns(ps, xs[0]) || (FitsLog(Show(next)) && Outgrows(next, xs[1..]))
  }

  /** If the first key occurs in the template, the message is the template with all pairs
      substituted at once, whether or not the later keys occur, and the list is that of all pairs. */
  lemma {:induction false} MessageIsSubstitution(ps: seq<Piece>, xs: Pairs, t: Texts, all: string)
    requires Flat(ps) && t.text == Show(ps) && PairsOk(xs) && AllFit(ps, xs) && |all| <= 2 * KEY_VALUE_SIZE - 1
    requires xs != [] ==> Offset(ps, xs[0].0).Some? || t.buffer == t.text
    ensures var text := Show(SubstMap(ps, MapOf(xs)));
      Message(t, all, Kvs(xs)) == Done((Texts(text, if xs == [] then t.buffer else text), AccumulateAll(all, Kvs(xs))))
    decreases |xs|
  {
    hide Populate, Accumulate, PairOk;
    SequentialIsSimultaneous(ps, xs);
    if xs == [] {
      SubstNothing(ps);
    } else {
      var next := SubstOne(ps, xs[0].0, xs[0].1);
      assert xs[0] in xs && Kvs(xs)[1..] == Kvs(xs[1..]);
      OneMessage(ps, xs[0], t);
      RoomForComma(xs[0]);
      MessageIsSubstitution(next, xs[1..], Texts(Show(next), Show(next)), Accumulate(all, Kv(xs[0]) + [',']));
      SequentialIsSimultaneous(next, xs[1..]);
    }
  }

  lemma OneMessage(ps: seq<Piece>, x: (string, string), t: Texts)
    requires Flat(ps) && t.text == Show(ps) && PairOk(x) && FitsLog(Show(SubstOne(ps, x.0, x.1)))
    requires |t.text| < MAX_LOG_STR
    requires Offset(ps, x.0).Some? || t.buffer == t.text
    ensures var next := SubstOne(ps, x.0, x.1);
      Flat(next) && Populate(t, Kv(x)) == Done(Texts(Show(next), Show(next)))
  {
    PopulateFlat(ps, x, t);
    FirstStaysFlat(ps, x.0, x.1);
    if Offset(ps, x.0) == None { NoHoles(ps, x.0, x.1); }
  }

  /** Once the buffer holds the text, the message is right if every intermediate text fits; if one is
      too long before any is empty, a buffer is overrun; otherwise there is no message. */
  lemma {:induction false} MessageOn(ps: seq<Piece>, xs: Pairs, all: string)
    requires Flat(ps) && PairsOk(xs) && |all| <= 2 * KEY_VALUE_SIZE - 1
    ensures var text := Show(SubstMap(ps, MapOf(xs)));
      var r := Message(Texts(Show(ps), Show(ps)), all, Kvs(xs));
      if AllFit(ps, xs) then r == Done((Texts(text, text), AccumulateAll(all, Kvs(xs))))
      else if Outgrows(ps, xs) then r == Undefined
      else r.Fails?
    decreases |xs|
  {
    hide Populate, Accumulate, PairOk;
    SequentialIsSimultaneous(ps, xs);
    if xs == [] {
      SubstNothing(ps);
    } else {
      var next := SubstOne(ps, xs[0].0, xs[0].1);
      assert xs[0] in xs && Kvs(xs)[1..] == Kvs(xs[1..]);
      OnePopulated(ps, xs[0]);
      RoomForComma(xs[0]);
      MessageOn(next, xs[1..], Accumulate(all, Kv(xs[0]) + [',']));
      SequentialIsSimultaneous(next, xs[1..]);
    }
  }

  lemma OnePopulated(ps: seq<Piece>, x: (string, string))
    requires Flat(ps) && PairOk(x)
    ensures var next := SubstOne(ps, x.0, x.1);
      && Flat(next)
      && Populate(Texts(Show(ps), Show(ps)), Kv(x)) ==
        (if Overruns(ps, x) then Undefined
         else if FitsLog(Show(next)) then Done(Texts(Show(next), Show(next)))
         else Fails(Show(next)))
      && (FitsLog(Show(next)) && !Overruns(ps, x) ==> |Show(ps)| < MAX_LOG_STR)
  {
    PopulateFlat(ps, x, Texts(Show(ps), Show(ps)));
    FirstStaysFlat(ps, x.0, x.1);
    if Offset(ps, x.0) == None { NoHoles(ps, x.0, x.1); }
  }

  /** The text after the first pair: rewritten if the key occurs, and the old buffer if not. */
  function AfterFirst(ps: seq<Piece>, held: seq<Piece>, x: (string, string)): seq<Piece> {
    if Offset(ps, x.0).Some? then SubstOne(ps, x.0, x.1) else held
  }

  /** The whole message for any template and any buffer that are flat: only the first key decides
      whether the template or the old buffer is filled in. */
  lemma {:induction false} MessageExactly(ps: seq<Piece>, held: seq<Piece>, xs: Pairs, t: Texts, all: string)
    requires Flat(ps) && Flat(held) && t == Texts(Show(ps), Show(held)) && PairsOk(xs) && xs != []
    requires |all| <= 2 * KEY_VALUE_SIZE - 1
    ensures var first := AfterFirst(ps, held, xs[0]);
      var text := Show(SubstMap(first, MapOf(xs[1..])));
      var r := Message(t, all, Kvs(xs));
      if !Overruns(ps, xs[0]) && FitsLog(Show(first)) && AllFit(first, xs[1..])
      then r == Done((Texts(text, text), AccumulateAll(all, Kvs(xs))))
      else if Overruns(ps, xs[0]) || (FitsLog(Show(first)) && Outgrows(first, xs[1..])) then r == Undefined
      else r.Fails?
  {
    hide Populate, Accumulate, PairOk, SubstMap, MapOf, AllFit, Outgrows, Overruns;
    var first := AfterFirst(ps, held, xs[0]);
    assert xs[0] in xs && Kvs(xs)[1..] == Kvs(xs[1..]);
    assert PairOk(xs[0]) && PairsOk(xs[1..]);
    PopulateFlat(ps, xs[0], t);
    RoomForComma(xs[0]);
    FlatAfterFirst(ps, held, xs[0]);
    MessageOn(first, xs[1..], Accumulate(all, Kv(xs[0]) + [',']));
  }

  lemma FlatAfterFirst(ps: seq<Piece>, held: seq<Piece>, x: (string, string))
    requires Flat(ps) && Flat(held) && PairOk(x)
    ensures Flat(AfterFirst(ps, held, x))
  {
    FirstStaysFlat(ps, x.0, x.1);
  }

  /** What the message should be. */
  predicate IsMessage(r: Call<(Texts, string)>, ps: seq<Piece>, xs: Pairs) {
    r.Done? && r.value.0.text == Show(SubstMap(ps, MapOf(xs)))
  }

  /** The message is the template with all pairs substituted exactly when the first key occurs and
      every intermediate text fits; or, if the first key does not occur, when filling the remaining
      pairs into the old buffer fits and happens to give the same text. */
  lemma {:induction false} MessageRightExactly(ps: seq<Piece>, held: seq<Piece>, xs: Pairs, t: Texts)
    requires Flat(ps) && Flat(held) && t == Texts(Show(ps), Show(held)) && PairsOk(xs) && xs != []
    ensures IsMessage(Message(t, [], Kvs(xs)), ps, xs) <==>
      if Offset(ps, xs[0].0).Some? then AllFit(ps, xs)
      else FitsLog(t.buffer) && AllFit(held, xs[1..])
           && Show(SubstMap(held, MapOf(xs[1..]))) == Show(SubstMap(ps, MapOf(xs)))
  {
    hide Message, SubstMap, MapOf, Show, PairsOk, Flat;
    MessageExactly(ps, held, xs, t, []);
    SequentialIsSimultaneous(ps, xs);
    SequentialIsSimultaneous(SubstOne(ps, xs[0].0, xs[0].1), xs[1..]);
  }

  /** With a buffer without braces, as every buffer is after a completely filled message and before
      the first one: the message is right exactly when the first key occurs and every intermediate
      text fits, or the buffer is that very message already. */
  lemma {:induction false} PlainBufferExactly(ps: seq<Piece>, xs: Pairs, t: Texts)
    requires Flat(ps) && t.text == Show(ps) && BraceFree(t.buffer) && PairsOk(xs) && xs != []
    ensures IsMessage(Message(t, [], Kvs(xs)), ps, xs) <==>
      if Offset(ps, xs[0].0).Some? then AllFit(ps, xs)
      else FitsLog(t.buffer) && t.buffer == Show(SubstMap(ps, MapOf(xs)))
  {
    hide Message, MapOf, PairsOk;
    var held := [Lit(t.buffer)];
    PlainPieces(t.buffer, MapOf(xs[1..]));
    PlainFits(t.buffer, xs[1..]);
    MessageRightExactly(ps, held, xs, t);
  }

  lemma PlainPieces(b: string, m: map<string, string>)
    requires BraceFree(b)
    ensures var ps := [Lit(b)]; Flat(ps) && Show(ps) == b && SubstMap(ps, m) == ps
  {
    assert [Lit(b)][1..] == [] && b + [] == b;
  }

  lemma {:induction false} PlainFits(b: string, xs: Pairs)
    requires BraceFree(b)
    ensures FitsLog(b) ==> AllFit([Lit(b)], xs)
    decreases |xs|
  {
    if xs != [] {
      PlainPieces(b, map[]);
      assert SubstOne([Lit(b)], xs[0].0, xs[0].1) == [Lit(b)] by { assert [Lit(b)][1..] == []; }
      PlainFits(b, xs[1..]);
    }
  }

  /** The order of the arguments does not matter for the message, as long as either order starts
      with a key that occurs and every intermediate text fits. */
  lemma {:induction false} MessageOrder(ps: seq<Piece>, xs: Pairs, perm: Pairs, t: Texts)
    requires Flat(ps) && t.text == Show(ps) && PairsOk(xs) && PairsOk(perm) && AllFit(ps, xs) && AllFit(ps, perm)
    requires DistinctKeys(xs) && DistinctKeys(perm) && multiset(xs) == multiset(perm) && xs != []
    requires Offset(ps, xs[0].0).Some? && perm != [] && Offset(ps, perm[0].0).Some?
    ensures Message(t, [], Kvs(xs)).Done? && Message(t, [], Kvs(perm)).Done?
    ensures Message(t, [], Kvs(xs)).value.0 == Message(t, [], Kvs(perm)).value.0
  {
    hide Message, SubstMap, MapOf, AllFit, PairsOk, Flat;
    MessageIsSubstitution(ps, xs, t, []);
    MessageIsSubstitution(ps, perm, t, []);
    OrderIndependent(ps, xs, perm);
  }

  /** The Python version: one replacement after another. */
  function ReplaceAll(desc: string, xs: Pairs): string
    decreases |xs|
  {
    if xs == [] then desc else ReplaceAll(Replace(desc, Key(xs[0].0), xs[0].1), xs[1..])
  }

  lemma {:induction false} ReplaceAllInPieces(ps: seq<Piece>, xs: Pairs)
    requires Flat(ps) && forall x :: x in xs ==> BraceFree(x.0) && BraceFree(x.1)
    ensures ReplaceAll(Show(ps), xs) == Show(SubstMap(ps, MapOf(xs)))
    decreases |xs|
  {
    hide Replace;
    SequentialIsSimultaneous(ps, xs);
    if xs != [] {
      assert xs[0] in xs;
      ReplaceInPieces(ps, xs[0].0, xs[0].1);
      FirstStaysFlat(ps, xs[0].0, xs[0].1);
      ReplaceAllInPieces(SubstOne(ps, xs[0].0, xs[0].1), xs[1..]);
      SequentialIsSimultaneous(SubstOne(ps, xs[0].0, xs[0].1), xs[1..]);
    }
  }

  /** Both versions compose the same message. */
  lemma {:induction false} SameMessage(ps: seq<Piece>, xs: Pairs, t: Texts)
    requires Flat(ps) && t.text == Show(ps) && PairsOk(xs) && AllFit(ps, xs)
    requires xs != [] ==> Offset(ps, xs[0].0).Some? || t.buffer == t.text
    ensures Message(t, [], Kvs(xs)).Done? && Message(t, [], Kvs(xs)).value.0.text == ReplaceAll(t.text, xs)
  {
    MessageIsSubstitution(ps, xs, t, []);
    ReplaceAllInPieces(ps, xs);
  }

  /** Without the only key in the template, the message is the one before; and before the first
      message, when the buffer is empty, there is none. */
  lemma {:induction false} StaleMessage(ps: seq<Piece>, x: (string, string), before: string)
    requires Flat(ps) && PairOk(x) && Offset(ps, x.0) == None
    ensures var r := Message(Texts(Show(ps), before), [], [Kv(x)]);
      if FitsLog(before) then r.Done? && r.value.0.text == before else r == Fails(before)
    ensures Message(Texts(Show(ps), []), [], [Kv(x)]) == Fails([])
  {
    hide Populate;
    PopulateFlat(ps, x, Texts(Show(ps), before));
    PopulateFlat(ps, x, Texts(Show(ps), []));
    assert [Kv(x)][1..] == [];
  }

  class Substituter {
    /** The static result buffer, which outlives the calls. */
    var buffer: string

    constructor ()
      ensures buffer == []
    {
      buffer := [];
    }

    /** Replaces the placeholder for a key throughout the text; the result is the buffer. */
    method ReplaceStr(str: string, orig: string, rep: string) returns (text: string, result: Option<string>)
      requires Replaced(Texts(str, buffer), orig, rep) != Undefined
      modifies this
      ensures match Replaced(Texts(str, old(buffer)), orig, rep)
        case Fails(b) => result == None && text == str && buffer == b
        case Done(t) => result == Some(buffer) && Texts(text, buffer) == t
    {
      hide Find, Loop, Ends, Rewrite, Rounds, StaysWithin;
      text := str;
      if |orig| > KEY_VALUE_SIZE - 2 {
        return text, None;
      }
      var key := KeyName(orig);
      var p := Find(text, key);
      if p == None { NoRound(text, key, rep); }
      while p.Some?
        invariant p == Find(text, key)
        invariant Ends(str, key, rep) && Ends(text, key, rep) && Loop(str, key, rep) == Loop(text, key, rep)
        invariant Find(str, key).Some? ==> StaysWithin(text, key, rep)
        invariant if Find(str, key) == None then text == str && buffer == old(buffer)
                  else text == str || text == buffer
        decreases Rounds(text, key, rep)
      {
        OneRound(text, key, rep);
        WithinStep(text, key, rep);
        buffer := Rewrite(text, p.value, |key|, rep);
        text := buffer;
        p := Find(text, key);
        WithinStep(text, key, rep);
        assert |buffer| < MAX_LOG_STR;
      }
      NoRound(text, key, rep);
      result := Some(buffer);
    }

    /** Rewrites the text for one key=value string. */
    method PopulateStr(s1: string, s2: string) returns (text: string, ok: bool)
      requires Populate(Texts(s1, buffer), s2) != Undefined
      modifies this
      ensures match Populate(Texts(s1, old(buffer)), s2)
        case Fails(b) => !ok && buffer == b
        case Done(t) => ok && Texts(text, buffer) == t
    {
      hide Replaced;
      text := s1;
      if !(0 < |s2| < KEY_VALUE_SIZE) {
        return text, false;
      }
      var tokens := Split(s2, '=');
      var final: Option<string> := None;
      var i := 1;
      assert tokens[1..] == tokens[i..];
      while i < |tokens|
        invariant 1 <= i <= |tokens|
        invariant final == (if i == 1 then None else Some(buffer))
        invariant ReplaceEach(Texts(s1, old(buffer)), tokens[0], tokens[1..]) ==
          ReplaceEach(Texts(text, buffer), tokens[0], tokens[i..])
        invariant i == 1 ==> text == s1 && buffer == old(buffer)
      {
        assert tokens[i..][0] == tokens[i] && tokens[i..][1..] == tokens[i + 1..];
        text, final := ReplaceStr(text, tokens[0], tokens[i]);
        if final == None {
          return text, false;
        }
        i := i + 1;
      }
      if final == None {
        return text, false;
      }
      assert tokens[i..] == [];
      if 0 < |final.value| < MAX_LOG_STR {
        return final.value, true;
      }
      return text, false;
    }

    /** The text and the list for an event with the given arguments. */
    method Compose(description: string, args: seq<Option<string>>, keys: int)
      returns (text: string, all: string, none: bool, ok: bool)
      requires |Given(args, keys)| < keys ==> |Given(args, keys)| < |args|
      requires Composed(description, buffer, Given(args, keys)) != Undefined
      modifies this
      ensures |all| <= 2 * KEY_VALUE_SIZE - 1
      ensures match Composed(description, old(buffer), Given(args, keys))
        case Fails(b) => !ok && buffer == b
        case Done(r) => ok && Texts(text, buffer) == r.0 && all == r.1 && (none <==> |Given(args, keys)| < keys)
    {
      hide Populate, Accumulate, Given, Stored;
      text, all, none := if |description| < MAX_LOG_STR then description else [], [], false;
      ghost var given := Given(args, keys);
      var pair, i := "", 0;
      assert given[0..] == given && args[0..] == args;
      if keys <= 0 { NoneGiven(args, keys); }
      while i < keys
        invariant i <= |given| && (keys <= 0 ==> i == 0 && given == [])
        invariant i <= |args| && given[i..] == Given(args[i..], keys - i)
        invariant |all| <= 2 * KEY_VALUE_SIZE - 1 && !none
        invariant Composed(description, old(buffer), given) ==
          Message(Texts(text, buffer), all, Stored(pair, given[i..]))
      {
        NextGiven(args, keys, i);
        var tmp := args[i];
        if tmp == None {
          none := true;
          break;
        }
        assert given[i..][0] == given[i] && given[i..][1..] == given[i + 1..];
        StoredNext(pair, given[i..]);
        if |tmp.value| < KEY_VALUE_SIZE {
          pair := tmp.value;
        }
        var good;
        text, good := PopulateStr(text, pair);
        if !good {
          return text, all, none, false;
        }
        pair := pair + [','];
        all := Accumulate(all, pair);
        i := i + 1;
      }
      if !none && keys > 0 { NoneGiven(args[i..], keys - i); }
      assert given[i..] == [] && Stored(pair, []) == [];
      ok := true;
    }
  }

  /** The composed text, the result buffer and the list. */
  ghost function Composed(description: string, buffer: string, given: seq<string>): Call<(Texts, string)> {
    Message(Texts(if |description| < MAX_LOG_STR then description else [], buffer), [], Stored([], given))
  }

  lemma StoredNext(pair: string, args: seq<string>)
    requires args != []
    ensures var kv := if |args[0]| < KEY_VALUE_SIZE then args[0] else pair;
      var all := Stored(pair, args);
      all != [] && all[0] == kv && all[1..] == Stored(kv + [','], args[1..])
  {
  }

  /** For arguments that fit, the composed text is the message of the theorems above. */
  lemma {:induction false} ComposedIsMessage(description: string, buffer: string, xs: Pairs)
    requires |description| < MAX_LOG_STR && PairsOk(xs)
    ensures Composed(description, buffer, Kvs(xs)) == Message(Texts(description, buffer), [], Kvs(xs))
  {
    KvsFit(xs);
    StoredWhole([], Kvs(xs));
  }

  lemma {:induction false} KvsFit(xs: Pairs)
    requires PairsOk(xs)
    ensures forall kv :: kv in Kvs(xs) ==> |kv| < KEY_VALUE_SIZE
  {
    if xs != [] {
      assert xs[0] in xs && PairsOk(xs[1..]);
      KvsFit(xs[1..]);
    }
  }

  lemma NoneGiven(args: seq<Option<string>>, keys: int)
    requires keys <= 0
    ensures Given(args, keys) == []
  {
  }

  lemma NextGiven(args: seq<Option<string>>, keys: int, i: nat)
    requires i < keys && i <= |args|
    ensures Given(args[i..], keys - i) ==
      if i == |args| || args[i] == None then [] else [args[i].value] + Given(args[i + 1..], keys - i - 1)
  {
    if i < |args| {
      assert args[i..][0] == args[i] && args[i..][1..] == args[i + 1..];
    }
  }
}
