/** Which commands the parser rejects because they would start the command itself again. */
module ShowTechPattern {
  import opened ShowTechSpec

  /** Space, tab, newline, carriage return, vertical tab and form feed. */
  const BLANKS := [' ', '\t', '\n', '\r', 0x0B as char, 0x0C as char]

  predicate Blanks(s: string) {
    forall c :: c in s ==> c in BLANKS
  }

  lemma {:induction false} SkipIs(s: string)
    ensures |SkipSpaces(s)| <= |s| && s[|s| - |SkipSpaces(s)|..] == SkipSpaces(s)
    ensures Blanks(s[..|s| - |SkipSpaces(s)|])
    ensures SkipSpaces(s) == [] || !IsSpace(SkipSpaces(s)[0])
  {
    if s != [] && IsSpace(s[0]) {
      var n := |s| - |SkipSpaces(s)|;
      SkipIs(s[1..]);
      assert s[..n] == [s[0]] + s[1..][..n - 1] && s[n..] == s[1..][n - 1..];
    } else {
      assert s[..0] == [] && s[0..] == s;
    }
  }

  lemma {:induction false} SkipBlanks(a: string, s: string)
    requires Blanks(a) && (s == [] || !IsSpace(s[0]))
    ensures SkipSpaces(a + s) == s
  {
    if a == [] {
      assert a + s == s;
    } else {
      assert a[0] in a && (a + s)[0] == a[0] && (a + s)[1..] == a[1..] + s;
      SkipBlanks(a[1..], s);
    }
  }

  /** The text is blanks, the word show, at least one blank, and the word tech, before whatever follows. */
  predicate ShowTechText(s: string, a: string, b: string, rest: string) {
    Blanks(a) && Blanks(b) && b != [] && s == a + "show" + b + "tech" + rest
  }

  lemma HereSplits(s: string) returns (a: string, b: string, rest: string)
    requires ShowTechHere(s)
    ensures ShowTechText(s, a, b, rest)
  {
    hide SkipSpaces, Blanks, IsSpace;
    var u := SkipSpaces(s);
    var v := u[4..];
    var w := SkipSpaces(v);
    SkipIs(s);
    SkipIs(v);
    a, b, rest := s[..|s| - |u|], v[..|v| - |w|], w[4..];
    NotThere(v);
    FiveParts(s, a, u, v, b, w);
  }

  lemma FiveParts(s: string, a: string, u: string, v: string, b: string, w: string)
    requires s == a + u && "show" <= u && v == u[4..] && v == b + w && "tech" <= w
    ensures s == a + "show" + b + "tech" + w[4..]
  {
    assert u == "show" + v && w == "tech" + w[4..];
    Regroup(a, "show", b, "tech", w[4..]);
  }

  lemma Regroup(a: string, p: string, b: string, q: string, rest: string)
    ensures a + p + b + q + rest == a + (p + (b + (q + rest)))
  {
  }

  lemma HereHolds(s: string, a: string, b: string, rest: string)
    requires ShowTechText(s, a, b, rest)
    ensures ShowTechHere(s)
  {
    hide SkipSpaces, Blanks, IsSpace;
    var w := "tech" + rest;
    var v := b + w;
    var u := "show" + v;
    Regroup(a, "show", b, "tech", rest);
    LettersShow();
    SkipBlanks(a, u);
    SkipBlanks(b, w);
    BlankFirst(b);
    assert u[4..] == v && v[0] == b[0];
  }

  lemma NotThere(v: string)
    requires v != [] && IsSpace(v[0])
    ensures SkipSpaces(v) != v
  {
    SkipIs(v[1..]);
  }

  lemma BlankFirst(b: string)
    requires Blanks(b) && b != []
    ensures IsSpace(b[0])
  {
    assert b[0] in b;
  }

  lemma LettersShow()
    ensures !IsSpace('s') && !IsSpace('t')
  {
  }

  /** That text, at the start or behind a newline. */
  predicate Recurses(s: string, front: string, a: string, b: string, rest: string) {
    && (front == [] || front[|front| - 1] == '\n')
    && Blanks(a) && Blanks(b) && b != [] && s == front + (a + "show" + b + "tech" + rest)
  }

  /** A command is rejected exactly if, at its start or behind a newline, it has blanks, the word show, at
      least one blank, and the word tech. */
  lemma {:induction false} ShowTechExactly(s: string)
    ensures IsShowTech(s) <==> exists front, a, b, rest :: Recurses(s, front, a, b, rest)
  {
    hide ShowTechHere, Blanks, Recurses;
    if IsShowTech(s) {
      var i :| 0 <= i <= |s| && (i == 0 || s[i - 1] == '\n') && ShowTechHere(s[i..]);
      var a, b, rest := HereSplits(s[i..]);
      assert Recurses(s, s[..i], a, b, rest) by { RecursesAt(s, i, a, b, rest); }
    }
    if front, a, b, rest :| Recurses(s, front, a, b, rest) {
      RecursesHere(s, front, a, b, rest);
    }
  }

  lemma RecursesAt(s: string, i: nat, a: string, b: string, rest: string)
    requires i <= |s| && (i == 0 || s[i - 1] == '\n') && ShowTechText(s[i..], a, b, rest)
    ensures Recurses(s, s[..i], a, b, rest)
  {
    assert s == s[..i] + s[i..];
  }

  lemma RecursesHere(s: string, front: string, a: string, b: string, rest: string)
    requires Recurses(s, front, a, b, rest)
    ensures IsShowTech(s)
  {
    hide ShowTechHere;
    var t := a + "show" + b + "tech" + rest;
    assert s[|front|..] == t && (|front| > 0 ==> s[|front| - 1] == front[|front| - 1]);
    HereHolds(t, a, b, rest);
  }

  /** A text too short for both words and a blank is no such command. */
  lemma {:induction false} ShortIsFine(s: string)
    requires |s| < 9
    ensures !IsShowTech(s)
  {
    ShowTechExactly(s);
    forall front, a, b, rest ensures !Recurses(s, front, a, b, rest) {
      assert |"show"| == 4 && |"tech"| == 4;
    }
  }
}
