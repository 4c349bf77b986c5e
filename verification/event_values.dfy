/** The values of an event definition: numbers, and lists of keys that are counted with strtok. */
module EventValues {
  import opened Text

  // ----- numbers -----

  function Digits(s: string): (r: string)
    ensures AllDigits(r)
  {
    if s == [] || !IsDigit(s[0]) then [] else [s[0]] + Digits(s[1..])
  }

  predicate Blank(c: char) {
    c == ' ' || '\t' <= c <= '\r'
  }

  /** The number at the start of a scalar, as the C library reads it. */
  function ReadInt(s: string): int {
    if s != [] && Blank(s[0]) then ReadInt(s[1..])
    else if s != [] && s[0] == '-' then 0 - Atoi(Digits(s[1..]))
    else if s != [] && s[0] == '+' then Atoi(Digits(s[1..]))
    else Atoi(Digits(s))
  }

  /** Nothing that follows goes on with a number. */
  predicate Stops(rest: string) {
    rest == [] || !IsDigit(rest[0])
  }

  lemma {:induction false} DigitsThen(s: string, rest: string)
    requires AllDigits(s) && Stops(rest)
    ensures Digits(s + rest) == s
  {
    if s == [] {
      assert s + rest == rest;
    } else {
      assert s[0] in s && (s + rest)[0] == s[0] && (s + rest)[1..] == s[1..] + rest;
      DigitsThen(s[1..], rest);
    }
  }

  lemma DigitsRead(d: string, rest: string)
    requires d != [] && AllDigits(d) && Stops(rest)
    ensures ReadInt(d + rest) == Atoi(d)
  {
    DigitsThen(d, rest);
    assert IsDigit(d[0]) by { assert d[0] in d; }
    assert (d + rest)[0] == d[0];
    hide Digits, Atoi, Stops;
  }

  lemma SignedRead(d: string, rest: string)
    requires AllDigits(d) && Stops(rest)
    ensures ReadInt("+" + d + rest) == Atoi(d) && ReadInt("-" + d + rest) == 0 - Atoi(d)
  {
    DigitsThen(d, rest);
    hide Digits, Atoi, Stops;
    assert ("+" + d + rest)[0] == '+' && ("+" + d + rest)[1..] == d + rest;
    assert ("-" + d + rest)[0] == '-' && ("-" + d + rest)[1..] == d + rest;
  }

  /** The decimal form of a number is read back, with or without a sign, and with anything behind it
      that does not begin with a digit. */
  lemma {:induction false} NumberRead(n: nat, rest: string)
    requires Stops(rest)
    ensures ReadInt(Dec(n) + rest) == n
    ensures ReadInt("+" + Dec(n) + rest) == n && ReadInt("-" + Dec(n) + rest) == 0 - n
  {
    hide Dec, Atoi, ReadInt, Stops;
    DigitsRead(Dec(n), rest);
    SignedRead(Dec(n), rest);
    AtoiDec(n);
  }

  /** Blanks before a number are skipped. */
  lemma {:induction false} BlanksSkipped(blanks: string, s: string)
    requires forall c :: c in blanks ==> Blank(c)
    ensures ReadInt(blanks + s) == ReadInt(s)
    decreases |blanks|
  {
    if blanks == [] {
      assert blanks + s == s;
    } else {
      assert blanks[0] in blanks && forall c :: c in blanks[1..] ==> c in blanks;
      BlanksSkipped(blanks[1..], s);
      assert (blanks + s)[0] == blanks[0] && (blanks + s)[1..] == blanks[1..] + s;
    }
  }

  /** A scalar that begins like a word is read as 0. */
  lemma WordRead(s: string)
    requires s == [] || !(Blank(s[0]) || IsDigit(s[0]) || s[0] == '-' || s[0] == '+')
    ensures ReadInt(s) == 0
  {
    assert Digits(s) == [] && Atoi([]) == 0;
  }

  // ----- the number of keys -----

  /** The number of tokens that strtok finds. */
  function CountKeys(s: string): nat {
    |Split(s, ',')|
  }

  /** A key begins here. */
  predicate Begins(s: string, i: nat)
    requires i < |s|
  {
    s[i] != ',' && (i == 0 || s[i - 1] == ',')
  }

  /** The places at which keys begin. */
  function Beginnings(s: string): set<nat> {
    set i: nat | i < |s| && Begins(s, i)
  }

  function BeginningsFrom(s: string, k: nat): set<nat> {
    set i: nat | k <= i < |s| && Begins(s, i)
  }

  /** The number of keys of any scalar is the number of places where a key begins, at the start or
      behind a comma: commas next to one another, at the start and at the end do not count. */
  lemma {:induction false} CountExactly(s: string)
    ensures CountKeys(s) == |Beginnings(s)|
  {
    CountRest(s, [], 0);
    assert s[0..] == s && BeginningsFrom(s, 0) == Beginnings(s);
  }

  lemma {:induction false} CountRest(s: string, cur: string, k: nat)
    requires k <= |s| && (cur != [] <==> k > 0 && s[k - 1] != ',')
    ensures |TokensFrom(cur, s[k..], ',')| == |Cut(cur)| + |BeginningsFrom(s, k)|
    decreases |s| - k
  {
    if k == |s| {
      assert BeginningsFrom(s, k) == {};
    } else {
      var c := s[k];
      assert s[k..][0] == c && s[k..][1..] == s[k + 1..];
      CountRest(s, if c == ',' then [] else cur + [c], k + 1);
      NextBeginning(s, k);
    }
  }

  lemma NextBeginning(s: string, k: nat)
    requires k < |s|
    ensures |BeginningsFrom(s, k)| == |BeginningsFrom(s, k + 1)| + if Begins(s, k) then 1 else 0
  {
    var next := BeginningsFrom(s, k + 1);
    assert BeginningsFrom(s, k) == if Begins(s, k) then next + {k} else next;
  }

  /** Keys joined by commas are all counted. */
  lemma {:induction false} KeysOfJoin(ks: seq<string>)
    requires forall k :: k in ks ==> IsToken(k, ',')
    ensures CountKeys(Join(ks, ',')) == |ks|
  {
    SplitOfJoin(ks, ',');
  }

  /** Two keys, as for the number of fans in a subsystem. */
  lemma {:induction false} TwoKeys()
    ensures CountKeys("count, subsystem") == 2
  {
    KeysOfJoin(["count", " subsystem"]);
    assert ["count", " subsystem"][1..] == [" subsystem"];
    assert "count" + [','] + " subsystem" == "count, subsystem";
  }

  // ----- the scalar after it was counted -----

  function UpToComma(s: string): string {
    if s == [] || s[0] == ',' then [] else [s[0]] + UpToComma(s[1..])
  }

  /** What counting the keys leaves of a scalar: it is cut in place behind the first key. */
  function FirstKey(s: string): string {
    if s != [] && s[0] == ',' then [','] + FirstKey(s[1..]) else UpToComma(s)
  }

  /** Of commas, a key and whatever follows from the next comma on, the commas and the key are left. */
  lemma {:induction false} FirstKeyIs(commas: string, k: string, rest: string)
    requires (forall c :: c in commas ==> c == ',') && ',' !in k && (rest == [] || (k != [] && rest[0] == ','))
    ensures FirstKey(commas + k + rest) == commas + k
    decreases |commas|
  {
    var s := commas + k + rest;
    if commas == [] {
      assert s == k + rest;
      UpTo(k, rest);
      if k != [] {
        assert k[0] in k && s[0] == k[0];
      }
    } else {
      assert forall c :: c in commas[1..] ==> c in commas;
      assert commas[0] in commas && s[0] == ',' && s[1..] == commas[1..] + k + rest;
      FirstKeyIs(commas[1..], k, rest);
      assert [','] + (commas[1..] + k) == commas + k;
    }
  }

  lemma {:induction false} UpTo(k: string, rest: string)
    requires ',' !in k && (rest == [] || rest[0] == ',')
    ensures UpToComma(k + rest) == k
  {
    if k == [] {
      assert k + rest == rest;
    } else {
      assert k[0] in k && (k + rest)[0] == k[0] && (k + rest)[1..] == k[1..] + rest;
      UpTo(k[1..], rest);
    }
  }

  /** One key alone is counted as one, and nothing is cut. */
  lemma OneKey(k: string)
    requires IsToken(k, ',')
    ensures CountKeys(k) == 1 && FirstKey(k) == k
  {
    KeysOfJoin([k]);
    FirstKeyIs([], k, []);
    assert [] + k + [] == k;
  }
}
