/** What a stream of events says, without the parser: each value belongs to the last keyword before
    it, features, sub-features and tables are the parts between their keywords, and a field is
    what stands in its part, wherever that is.  The parser accepts exactly the streams in which
    every field has a place, and returns exactly what they say. */
module ShowTechReading {
  import opened Options
  import opened ShowTechSpec

  // ----- values with the keywords they belong to -----

  /** A keyword that begins a part, a value with its keyword, or an error of the lexer. */
  datatype Token = Mark(k: Keyword) | Field(k: Keyword, v: string) | Bad

  predicate BeginsPart(k: Keyword) {
    k == KwFeature || k == KwSubFeature || k == KwTable
  }

  /** The tokens of a stream that follows a keyword. */
  function Tokens(key: Keyword, es: seq<Event>): seq<Token>
    decreases |es|
  {
    if es == [] then []
    else
      match es[0]
      case Structure => Tokens(key, es[1..])
      case ParserError => [Bad] + Tokens(key, es[1..])
      case Scalar(v) =>
        var k := KeywordOf(v);
        if k == Value then [Field(key, v)] + Tokens(key, es[1..])
        else (if BeginsPart(k) then [Mark(k)] else []) + Tokens(k, es[1..])
  }

  // ----- parts and fields -----

  function Init<T>(s: seq<T>): seq<T>
    requires s != []
  {
    s[..|s| - 1]
  }

  function Final<T>(s: seq<T>): T
    requires s != []
  {
    s[|s| - 1]
  }

  /** The parts between the marks of one kind; the first one stands before the first mark. */
  function Parts(ts: seq<Token>, k: Keyword): (ps: seq<seq<Token>>)
    ensures ps != []
    decreases |ts|
  {
    if ts == [] then [[]]
    else
      var ps := Parts(Init(ts), k);
      if Final(ts) == Mark(k) then ps + [[]] else Init(ps) + [Final(ps) + [Final(ts)]]
  }

  /** The values of one keyword, in order. */
  function Values(ts: seq<Token>, k: Keyword): seq<string>
    decreases |ts|
  {
    if ts == [] then []
    else Values(Init(ts), k) + (if Final(ts).Field? && Final(ts).k == k then [Final(ts).v] else [])
  }

  /** Of several values for one field the last one counts. */
  function LastOf(vs: seq<string>): Option<string> {
    if vs == [] then None else Some(vs[|vs| - 1])
  }

  // ----- what the parts say -----

  function ReadTable(ts: seq<Token>): Table {
    Table(LastOf(Values(ts, KwTableName)), Values(ts, KwColNames))
  }

  function ReadTables(ps: seq<seq<Token>>): (xs: seq<Table>)
    ensures |xs| == |ps| && forall i :: 0 <= i < |ps| ==> xs[i] == ReadTable(ps[i])
  {
    seq(|ps|, i requires 0 <= i < |ps| => ReadTable(ps[i]))
  }

  function Says(v: Option<string>, yes: bool): bool {
    v.Some? && IsYes(v.value) == yes
  }

  function ReadSub(ts: seq<Token>, dummy: bool): SubFeature {
    SubFeature(
      LastOf(Values(ts, KwSubFeatureName)), LastOf(Values(ts, KwSubFeatureDesc)),
      Says(LastOf(Values(ts, KwShowTechAll)), false), Says(LastOf(Values(ts, KwShowTechFeature)), true), dummy,
      Values(ts, KwCliCmds), ReadTables(Parts(ts, KwTable)[1..]))
  }

  function ReadSubs(ps: seq<seq<Token>>): (xs: seq<SubFeature>)
    ensures |xs| == |ps| && forall i :: 0 <= i < |ps| ==> xs[i] == ReadSub(ps[i], false)
  {
    seq(|ps|, i requires 0 <= i < |ps| => ReadSub(ps[i], false))
  }

  /** What only a sub-feature can have: a flag, a command or a table. */
  predicate Attribute(t: Token) {
    t == Mark(KwTable) || (t.Field? && (t.k == KwShowTechAll || t.k == KwShowTechFeature || t.k == KwCliCmds))
  }

  predicate HasAttribute(ts: seq<Token>) {
    exists t :: t in ts && Attribute(t)
  }

  /** Attributes before the first sub-feature make a dummy one. */
  function ReadBody(ps: seq<seq<Token>>): seq<SubFeature>
    requires ps != []
  {
    (if HasAttribute(ps[0]) then [ReadSub(ps[0], true)] else []) + ReadSubs(ps[1..])
  }

  function ReadFeature(ts: seq<Token>): Feature {
    Feature(LastOf(Values(ts, KwFeatureName)), LastOf(Values(ts, KwFeatureDesc)), ReadBody(Parts(ts, KwSubFeature)))
  }

  function ReadFeatures(ps: seq<seq<Token>>): (fs: seq<Feature>)
    ensures |fs| == |ps| && forall i :: 0 <= i < |ps| ==> fs[i] == ReadFeature(ps[i])
  {
    seq(|ps|, i requires 0 <= i < |ps| => ReadFeature(ps[i]))
  }

  /** The tree that a stream describes. */
  function Read(ts: seq<Token>): seq<Feature> {
    ReadFeatures(Parts(ts, KwFeature)[1..])
  }

  // ----- which fields have a place -----

  /** The tokens since the last feature, and since the last feature or sub-feature. */
  function Current(ts: seq<Token>): seq<Token> {
    Final(Parts(ts, KwFeature))
  }

  function Open(ts: seq<Token>): seq<Token> {
    Final(Parts(Current(ts), KwSubFeature))
  }

  /** After the tokens ts the token t has a place. */
  predicate HasPlace(ts: seq<Token>, t: Token) {
    match t
    case Bad => false
    case Mark(k) => k == KwFeature || Mark(KwFeature) in ts
    case Field(k, v) =>
      match k
      case KwFeatureName => Mark(KwFeature) in ts
      case KwFeatureDesc => Mark(KwFeature) in ts
      case KwSubFeatureName => Mark(KwSubFeature) in Current(ts) || HasAttribute(Current(ts))
      case KwSubFeatureDesc => Mark(KwSubFeature) in Current(ts) || HasAttribute(Current(ts))
      case KwTableName => Mark(KwTable) in Open(ts)
      case KwColNames => Mark(KwTable) in Open(ts)
      case KwCliCmds => !IsShowTech(v)
      case _ => true
  }

  predicate AllHavePlaces(ts: seq<Token>) {
    forall i :: 0 <= i < |ts| ==> HasPlace(ts[..i], ts[i])
  }

  // ----- the parser over tokens -----

  function Norm(s: State): State {
    s.(key := KwFeature)
  }

  function OneToken(s: State, t: Token): State {
    if s.failed then s
    else
      match t
      case Bad => Norm(Fail(s))
      case Mark(k) => if k == Value then s else Norm(OnKeyword(s, k))
      case Field(k, v) => Norm(OnValue(s.(key := k), v))
  }

  /** The tokens from the left, as a fold from the right end. */
  function AllTokens(s: State, ts: seq<Token>): State
    decreases |ts|
  {
    if ts == [] then s else OneToken(AllTokens(s, Init(ts)), Final(ts))
  }

  lemma {:induction false} TokensFrom(s: State, t: Token, ts: seq<Token>)
    ensures AllTokens(s, [t] + ts) == AllTokens(OneToken(s, t), ts)
    decreases |ts|
  {
    hide OneToken;
    if ts == [] {
      assert [t] + ts == [t] && Init([t]) == [] && AllTokens(s, []) == s;
    } else {
      assert Init([t] + ts) == [t] + Init(ts) && Final([t] + ts) == Final(ts);
      TokensFrom(s, t, Init(ts));
    }
  }

  lemma OtherKeyword(s: State, k: Keyword)
    requires k != Value && !BeginsPart(k)
    ensures Norm(OnKeyword(s, k)) == Norm(s)
  {
  }

  lemma KeyDoesNotMatter(s: State, k: Keyword)
    requires k != Value && !s.failed
    ensures BeginsPart(k) ==> Norm(OnKeyword(Norm(s), k)) == Norm(OnKeyword(s, k))
    ensures Norm(Fail(Norm(s))) == Norm(Fail(s))
  {
  }

  lemma {:induction false} FailedStays(s: State, ts: seq<Token>)
    requires s.failed
    ensures AllTokens(s, ts) == s
    decreases |ts|
  {
    if ts != [] {
      FailedStays(s, Init(ts));
    }
  }

  /** The key a state is in after an event, unless it has failed. */
  lemma KeyAfter(s: State, v: string)
    requires !s.failed
    ensures !OnScalar(s, v).failed ==>
      OnScalar(s, v).key == if KeywordOf(v) == Value then s.key else KeywordOf(v)
  {
    hide IsShowTech, CloseSub, Tree, Orphan, SubOrDummy;
  }

  lemma OneScalar(s: State, v: string, rest: seq<Event>)
    requires !s.failed
    ensures AllTokens(Norm(s), Tokens(s.key, [Scalar(v)] + rest)) ==
      AllTokens(Norm(OnScalar(s, v)), Tokens(OnScalar(s, v).key, rest))
  {
    hide KeywordOf, IsShowTech, CloseSub, Tree, OnValue, OnKeyword, AllTokens, Fail;
    var k, es := KeywordOf(v), [Scalar(v)] + rest;
    assert es[1..] == rest;
    KeyAfter(s, v);
    var t := OnScalar(s, v);
    if k == Value {
      TokensFrom(Norm(s), Field(s.key, v), Tokens(s.key, rest));
      assert OneToken(Norm(s), Field(s.key, v)) == Norm(t);
    } else if BeginsPart(k) {
      TokensFrom(Norm(s), Mark(k), Tokens(k, rest));
      KeyDoesNotMatter(s, k);
      assert OneToken(Norm(s), Mark(k)) == Norm(t);
    } else {
      OtherKeyword(s, k);
      assert Tokens(s.key, es) == Tokens(k, rest);
    }
    if t.failed {
      FailedStays(Norm(t), Tokens(s.key, rest));
      FailedStays(Norm(t), Tokens(k, rest));
      FailedStays(Norm(t), Tokens(t.key, rest));
    }
  }

  lemma OneEvent(s: State, e: Event, rest: seq<Event>)
    ensures AllTokens(Norm(s), Tokens(s.key, [e] + rest)) == AllTokens(Norm(Step(s, e)), Tokens(Step(s, e).key, rest))
  {
    hide OnScalar, AllTokens, KeywordOf, Fail;
    assert ([e] + rest)[1..] == rest;
    if s.failed {
      FailedStays(Norm(s), Tokens(s.key, [e] + rest));
      FailedStays(Norm(s), Tokens(s.key, rest));
    } else {
      match e
      case Scalar(v) => OneScalar(s, v, rest);
      case Structure =>
      case ParserError =>
        TokensFrom(Norm(s), Bad, Tokens(s.key, rest));
        ErrorFails(s);
        FailedStays(Norm(Fail(s)), Tokens(s.key, rest));
        FailedStays(Norm(Fail(s)), Tokens(Fail(s).key, rest));
    }
  }

  lemma ErrorFails(s: State)
    requires !s.failed
    ensures OneToken(Norm(s), Bad) == Norm(Fail(s)) && Fail(s).failed
  {
  }

  /** The parser sees no more of a stream than its tokens. */
  lemma {:induction false} RunIsTokens(s: State, es: seq<Event>)
    ensures Norm(Run(s, es)) == AllTokens(Norm(s), Tokens(s.key, es))
    decreases |es|
  {
    hide Step, Tokens;
    if es == [] {
      assert Tokens(s.key, es) == [] by { NoTokens(s.key); }
    } else {
      var rest := es[1..];
      assert [es[0]] + rest == es;
      RunIsTokens(Step(s, es[0]), rest);
      OneEvent(s, es[0], rest);
    }
  }

  lemma NoTokens(key: Keyword)
    ensures Tokens(key, []) == []
  {
  }

  // ----- one more token -----

  lemma PartsMore(ts: seq<Token>, t: Token, k: Keyword)
    ensures Parts(ts + [t], k) ==
      var ps := Parts(ts, k); if t == Mark(k) then ps + [[]] else Init(ps) + [Final(ps) + [t]]
  {
    assert Init(ts + [t]) == ts && Final(ts + [t]) == t;
  }

  lemma ValuesMore(ts: seq<Token>, t: Token, k: Keyword)
    ensures Values(ts + [t], k) == Values(ts, k) + (if t.Field? && t.k == k then [t.v] else [])
  {
    assert Init(ts + [t]) == ts && Final(ts + [t]) == t;
  }

  lemma NoValues(k: Keyword)
    ensures Values([], k) == [] && Parts([], k) == [[]]
  {
  }

  lemma {:induction false} MarksAndParts(ts: seq<Token>, k: Keyword)
    ensures Mark(k) in ts <==> |Parts(ts, k)| > 1
    decreases |ts|
  {
    if ts != [] {
      MarksAndParts(Init(ts), k);
      assert ts == Init(ts) + [Final(ts)];
    }
  }

  lemma ReadTablesMore(ps: seq<seq<Token>>, p: seq<Token>)
    ensures ReadTables(ps + [p]) == ReadTables(ps) + [ReadTable(p)]
  {
  }

  lemma ReadSubsMore(ps: seq<seq<Token>>, p: seq<Token>)
    ensures ReadSubs(ps + [p]) == ReadSubs(ps) + [ReadSub(p, false)]
  {
  }

  lemma ReadFeaturesMore(ps: seq<seq<Token>>, p: seq<Token>)
    ensures ReadFeatures(ps + [p]) == ReadFeatures(ps) + [ReadFeature(p)]
  {
  }

  // ----- tables -----

  /** The table that is being filled, and the finished ones. */
  function LastTable(ts: seq<Token>): Option<Table> {
    var ps := Parts(ts, KwTable);
    if |ps| == 1 then None else Some(ReadTable(Final(ps)))
  }

  function DoneTables(ts: seq<Token>): seq<Table> {
    var ps := Parts(ts, KwTable);
    if |ps| == 1 then [] else ReadTables(Init(ps)[1..])
  }

  lemma TablesAre(ts: seq<Token>)
    ensures ReadTables(Parts(ts, KwTable)[1..]) ==
      DoneTables(ts) + (match LastTable(ts) case None => [] case Some(x) => [x])
  {
    var ps := Parts(ts, KwTable);
    if |ps| > 1 {
      assert ps[1..] == Init(ps)[1..] + [Final(ps)];
      ReadTablesMore(Init(ps)[1..], Final(ps));
    } else {
      assert ps[1..] == [];
    }
  }

  lemma TableMarked(ts: seq<Token>)
    ensures var us := ts + [Mark(KwTable)];
      LastTable(us) == Some(EMPTY_TABLE) && DoneTables(us) == ReadTables(Parts(ts, KwTable)[1..])
  {
    PartsMore(ts, Mark(KwTable), KwTable);
    NoValues(KwTableName);
    NoValues(KwColNames);
    assert Init(Parts(ts, KwTable) + [[]]) == Parts(ts, KwTable);
  }

  lemma TableField(ts: seq<Token>, t: Token)
    requires t != Mark(KwTable)
    ensures var us := ts + [t];
      && DoneTables(us) == DoneTables(ts)
      && LastTable(us) ==
        match LastTable(ts)
        case None => None
        case Some(x) =>
          Some(if t.Field? && t.k == KwTableName then x.(name := Some(t.v))
               else if t.Field? && t.k == KwColNames then x.(cols := x.cols + [t.v])
               else x)
  {
    var ps := Parts(ts, KwTable);
    PartsMore(ts, t, KwTable);
    ValuesMore(Final(ps), t, KwTableName);
    ValuesMore(Final(ps), t, KwColNames);
    assert Init(Init(ps) + [Final(ps) + [t]]) == Init(ps);
    assert Final(Parts(ts + [t], KwTable)) == Final(ps) + [t];
    var vs := Values(Final(ps), KwColNames);
    assert vs + [] == vs;
  }

  // ----- sub-features -----

  /** A sub-feature without its last table. */
  function UpToTable(ts: seq<Token>, dummy: bool): SubFeature {
    ReadSub(ts, dummy).(tables := DoneTables(ts))
  }

  lemma SubIs(ts: seq<Token>, dummy: bool)
    ensures ReadSub(ts, dummy) == CloseTable(UpToTable(ts, dummy), LastTable(ts))
  {
    TablesAre(ts);
    assert DoneTables(ts) + [] == DoneTables(ts);
  }

  /** What one more token does to the sub-feature it belongs to. */
  lemma SubField(ts: seq<Token>, t: Token, dummy: bool)
    requires t != Mark(KwTable)
    ensures var x, y := UpToTable(ts, dummy), UpToTable(ts + [t], dummy);
      y ==
        if !t.Field? then x
        else
          match t.k
          case KwSubFeatureName => x.(name := Some(t.v))
          case KwSubFeatureDesc => x.(desc := Some(t.v))
          case KwShowTechAll => x.(noStaSupport := !IsYes(t.v))
          case KwShowTechFeature => x.(supportStb := IsYes(t.v))
          case KwCliCmds => x.(cmds := x.cmds + [t.v])
          case _ => x
  {
    hide IsYes, DoneTables;
    TableField(ts, t);
    ValuesMore(ts, t, KwSubFeatureName);
    ValuesMore(ts, t, KwSubFeatureDesc);
    ValuesMore(ts, t, KwShowTechAll);
    ValuesMore(ts, t, KwShowTechFeature);
    ValuesMore(ts, t, KwCliCmds);
  }

  lemma SubTable(ts: seq<Token>, dummy: bool)
    ensures UpToTable(ts + [Mark(KwTable)], dummy) == ReadSub(ts, dummy)
  {
    var t := Mark(KwTable);
    TableMarked(ts);
    ValuesMore(ts, t, KwSubFeatureName);
    ValuesMore(ts, t, KwSubFeatureDesc);
    ValuesMore(ts, t, KwShowTechAll);
    ValuesMore(ts, t, KwShowTechFeature);
    ValuesMore(ts, t, KwCliCmds);
  }

  lemma NoSub(dummy: bool)
    ensures UpToTable([], dummy) == EMPTY_SUB.(isDummy := dummy) && LastTable([]) == None
  {
    NoValues(KwSubFeatureName);
    NoValues(KwSubFeatureDesc);
    NoValues(KwShowTechAll);
    NoValues(KwShowTechFeature);
    NoValues(KwCliCmds);
    NoValues(KwTable);
  }

  // ----- features -----

  /** No sub-feature has begun yet, so attributes belong to a dummy. */
  predicate IsDummy(cur: seq<Token>) {
    |Parts(cur, KwSubFeature)| == 1
  }

  function Since(cur: seq<Token>): seq<Token> {
    Final(Parts(cur, KwSubFeature))
  }

  predicate IsOpen(cur: seq<Token>) {
    !IsDummy(cur) || HasAttribute(Since(cur))
  }

  /** The sub-features before the one that is being filled. */
  function DoneSubs(cur: seq<Token>): seq<SubFeature> {
    var ps := Parts(cur, KwSubFeature);
    if |ps| == 1 then [] else ReadBody(Init(ps))
  }

  lemma BodyIs(cur: seq<Token>)
    ensures ReadBody(Parts(cur, KwSubFeature)) ==
      DoneSubs(cur) + (if IsOpen(cur) then [ReadSub(Since(cur), IsDummy(cur))] else [])
  {
    hide ReadSub, HasAttribute, Parts, ReadSubs;
    var ps := Parts(cur, KwSubFeature);
    if |ps| == 1 {
      assert ps[1..] == [] && |ReadSubs([])| == 0;
    } else {
      assert ps[1..] == Init(ps)[1..] + [Final(ps)];
      ReadSubsMore(Init(ps)[1..], Final(ps));
    }
  }

  lemma SubMarked(cur: seq<Token>)
    ensures var us := cur + [Mark(KwSubFeature)];
      && DoneSubs(us) == ReadBody(Parts(cur, KwSubFeature)) && Since(us) == [] && !IsDummy(us) && IsOpen(us)
  {
    PartsMore(cur, Mark(KwSubFeature), KwSubFeature);
    assert Init(Parts(cur, KwSubFeature) + [[]]) == Parts(cur, KwSubFeature);
  }

  lemma SubGrows(cur: seq<Token>, t: Token)
    requires t != Mark(KwSubFeature)
    ensures var us := cur + [t];
      && DoneSubs(us) == DoneSubs(cur) && Since(us) == Since(cur) + [t] && IsDummy(us) == IsDummy(cur)
      && (IsOpen(us) <==> IsOpen(cur) || Attribute(t))
  {
    hide ReadBody, Attribute;
    var ps := Parts(cur, KwSubFeature);
    PartsMore(cur, t, KwSubFeature);
    assert Init(Init(ps) + [Final(ps) + [t]]) == Init(ps);
    AttributeMore(Since(cur), t);
  }

  lemma AttributeMore(ts: seq<Token>, t: Token)
    ensures HasAttribute(ts + [t]) <==> HasAttribute(ts) || Attribute(t)
  {
    hide Attribute;
    if HasAttribute(ts) {
      var u :| u in ts && Attribute(u);
      assert u in ts + [t];
    }
    if Attribute(t) { assert t in ts + [t]; }
  }

  /** The sub-feature that is being filled, as the parser holds it. */
  predicate SubMatches(s: State, cur: seq<Token>) {
    && (s.sub.Some? <==> IsOpen(cur))
    && SubOrDummy(s) == UpToTable(Since(cur), IsDummy(cur)) && s.table == LastTable(Since(cur))
    && (s.sub == None ==> s.table == None)
  }

  predicate FeatureMatches(s: State, ts: seq<Token>) {
    var ps := Parts(ts, KwFeature);
    if |ps| == 1 then
      s.feature == None && s.done == [] && IsDummy(ts) && LastTable(ts) == None && Since(ts) == ts
    else
      var cur := Final(ps);
      && s.feature == Some(Feature(LastOf(Values(cur, KwFeatureName)), LastOf(Values(cur, KwFeatureDesc)),
        DoneSubs(cur)))
      && s.done == ReadFeatures(Init(ps)[1..])
  }

  /** The parser holds what the tokens so far say. */
  predicate Matches(s: State, ts: seq<Token>) {
    !s.failed && s.key == KwFeature && FeatureMatches(s, ts) && SubMatches(s, Current(ts))
  }

  lemma MatchesTree(s: State, ts: seq<Token>)
    requires Matches(s, ts)
    ensures Tree(s) == Read(ts)
  {
    hide ReadBody, UpToTable, ReadSub, LastTable, DoneSubs;
    var ps := Parts(ts, KwFeature);
    if |ps| == 1 {
      assert ps[1..] == [] && ReadFeatures([]) == [];
    } else {
      var cur := Final(ps);
      assert ps[1..] == Init(ps)[1..] + [cur];
      ReadFeaturesMore(Init(ps)[1..], cur);
      BodyIs(cur);
      SubIs(Since(cur), IsDummy(cur));
      assert DoneSubs(cur) + [] == DoneSubs(cur);
    }
  }

  // ----- every step keeps the match -----

  lemma CurrentMore(ts: seq<Token>, t: Token)
    requires t != Mark(KwFeature)
    ensures var ps := Parts(ts, KwFeature);
      && Parts(ts + [t], KwFeature) == Init(ps) + [Final(ps) + [t]] && Current(ts + [t]) == Current(ts) + [t]
      && |Parts(ts + [t], KwFeature)| == |ps| && Init(Parts(ts + [t], KwFeature)) == Init(ps)
  {
    var ps := Parts(ts, KwFeature);
    PartsMore(ts, t, KwFeature);
    assert Init(Init(ps) + [Final(ps) + [t]]) == Init(ps);
  }

  /** A token that begins no feature and no sub-feature leaves the features alone, except for their names. */
  lemma FeatureKept(s: State, r: State, ts: seq<Token>, t: Token)
    requires FeatureMatches(s, ts) && r.done == s.done && t != Mark(KwFeature) && t != Mark(KwSubFeature)
    requires t == Mark(KwTable) ==> s.feature.Some?
    requires r.feature ==
      if s.feature.Some? && t.Field? && t.k == KwFeatureName then Some(s.feature.value.(name := Some(t.v)))
      else if s.feature.Some? && t.Field? && t.k == KwFeatureDesc then Some(s.feature.value.(desc := Some(t.v)))
      else s.feature
    ensures FeatureMatches(r, ts + [t])
  {
    hide DoneSubs, IsOpen;
    var cur := Current(ts);
    CurrentMore(ts, t);
    SubGrows(cur, t);
    if s.feature == None {
      WholeIsCurrent(ts);
      TableField(ts, t);
    } else {
      ValuesMore(cur, t, KwFeatureName);
      ValuesMore(cur, t, KwFeatureDesc);
    }
  }

  lemma WholeIsCurrent(ts: seq<Token>)
    requires |Parts(ts, KwFeature)| == 1
    ensures Current(ts) == ts
    decreases |ts|
  {
    if ts != [] {
      assert ts == Init(ts) + [Final(ts)];
      WholeIsCurrent(Init(ts));
    }
  }

  /** The token belongs to a sub-feature that is there, or creates the dummy one. */
  lemma SubKept(s: State, r: State, cur: seq<Token>, t: Token)
    requires SubMatches(s, cur) && t != Mark(KwSubFeature) && t != Mark(KwFeature) && t != Mark(KwTable)
    requires Attribute(t) || !t.Field? || s.sub.Some? || (t.k != KwSubFeatureName && t.k != KwSubFeatureDesc)
    requires t.Field? && (t.k == KwTableName || t.k == KwColNames) ==> s.table.Some?
    requires r == OneToken(s, t) && !r.failed && !s.failed && (t.Mark? ==> BeginsPart(t.k))
    ensures SubMatches(r, cur + [t])
  {
    hide IsOpen, UpToTable, LastTable, IsShowTech, HasAttribute, IsDummy, IsYes;
    SubGrows(cur, t);
    SubField(Since(cur), t, IsDummy(cur));
    TableField(Since(cur), t);
  }

  lemma {:induction false} WholeIsSince(cur: seq<Token>)
    requires IsDummy(cur)
    ensures Since(cur) == cur
    decreases |cur|
  {
    if cur != [] {
      assert cur == Init(cur) + [Final(cur)];
      WholeIsSince(Init(cur));
    }
  }

  /** The conditions for a place, as the parser tests them. */
  lemma PlacesAre(s: State, ts: seq<Token>)
    requires Matches(s, ts)
    ensures Mark(KwFeature) in ts <==> s.feature.Some?
    ensures Mark(KwSubFeature) in Current(ts) || HasAttribute(Current(ts)) <==> s.sub.Some?
    ensures Mark(KwTable) in Open(ts) <==> s.table.Some?
  {
    hide HasAttribute, UpToTable, Parts, ReadTable, DoneSubs;
    var cur := Current(ts);
    MarksAndParts(ts, KwFeature);
    MarksAndParts(cur, KwSubFeature);
    MarksAndParts(Open(ts), KwTable);
    if IsDummy(cur) { WholeIsSince(cur); }
  }

  lemma FieldStep(s: State, ts: seq<Token>, t: Token)
    requires Matches(s, ts) && t.Field?
    ensures var r := OneToken(s, t); if HasPlace(ts, t) then Matches(r, ts + [t]) else r.failed
  {
    hide FeatureMatches, SubMatches, IsShowTech, HasAttribute, Current, Open, SubOrDummy, IsYes;
    PlacesAre(s, ts);
    var r := OneToken(s, t);
    if HasPlace(ts, t) {
      FieldFeature(s, t);
      FeatureKept(s, r, ts, t);
      SubKept(s, r, Current(ts), t);
      CurrentMore(ts, t);
    }
  }

  lemma FieldFeature(s: State, t: Token)
    requires !s.failed && t.Field? && !OneToken(s, t).failed
    ensures var r := OneToken(s, t);
      && r.done == s.done && r.key == KwFeature
      && r.feature ==
        (if s.feature.Some? && t.k == KwFeatureName then Some(s.feature.value.(name := Some(t.v)))
         else if s.feature.Some? && t.k == KwFeatureDesc then Some(s.feature.value.(desc := Some(t.v)))
         else s.feature)
  {
    hide IsShowTech, SubOrDummy, IsYes;
  }

  /** A table, for the current sub-feature or a new dummy one. */
  lemma TableSub(s: State, r: State, cur: seq<Token>)
    requires SubMatches(s, cur)
    requires r.sub == Some(CloseTable(SubOrDummy(s), s.table)) && r.table == Some(EMPTY_TABLE)
    ensures SubMatches(r, cur + [Mark(KwTable)])
  {
    hide UpToTable, LastTable, HasAttribute, IsDummy, ReadSub, IsOpen, CloseTable, DoneSubs, Since;
    SubGrows(cur, Mark(KwTable));
    SubIs(Since(cur), IsDummy(cur));
    SubTable(Since(cur), IsDummy(cur));
    TableMarked(Since(cur));
  }

  lemma TableStep(s: State, ts: seq<Token>)
    requires Matches(s, ts) && s.feature.Some?
    ensures Matches(OneToken(s, Mark(KwTable)), ts + [Mark(KwTable)])
  {
    hide FeatureMatches, SubMatches, Parts, SubOrDummy, CloseTable;
    var t := Mark(KwTable);
    var r := OneToken(s, t);
    FeatureKept(s, r, ts, t);
    CurrentMore(ts, t);
    TableSub(s, r, Current(ts));
  }

  lemma SubStep(s: State, ts: seq<Token>)
    requires Matches(s, ts) && s.feature.Some?
    ensures Matches(OneToken(s, Mark(KwSubFeature)), ts + [Mark(KwSubFeature)])
  {
    hide UpToTable, LastTable, HasAttribute, IsDummy, ReadSub, IsOpen, DoneSubs, Since, ReadBody, ReadFeatures;
    var t, cur := Mark(KwSubFeature), Current(ts);
    CurrentMore(ts, t);
    SubMarked(cur);
    SubIs(Since(cur), IsDummy(cur));
    BodyIs(cur);
    NoSub(false);
    ValuesMore(cur, t, KwFeatureName);
    ValuesMore(cur, t, KwFeatureDesc);
    assert DoneSubs(cur) + [] == DoneSubs(cur);
  }

  lemma FeatureStep(s: State, ts: seq<Token>)
    requires Matches(s, ts)
    ensures Matches(OneToken(s, Mark(KwFeature)), ts + [Mark(KwFeature)])
  {
    hide UpToTable, LastTable, ReadSub, ReadBody, Tree, Orphan, ReadFeatures, Parts;
    var t, ps := Mark(KwFeature), Parts(ts, KwFeature);
    PartsMore(ts, t, KwFeature);
    assert Init(ps + [[]]) == ps && Final(ps + [[]]) == [];
    MatchesTree(s, ts);
    NoSub(true);
    NoValues(KwFeatureName);
    NoValues(KwFeatureDesc);
    NoValues(KwSubFeature);
  }

  lemma {:induction false} StepMatches(s: State, ts: seq<Token>, t: Token)
    requires Matches(s, ts) && (t.Mark? ==> BeginsPart(t.k))
    ensures var r := OneToken(s, t); if HasPlace(ts, t) then Matches(r, ts + [t]) else r.failed
  {
    hide Matches, OnValue;
    if t.Field? {
      FieldStep(s, ts, t);
    } else if t == Mark(KwFeature) {
      FeatureStep(s, ts);
    } else {
      PlacesAre(s, ts);
      if t.Mark? && s.feature.Some? {
        if t.k == KwTable { TableStep(s, ts); } else { SubStep(s, ts); }
      } else {
        StillGood(s, ts);
      }
    }
  }

  lemma StillGood(s: State, ts: seq<Token>)
    requires Matches(s, ts)
    ensures !s.failed
  {
  }

  /** Over any tokens: the parser fails exactly if one of them has no place, and otherwise holds what
      they say. */
  lemma {:induction false} TokensMatch(ts: seq<Token>)
    requires forall t :: t in ts && t.Mark? ==> BeginsPart(t.k)
    ensures var s := AllTokens(INITIAL, ts); if AllHavePlaces(ts) then Matches(s, ts) else s.failed
    decreases |ts|
  {
    hide Matches, HasPlace, OneToken;
    if ts == [] {
      NothingMatches();
    } else {
      var us, t := Init(ts), Final(ts);
      assert ts == us + [t] && t in ts;
      TokensMatch(us);
      PlacesMore(us, t);
      var s := AllTokens(INITIAL, us);
      if AllHavePlaces(us) {
        StepMatches(s, us, t);
      } else {
        FailedStep(s, t);
      }
    }
  }

  lemma FailedStep(s: State, t: Token)
    requires s.failed
    ensures OneToken(s, t) == s
  {
  }

  lemma PlacesMore(us: seq<Token>, t: Token)
    ensures AllHavePlaces(us + [t]) <==> AllHavePlaces(us) && HasPlace(us, t)
  {
    hide HasPlace;
    var ts := us + [t];
    assert forall i :: 0 <= i <= |us| ==> ts[..i] == us[..i];
    assert us[..|us|] == us && ts[|us|] == t;
    if AllHavePlaces(ts) {
      assert HasPlace(ts[..|us|], ts[|us|]);
      forall i | 0 <= i < |us| ensures HasPlace(us[..i], us[i]) {
        assert HasPlace(ts[..i], ts[i]);
      }
    }
  }

  lemma NothingMatches()
    ensures Matches(INITIAL, [])
  {
    hide UpToTable, LastTable, Parts;
    NoSub(true);
    NoValues(KwFeature);
    NoValues(KwSubFeature);
  }

  lemma {:induction false} TokensProper(key: Keyword, es: seq<Event>)
    ensures forall t :: t in Tokens(key, es) && t.Mark? ==> BeginsPart(t.k)
    decreases |es|
  {
    hide KeywordOf;
    if es != [] {
      TokensProper(key, es[1..]);
      if es[0].Scalar? { TokensProper(KeywordOf(es[0].value), es[1..]); }
    }
  }

  // ----- what the parser accepts and returns -----

  /** What a whole stream says. */
  function Said(es: seq<Event>): seq<Token> {
    Tokens(KwFeature, es)
  }

  /** The parser rejects a stream exactly if something in it has no place. */
  lemma {:induction false} RejectedExactly(es: seq<Event>)
    ensures Run(INITIAL, es).failed <==> !AllHavePlaces(Said(es))
  {
    hide Matches, AllTokens, Run, Tokens;
    RunIsTokens(INITIAL, es);
    TokensProper(KwFeature, es);
    TokensMatch(Said(es));
    if AllHavePlaces(Said(es)) { StillGood(AllTokens(INITIAL, Said(es)), Said(es)); }
  }

  /** And what it returns is what the stream says, or nothing. */
  lemma {:induction false} ParseIsRead(es: seq<Event>)
    ensures Parse(es) == if AllHavePlaces(Said(es)) then Read(Said(es)) else []
  {
    hide Matches, AllTokens, Tokens, Read;
    RunIsTokens(INITIAL, es);
    TokensProper(KwFeature, es);
    TokensMatch(Said(es));
    var s := AllTokens(INITIAL, Said(es));
    TreeOfNorm(Run(INITIAL, es));
    if AllHavePlaces(Said(es)) {
      MatchesTree(s, Said(es));
    } else {
      RunWellFormed(INITIAL, es);
      RejectedExactly(es);
      FailedEmpty(INITIAL, es);
    }
  }

  lemma TreeOfNorm(s: State)
    ensures Tree(Norm(s)) == Tree(s)
  {
  }

  lemma {:induction false} FailedEmpty(s: State, es: seq<Event>)
    requires s.failed ==> Tree(s) == []
    ensures Run(s, es).failed ==> Tree(Run(s, es)) == []
    decreases |es|
  {
    hide Step, Tree;
    if es != [] {
      StepEmpty(s, es[0]);
      FailedEmpty(Step(s, es[0]), es[1..]);
    }
  }

  lemma StepEmpty(s: State, e: Event)
    requires s.failed ==> Tree(s) == []
    ensures Step(s, e).failed ==> Tree(Step(s, e)) == []
  {
    hide KeywordOf, IsShowTech, CloseSub, CloseTable;
  }
}
