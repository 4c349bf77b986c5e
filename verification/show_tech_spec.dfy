/** What the show-tech configuration parser means: the configuration tree, the parser
    as a fold over YAML events, and the event stream that writes a tree down. */
module ShowTechSpec {
  import opened Options

  // ----- keywords -----

  datatype Keyword =
    | KwFeature | KwFeatureName | KwFeatureDesc
    | KwSubFeature | KwSubFeatureName | KwSubFeatureDesc
    | KwShowTechAll | KwShowTechFeature
    | KwCliCmds | KwOvsdb | KwTable | KwTableName | KwColNames
    | Value

  const KEYSTR: seq<string> := [
    "feature", "feature_name", "feature_desc",
    "sub_feature", "sub_feature_name", "sub_feature_desc",
    "support_showtech_all", "support_showtech_feature",
    "cli_cmds", "ovsdb", "table", "table_name", "col_names"]

  const KEYWORDS: seq<Keyword> := [
    KwFeature, KwFeatureName, KwFeatureDesc,
    KwSubFeature, KwSubFeatureName, KwSubFeatureDesc,
    KwShowTechAll, KwShowTechFeature,
    KwCliCmds, KwOvsdb, KwTable, KwTableName, KwColNames]

  function KeywordFrom(s: string, i: nat): Keyword
    decreases |KEYSTR| - i
  {
    if i >= |KEYSTR| then Value
    else if KEYSTR[i] == s then KEYWORDS[i]
    else KeywordFrom(s, i + 1)
  }

  /** The keyword a scalar spells; any other scalar is a value. */
  function KeywordOf(s: string): Keyword {
    KeywordFrom(s, 0)
  }

  function Code(k: Keyword): (i: nat)
    ensures k != Value ==> i < |KEYSTR| && KEYWORDS[i] == k
  {
    match k
    case KwFeature => 0
    case KwFeatureName => 1
    case KwFeatureDesc => 2
    case KwSubFeature => 3
    case KwSubFeatureName => 4
    case KwSubFeatureDesc => 5
    case KwShowTechAll => 6
    case KwShowTechFeature => 7
    case KwCliCmds => 8
    case KwOvsdb => 9
    case KwTable => 10
    case KwTableName => 11
    case KwColNames => 12
    case Value => 13
  }

  function Spelling(k: Keyword): string
    requires k != Value
  {
    KEYSTR[Code(k)]
  }

  /** The search over the keyword strings, as the parser performs it. */
  method GetValueType(data: string) returns (k: Keyword)
    ensures k == KeywordOf(data)
  {
    var i := 0;
    while i < |KEYSTR|
      invariant 0 <= i <= |KEYSTR|
      invariant KeywordOf(data) == KeywordFrom(data, i)
    {
      if KEYSTR[i] == data {
        return KEYWORDS[i];
      }
      i := i + 1;
    }
    return Value;
  }

  lemma KeywordIndex(i: nat, j: nat)
    requires i <= j < |KEYSTR|
    ensures KeywordFrom(KEYSTR[j], i) == KEYWORDS[j]
    decreases j - i
  {
    if i < j {
      assert KEYSTR[i] != KEYSTR[j] by {
        assert |KEYSTR[i]| == |KEYSTR[j]| ==>
          KEYSTR[i][0] != KEYSTR[j][0] || KEYSTR[i][|KEYSTR[i]| - 1] != KEYSTR[j][|KEYSTR[j]| - 1];
      }
      KeywordIndex(i + 1, j);
    }
  }

  /** No keyword shadows another one: each spelling is recognised as its own keyword. */
  lemma {:induction false} KeywordRoundTrip(k: Keyword)
    requires k != Value
    ensures KeywordOf(Spelling(k)) == k
  {
    KeywordIndex(0, Code(k));
  }

  // ----- the configuration tree -----

  datatype Table = Table(name: Option<string>, cols: seq<string>)

  datatype SubFeature = SubFeature(
    name: Option<string>, desc: Option<string>,
    noStaSupport: bool, supportStb: bool, isDummy: bool,
    cmds: seq<string>, tables: seq<Table>)

  datatype Feature = Feature(name: Option<string>, desc: Option<string>, subs: seq<SubFeature>)

  /** What calloc gives. */
  const EMPTY_TABLE := Table(None, [])
  const EMPTY_SUB := SubFeature(None, None, false, false, false, [], [])
  const EMPTY_FEATURE := Feature(None, None, [])

  // ----- commands that would recurse -----

  predicate IsSpace(c: char) {
    c == ' ' || c == '\t' || c == '\n' || c == '\r' || c == 0x0B as char || c == 0x0C as char
  }

  function SkipSpaces(s: string): string {
    if s != [] && IsSpace(s[0]) then SkipSpaces(s[1..]) else s
  }

  /** The pattern `\s*show\s+tech\s*` at the start of s. */
  predicate ShowTechHere(s: string) {
    var a := SkipSpaces(s);
    "show" <= a && |a| > 4 && IsSpace(a[4]) && "tech" <= SkipSpaces(a[4..])
  }

  /** The anchored pattern, compiled so that `^` also matches after each newline. */
  predicate IsShowTech(s: string) {
    exists i :: 0 <= i <= |s| && (i == 0 || s[i - 1] == '\n') && ShowTechHere(s[i..])
  }

  // ----- the parser as a fold -----

  datatype Event = Scalar(value: string) | Structure | ParserError

  /** The keyword state, the finished features, and the feature, sub-feature and table that
      are still being filled (each without the unfinished part below it).  A sub-feature that
      appears before any feature is never linked to one: it ends up in lost. */
  datatype State = State(
    key: Keyword, done: seq<Feature>,
    feature: Option<Feature>, sub: Option<SubFeature>, table: Option<Table>,
    lost: Option<SubFeature>, failed: bool)

  const INITIAL := State(KwFeature, [], None, None, None, None, false)

  function CloseTable(x: SubFeature, t: Option<Table>): SubFeature {
    match t
    case None => x
    case Some(t) => x.(tables := x.tables + [t])
  }

  function CloseSub(f: Feature, x: Option<SubFeature>, t: Option<Table>): Feature {
    match x
    case None => f
    case Some(x) => f.(subs := f.subs + [CloseTable(x, t)])
  }

  /** The tree under the feature head. */
  function Tree(s: State): seq<Feature> {
    match s.feature
    case None => s.done
    case Some(f) => s.done + [CloseSub(f, s.sub, s.table)]
  }

  /** The sub-feature no feature will ever hold. */
  function Orphan(s: State): Option<SubFeature> {
    if s.feature == None && s.sub.Some? then s.sub else s.lost
  }

  /** How many nodes an orphan leaves behind: itself and its commands. */
  function OrphanSize(x: Option<SubFeature>): nat {
    match x
    case None => 0
    case Some(x) => 1 + |x.cmds|
  }

  /** An error frees the whole tree. */
  function Fail(s: State): State {
    State(s.key, [], None, None, None, Orphan(s), true)
  }

  function SubOrDummy(s: State): SubFeature {
    match s.sub
    case Some(x) => x
    case None => EMPTY_SUB.(isDummy := true)
  }

  predicate IsYes(v: string) {
    v == "yes" || v == "true"
  }

  function OnValue(s: State, v: string): State {
    match s.key
    case KwFeatureName =>
      if s.feature == None then Fail(s) else s.(feature := Some(s.feature.value.(name := Some(v))))
    case KwFeatureDesc =>
      if s.feature == None then Fail(s) else s.(feature := Some(s.feature.value.(desc := Some(v))))
    case KwSubFeatureName =>
      if s.sub == None then Fail(s) else s.(sub := Some(s.sub.value.(name := Some(v))))
    case KwSubFeatureDesc =>
      if s.sub == None then Fail(s) else s.(sub := Some(s.sub.value.(desc := Some(v))))
    case KwShowTechAll => s.(sub := Some(SubOrDummy(s).(noStaSupport := !IsYes(v))))
    case KwShowTechFeature => s.(sub := Some(SubOrDummy(s).(supportStb := IsYes(v))))
    case KwCliCmds =>
      var x := SubOrDummy(s);
      if IsShowTech(v) then Fail(s.(sub := Some(x))) else s.(sub := Some(x.(cmds := x.cmds + [v])))
    case KwTableName =>
      if s.table == None then Fail(s) else s.(table := Some(s.table.value.(name := Some(v))))
    case KwColNames =>
      if s.table == None then Fail(s)
      else s.(table := Some(s.table.value.(cols := s.table.value.cols + [v])))
    case _ => s
  }

  function OnKeyword(s: State, k: Keyword): State
    requires k != Value
  {
    match k
    case KwFeature => State(k, Tree(s), Some(EMPTY_FEATURE), None, None, Orphan(s), false)
    case KwSubFeature =>
      if s.feature == None then Fail(s)
      else s.(key := k, feature := Some(CloseSub(s.feature.value, s.sub, s.table)),
              sub := Some(EMPTY_SUB), table := None)
    case KwTable =>
      if s.feature == None then Fail(s)
      else s.(key := k, sub := Some(CloseTable(SubOrDummy(s), s.table)), table := Some(EMPTY_TABLE))
    case _ => s.(key := k)
  }

  function OnScalar(s: State, v: string): State {
    var k := KeywordOf(v);
    if k == Value then OnValue(s, v) else OnKeyword(s, k)
  }

  function Step(s: State, e: Event): State {
    if s.failed then s
    else match e
      case Scalar(v) => OnScalar(s, v)
      case Structure => s
      case ParserError => Fail(s)
  }

  function Run(s: State, es: seq<Event>): State
    decreases |es|
  {
    if es == [] then s else Run(Step(s, es[0]), es[1..])
  }

  /** The tree the parser returns; the empty tree is its NULL. */
  function Parse(es: seq<Event>): seq<Feature> {
    Tree(Run(INITIAL, es))
  }

  // ----- which trees the parser can return -----

  predicate Plain(v: Option<string>) {
    v.Some? ==> KeywordOf(v.value) == Value
  }

  predicate AllPlain(vs: seq<string>) {
    forall v :: v in vs ==> KeywordOf(v) == Value
  }

  predicate WellFormedTable(t: Table) {
    Plain(t.name) && AllPlain(t.cols)
  }

  predicate WellFormedSub(x: SubFeature) {
    && Plain(x.name) && Plain(x.desc)
    && AllPlain(x.cmds) && (forall c :: c in x.cmds ==> !IsShowTech(c))
    && forall t :: t in x.tables ==> WellFormedTable(t)
  }

  /** At most one dummy sub-feature, and only in first place. */
  predicate WellFormedFeature(f: Feature) {
    && Plain(f.name) && Plain(f.desc)
    && (forall x :: x in f.subs ==> WellFormedSub(x))
    && forall i :: 1 <= i < |f.subs| ==> !f.subs[i].isDummy
  }

  predicate WellFormed(t: seq<Feature>) {
    forall f :: f in t ==> WellFormedFeature(f)
  }

  /** What every reachable state keeps about its finished and unfinished parts. */
  predicate WellFormedState(s: State) {
    && WellFormed(s.done)
    && (s.feature == None ==> s.done == [] && s.table == None)
    && (s.feature.Some? ==> WellFormedFeature(s.feature.value))
    && (s.sub == None ==> s.table == None && (s.feature.Some? ==> s.feature.value.subs == []))
    && (s.sub.Some? ==> WellFormedSub(s.sub.value))
    && (s.sub.Some? && s.feature.Some? && s.sub.value.isDummy ==> s.feature.value.subs == [])
    && (s.table.Some? ==> WellFormedTable(s.table.value))
    && (s.feature == None ==> s.lost == None || s.failed)
  }

  lemma CloseWellFormed(s: State)
    requires WellFormedState(s)
    ensures s.feature.Some? ==> WellFormedFeature(CloseSub(s.feature.value, s.sub, s.table))
    ensures WellFormed(Tree(s))
  {
  }

  lemma SubFieldsWellFormed(x: SubFeature, y: SubFeature)
    requires WellFormedSub(x) && y.cmds == x.cmds && y.tables == x.tables
    requires Plain(y.name) && Plain(y.desc)
    ensures WellFormedSub(y)
  {
  }

  lemma CmdWellFormed(x: SubFeature, v: string)
    requires WellFormedSub(x) && KeywordOf(v) == Value && !IsShowTech(v)
    ensures WellFormedSub(x.(cmds := x.cmds + [v]))
  {
  }

  lemma ColWellFormed(t: Table, v: string)
    requires WellFormedTable(t) && KeywordOf(v) == Value
    ensures WellFormedTable(t.(cols := t.cols + [v]))
  {
  }

  lemma DummyWellFormed(s: State)
    requires WellFormedState(s)
    ensures WellFormedSub(SubOrDummy(s))
  {
  }

  lemma ValueWellFormed(s: State, v: string)
    requires WellFormedState(s) && KeywordOf(v) == Value
    ensures WellFormedState(OnValue(s, v))
  {
    DummyWellFormed(s);
    hide KeywordOf, IsShowTech, WellFormedSub, WellFormedTable;
    var x := SubOrDummy(s);
    match s.key {
      case KwSubFeatureName => SubFieldsWellFormed(x, x.(name := Some(v)));
      case KwSubFeatureDesc => SubFieldsWellFormed(x, x.(desc := Some(v)));
      case KwShowTechAll => SubFieldsWellFormed(x, x.(noStaSupport := !IsYes(v)));
      case KwShowTechFeature => SubFieldsWellFormed(x, x.(supportStb := IsYes(v)));
      case KwCliCmds => if !IsShowTech(v) { CmdWellFormed(x, v); }
      case KwTableName =>
        if s.table.Some? {
          assert WellFormedTable(s.table.value.(name := Some(v))) by { TableNamed(s.table.value, v); }
        }
      case KwColNames => if s.table.Some? { ColWellFormed(s.table.value, v); }
      case _ =>
    }
  }

  lemma TableNamed(t: Table, v: string)
    requires WellFormedTable(t) && KeywordOf(v) == Value
    ensures WellFormedTable(t.(name := Some(v)))
  {
  }

  lemma KeywordWellFormed(s: State, k: Keyword)
    requires WellFormedState(s) && k != Value && !s.failed
    ensures WellFormedState(OnKeyword(s, k))
  {
    hide KeywordOf, IsShowTech;
    CloseWellFormed(s);
  }

  lemma {:induction false} StepWellFormed(s: State, e: Event)
    requires WellFormedState(s)
    ensures WellFormedState(Step(s, e))
  {
    if !s.failed && e.Scalar? {
      if KeywordOf(e.value) == Value {
        ValueWellFormed(s, e.value);
      } else {
        KeywordWellFormed(s, KeywordOf(e.value));
      }
    }
  }

  /** Soundness: whatever the events, the parser returns only well-formed trees. */
  lemma {:induction false} RunWellFormed(s: State, es: seq<Event>)
    requires WellFormedState(s)
    ensures WellFormedState(Run(s, es)) && WellFormed(Tree(Run(s, es)))
    decreases |es|
  {
    if es == [] {
      CloseWellFormed(s);
    } else {
      StepWellFormed(s, es[0]);
      RunWellFormed(Step(s, es[0]), es[1..]);
    }
  }

  // ----- when a parse leaves nodes behind -----

  /** The state before any feature and any sub-feature. */
  predicate Blank(s: State) {
    s.key != Value && s == INITIAL.(key := s.key)
  }

  /** A value of a sub-feature attribute arrives before the first feature and before any error. */
  predicate EarlyAttribute(key: Keyword, es: seq<Event>)
    decreases |es|
  {
    es != [] &&
    match es[0]
    case Structure => EarlyAttribute(key, es[1..])
    case ParserError => false
    case Scalar(v) =>
      var k := KeywordOf(v);
      if k == Value then
        match key
        case KwShowTechAll => true
        case KwShowTechFeature => true
        case KwCliCmds => true
        case KwFeature => EarlyAttribute(key, es[1..])
        case KwSubFeature => EarlyAttribute(key, es[1..])
        case KwOvsdb => EarlyAttribute(key, es[1..])
        case KwTable => EarlyAttribute(key, es[1..])
        case _ => false
      else if k == KwFeature || k == KwSubFeature || k == KwTable then false
      else EarlyAttribute(k, es[1..])
  }

  /** The first feature, or an error, settles whether there is an orphan. */
  predicate OrphanKept(s: State, t: State) {
    && (t.failed ==> t.feature == None && t.sub == None)
    && (Orphan(s).Some? ==> Orphan(t).Some?)
    && (s.failed || s.feature.Some? ==> (t.failed || t.feature.Some?) && (Orphan(s) == None ==> Orphan(t) == None))
  }

  lemma OrphanValue(s: State, v: string)
    requires !s.failed
    ensures OrphanKept(s, OnValue(s, v))
  {
    hide IsShowTech, IsYes;
  }

  lemma OrphanKeyword(s: State, k: Keyword)
    requires !s.failed && k != Value
    ensures OrphanKept(s, OnKeyword(s, k))
  {
    hide CloseSub, CloseTable, SubOrDummy, Tree;
  }

  lemma OrphanStays(s: State, e: Event)
    requires s.failed ==> s.feature == None && s.sub == None
    ensures OrphanKept(s, Step(s, e))
  {
    hide KeywordOf, OnValue, OnKeyword;
    if !s.failed && e.Scalar? {
      if KeywordOf(e.value) == Value {
        OrphanValue(s, e.value);
      } else {
        OrphanKeyword(s, KeywordOf(e.value));
      }
    }
  }

  lemma {:induction false} RunOrphan(s: State, es: seq<Event>)
    requires s.failed ==> s.feature == None && s.sub == None
    requires Orphan(s).Some? || s.failed || s.feature.Some?
    ensures Orphan(Run(s, es)).Some? <==> Orphan(s).Some?
    decreases |es|
  {
    hide Step;
    if es != [] {
      OrphanStays(s, es[0]);
      RunOrphan(Step(s, es[0]), es[1..]);
    }
  }

  /** A parse leaves nodes behind exactly when a sub-feature attribute comes too early. */
  lemma {:induction false} OrphanExactly(s: State, es: seq<Event>)
    requires Blank(s)
    ensures Orphan(Run(s, es)).Some? <==> EarlyAttribute(s.key, es)
    decreases |es|
  {
    hide KeywordOf, IsShowTech;
    if es != [] {
      var t := Step(s, es[0]);
      if Blank(t) {
        OrphanExactly(t, es[1..]);
      } else {
        RunOrphan(t, es[1..]);
      }
    }
  }

  /** One such stream: the attribute's sub-feature is lost although the parse succeeds. */
  lemma {:induction false} OrphanLeft()
    ensures var es := [Scalar("support_showtech_all"), Scalar("no"), Scalar("feature")];
      Parse(es) == [EMPTY_FEATURE] && OrphanSize(Orphan(Run(INITIAL, es))) == 1
  {
    var a, b, c := Scalar("support_showtech_all"), Scalar("no"), Scalar("feature");
    KeywordRoundTrip(KwShowTechAll);
    KeywordRoundTrip(KwFeature);
    NoIsValue();
    hide KeywordOf, IsShowTech;
    var s1 := INITIAL.(key := KwShowTechAll);
    assert Step(INITIAL, a) == s1;
    var s2 := s1.(sub := Some(EMPTY_SUB.(isDummy := true, noStaSupport := true)));
    assert Step(s1, b) == s2;
    var s3 := Step(s2, c);
    assert s3.feature == Some(EMPTY_FEATURE) && s3.lost == s2.sub;
    assert [a, b, c][1..] == [b, c] && [b, c][1..] == [c] && [c][1..] == [];
    assert Run(s2, [c]) == s3 && Run(s1, [b, c]) == s3 && Run(INITIAL, [a, b, c]) == s3;
  }

  lemma NoIsValue()
    ensures KeywordOf("no") == Value
  {
    assert forall i :: 0 <= i < |KEYSTR| ==> |KEYSTR[i]| > 2;
    NotAKeyword("no", 0);
  }

  lemma {:induction false} NotAKeyword(s: string, i: nat)
    requires forall j :: i <= j < |KEYSTR| ==> KEYSTR[j] != s
    ensures KeywordFrom(s, i) == Value
    decreases |KEYSTR| - i
  {
    if i < |KEYSTR| {
      NotAKeyword(s, i + 1);
    }
  }
}
