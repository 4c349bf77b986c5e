/** Writing a configuration tree as keyword and value events, and reading it back. */
module ShowTechRoundTrip {
  import opened Options
  import opened ShowTechSpec

  // ----- the writer -----

  function Word(k: Keyword): Event
    requires k != Value
  {
    Scalar(Spelling(k))
  }

  function EmitValues(vs: seq<string>): seq<Event> {
    if vs == [] then [] else [Scalar(vs[0])] + EmitValues(vs[1..])
  }

  function EmitField(k: Keyword, v: Option<string>): seq<Event>
    requires k != Value
  {
    match v
    case None => []
    case Some(x) => [Word(k), Scalar(x)]
  }

  function EmitFlag(k: Keyword, b: bool): seq<Event>
    requires k != Value
  {
    [Word(k), Scalar(if b then "yes" else "no")]
  }

  function EmitTable(t: Table): seq<Event> {
    [Word(KwTable)] + (EmitField(KwTableName, t.name) + ([Word(KwColNames)] + EmitValues(t.cols)))
  }

  function EmitTables(ts: seq<Table>): seq<Event> {
    if ts == [] then [] else EmitTable(ts[0]) + EmitTables(ts[1..])
  }

  /** The part of a sub-feature after its flags. */
  function EmitBody(x: SubFeature): seq<Event> {
    EmitField(KwSubFeatureName, x.name)
    + (EmitField(KwSubFeatureDesc, x.desc)
       + (([Word(KwCliCmds)] + EmitValues(x.cmds)) + ([Word(KwOvsdb)] + EmitTables(x.tables))))
  }

  /** A dummy sub-feature has no keyword of its own: its attributes stand directly in the feature. */
  function EmitSub(x: SubFeature): seq<Event> {
    (if x.isDummy then [] else [Word(KwSubFeature)])
    + (EmitFlag(KwShowTechAll, !x.noStaSupport) + (EmitFlag(KwShowTechFeature, x.supportStb) + EmitBody(x)))
  }

  function EmitSubs(xs: seq<SubFeature>): seq<Event> {
    if xs == [] then [] else EmitSub(xs[0]) + EmitSubs(xs[1..])
  }

  function EmitFeature(f: Feature): seq<Event> {
    [Word(KwFeature)]
    + (EmitField(KwFeatureName, f.name) + (EmitField(KwFeatureDesc, f.desc) + EmitSubs(f.subs)))
  }

  function Emit(t: seq<Feature>): seq<Event> {
    if t == [] then [] else EmitFeature(t[0]) + Emit(t[1..])
  }

  // ----- the fold over pieces -----

  lemma {:induction false} RunConcat(s: State, a: seq<Event>, b: seq<Event>)
    ensures Run(s, a + b) == Run(Run(s, a), b)
    decreases |a|
  {
    if a == [] {
      assert a + b == b;
    } else {
      assert (a + b)[0] == a[0] && (a + b)[1..] == a[1..] + b;
      RunConcat(Step(s, a[0]), a[1..], b);
    }
  }

  lemma RunNothing(s: State)
    ensures Run(s, []) == s
  {
  }

  lemma RunOne(s: State, e: Event)
    ensures Run(s, [e]) == Step(s, e)
  {
    assert Run(s, [e]) == Run(Step(s, e), [e][1..]);
  }

  lemma RunWord(s: State, k: Keyword)
    requires k != Value && !s.failed
    ensures Run(s, [Word(k)]) == OnKeyword(s, k)
  {
    KeywordRoundTrip(k);
    RunOne(s, Word(k));
  }

  /** Most keywords only move the parser to their state. */
  lemma RunState(s: State, k: Keyword)
    requires k != Value && k != KwFeature && k != KwSubFeature && k != KwTable && !s.failed
    ensures Run(s, [Word(k)]) == s.(key := k)
  {
    RunWord(s, k);
  }

  lemma RunPair(s: State, k: Keyword, v: string)
    requires k != Value && !s.failed && KeywordOf(v) == Value && !OnKeyword(s, k).failed
    ensures Run(s, [Word(k), Scalar(v)]) == OnValue(OnKeyword(s, k), v)
  {
    RunConcat(s, [Word(k)], [Scalar(v)]);
    assert [Word(k)] + [Scalar(v)] == [Word(k), Scalar(v)];
    RunWord(s, k);
    RunOne(OnKeyword(s, k), Scalar(v));
  }

  lemma RunFlag(s: State, k: Keyword, b: bool)
    requires k == KwShowTechAll || k == KwShowTechFeature
    requires !s.failed
    ensures Run(s, EmitFlag(k, b)) == s.(key := k, sub := Some(
      if k == KwShowTechAll then SubOrDummy(s).(noStaSupport := !b) else SubOrDummy(s).(supportStb := b)))
  {
    NotAKeyword("yes", 0);
    NotAKeyword("no", 0);
    RunPair(s, k, if b then "yes" else "no");
    assert IsYes("yes") && !IsYes("no");
  }

  lemma RunValue(s: State, v: string)
    requires !s.failed && KeywordOf(v) == Value
    ensures Run(s, [Scalar(v)]) == OnValue(s, v)
  {
    RunOne(s, Scalar(v));
  }

  lemma {:induction false} RunCmds(s: State, x: SubFeature, vs: seq<string>)
    requires s.key == KwCliCmds && !s.failed && s.sub == Some(x)
    requires AllPlain(vs) && forall v :: v in vs ==> !IsShowTech(v)
    ensures Run(s, EmitValues(vs)) == s.(sub := Some(x.(cmds := x.cmds + vs)))
    decreases |vs|
  {
    hide Step, Run, KeywordOf;
    if vs == [] {
      RunNothing(s);
      assert x.cmds + vs == x.cmds;
    } else {
      assert vs[0] in vs;
      RunConcat(s, [Scalar(vs[0])], EmitValues(vs[1..]));
      RunValue(s, vs[0]);
      var x1 := x.(cmds := x.cmds + [vs[0]]);
      RunCmds(s.(sub := Some(x1)), x1, vs[1..]);
      assert x.cmds + vs == x1.cmds + vs[1..];
    }
  }

  lemma {:induction false} RunCols(s: State, t: Table, vs: seq<string>)
    requires s.key == KwColNames && !s.failed && s.table == Some(t) && AllPlain(vs)
    ensures Run(s, EmitValues(vs)) == s.(table := Some(t.(cols := t.cols + vs)))
    decreases |vs|
  {
    hide Step, Run, KeywordOf;
    if vs == [] {
      RunNothing(s);
      assert t.cols + vs == t.cols;
    } else {
      assert vs[0] in vs;
      RunConcat(s, [Scalar(vs[0])], EmitValues(vs[1..]));
      RunValue(s, vs[0]);
      var t1 := t.(cols := t.cols + [vs[0]]);
      RunCols(s.(table := Some(t1)), t1, vs[1..]);
      assert t.cols + vs == t1.cols + vs[1..];
    }
  }

  lemma RunTableField(s: State, v: Option<string>)
    requires !s.failed && s.table == Some(EMPTY_TABLE) && Plain(v)
    ensures var r := Run(s, EmitField(KwTableName, v)); r == s.(key := r.key, table := Some(Table(v, [])))
  {
    if v.Some? { RunPair(s, KwTableName, v.value); }
  }

  lemma RunTable(s: State, t: Table)
    requires !s.failed && s.feature.Some? && s.sub.Some? && WellFormedTable(t)
    ensures Run(s, EmitTable(t))
         == s.(key := KwColNames, sub := Some(CloseTable(s.sub.value, s.table)), table := Some(t))
  {
    hide Step, Run, KeywordOf;
    var a, b, c := [Word(KwTable)], EmitField(KwTableName, t.name), [Word(KwColNames)];
    RunConcat(s, a, b + (c + EmitValues(t.cols)));
    assert !OnKeyword(s, KwTable).failed;
    RunWord(s, KwTable);
    var s1 := Run(s, a);
    RunConcat(s1, b, c + EmitValues(t.cols));
    RunTableField(s1, t.name);
    var s2 := Run(s1, b);
    RunConcat(s2, c, EmitValues(t.cols));
    RunState(s2, KwColNames);
    RunCols(Run(s2, c), Table(t.name, []), t.cols);
    assert [] + t.cols == t.cols;
  }

  /** r differs from s at most in its keyword and below its current feature. */
  predicate SameFeature(s: State, r: State) {
    r.done == s.done && r.feature == s.feature && r.lost == s.lost && !r.failed
  }

  lemma {:induction false} RunTables(s: State, ts: seq<Table>)
    requires !s.failed && s.feature.Some? && s.sub.Some? && forall t :: t in ts ==> WellFormedTable(t)
    ensures var r := Run(s, EmitTables(ts));
      var x := CloseTable(s.sub.value, s.table);
      SameFeature(s, r) && r.sub.Some? && CloseTable(r.sub.value, r.table) == x.(tables := x.tables + ts)
    decreases |ts|
  {
    hide Step, Run, OnKeyword, KeywordOf;
    var x := CloseTable(s.sub.value, s.table);
    if ts == [] {
      RunNothing(s);
      assert x.tables + ts == x.tables;
    } else {
      RunConcat(s, EmitTable(ts[0]), EmitTables(ts[1..]));
      RunTable(s, ts[0]);
      RunTables(Run(s, EmitTable(ts[0])), ts[1..]);
      assert x.tables + ts == x.tables + [ts[0]] + ts[1..];
    }
  }

  lemma RunSubField(s: State, k: Keyword, v: Option<string>)
    requires k == KwSubFeatureName || k == KwSubFeatureDesc
    requires !s.failed && s.sub.Some? && Plain(v)
    requires if k == KwSubFeatureName then s.sub.value.name == None else s.sub.value.desc == None
    ensures var r := Run(s, EmitField(k, v));
      r == s.(key := r.key, sub := Some(
        if k == KwSubFeatureName then s.sub.value.(name := v) else s.sub.value.(desc := v)))
  {
    if v.Some? { RunPair(s, k, v.value); }
  }

  lemma RunBody(s: State, x: SubFeature)
    requires !s.failed && s.feature.Some? && s.table == None && WellFormedSub(x)
    requires s.sub == Some(EMPTY_SUB.(noStaSupport := x.noStaSupport, supportStb := x.supportStb, isDummy := x.isDummy))
    ensures var r := Run(s, EmitBody(x)); SameFeature(s, r) && r.sub.Some? && CloseTable(r.sub.value, r.table) == x
  {
    hide Step, Run, OnKeyword, KeywordOf;
    var a, b := EmitField(KwSubFeatureName, x.name), EmitField(KwSubFeatureDesc, x.desc);
    var c, d := [Word(KwCliCmds)] + EmitValues(x.cmds), [Word(KwOvsdb)] + EmitTables(x.tables);
    RunConcat(s, a, b + (c + d));
    RunSubField(s, KwSubFeatureName, x.name);
    var s1 := Run(s, a);
    RunConcat(s1, b, c + d);
    RunSubField(s1, KwSubFeatureDesc, x.desc);
    RunLists(Run(s1, b), x);
  }

  /** The commands and the tables of a sub-feature. */
  lemma RunLists(s: State, x: SubFeature)
    requires !s.failed && s.feature.Some? && s.table == None && WellFormedSub(x)
    requires s.sub == Some(x.(cmds := [], tables := []))
    ensures var r := Run(s, ([Word(KwCliCmds)] + EmitValues(x.cmds)) + ([Word(KwOvsdb)] + EmitTables(x.tables)));
      SameFeature(s, r) && r.sub.Some? && CloseTable(r.sub.value, r.table) == x
  {
    hide Step, Run, OnKeyword, KeywordOf;
    var c, d := [Word(KwCliCmds)] + EmitValues(x.cmds), [Word(KwOvsdb)] + EmitTables(x.tables);
    RunConcat(s, c, d);
    RunConcat(s, [Word(KwCliCmds)], EmitValues(x.cmds));
    RunState(s, KwCliCmds);
    RunCmds(s.(key := KwCliCmds), s.sub.value, x.cmds);
    assert [] + x.cmds == x.cmds;
    var s3 := Run(s, c);
    RunConcat(s3, [Word(KwOvsdb)], EmitTables(x.tables));
    RunState(s3, KwOvsdb);
    RunTables(s3.(key := KwOvsdb), x.tables);
    assert [] + x.tables == x.tables;
  }

  /** r has the same finished features as s, and f as its current one. */
  predicate Extends(s: State, r: State, f: Feature) {
    && r.done == s.done && r.lost == s.lost && !r.failed && r.feature.Some?
    && CloseSub(r.feature.value, r.sub, r.table) == f
  }

  /** The start of a sub-feature: its keyword, or nothing at all for a dummy. */
  lemma RunOpening(s: State, x: SubFeature)
    requires !s.failed && s.feature.Some?
    requires x.isDummy ==> s.sub == None && s.table == None
    ensures var r := Run(s, if x.isDummy then [] else [Word(KwSubFeature)]);
      && !r.failed && r.table == None && r.done == s.done && r.lost == s.lost
      && SubOrDummy(r) == EMPTY_SUB.(isDummy := x.isDummy)
      && r.feature == Some(CloseSub(s.feature.value, s.sub, s.table))
  {
    if !x.isDummy { RunWord(s, KwSubFeature); }
  }

  lemma {:induction false} RunSub(s: State, x: SubFeature)
    requires !s.failed && s.feature.Some? && WellFormedSub(x)
    requires x.isDummy ==> s.sub == None && s.table == None
    ensures var r := Run(s, EmitSub(x));
      var f := CloseSub(s.feature.value, s.sub, s.table);
      r.sub.Some? && Extends(s, r, f.(subs := f.subs + [x]))
  {
    hide Step, Run, OnKeyword, KeywordOf;
    var a := if x.isDummy then [] else [Word(KwSubFeature)];
    var b, c := EmitFlag(KwShowTechAll, !x.noStaSupport), EmitFlag(KwShowTechFeature, x.supportStb);
    RunConcat(s, a, b + (c + EmitBody(x)));
    var s1 := Run(s, a);
    assert s1.table == None && SubOrDummy(s1) == EMPTY_SUB.(isDummy := x.isDummy)
        && s1.done == s.done && s1.lost == s.lost && !s1.failed && s1.feature.Some?
        && s1.feature.value == CloseSub(s.feature.value, s.sub, s.table) by {
      RunOpening(s, x);
    }
    RunConcat(s1, b, c + EmitBody(x));
    RunFlag(s1, KwShowTechAll, !x.noStaSupport);
    var s2 := Run(s1, b);
    RunConcat(s2, c, EmitBody(x));
    RunFlag(s2, KwShowTechFeature, x.supportStb);
    RunBody(Run(s2, c), x);
  }

  lemma {:induction false} RunSubs(s: State, xs: seq<SubFeature>)
    requires !s.failed && s.feature.Some? && (s.sub == None ==> s.table == None)
    requires forall x :: x in xs ==> WellFormedSub(x)
    requires forall i :: 0 <= i < |xs| && xs[i].isDummy ==> i == 0 && s.sub == None
    ensures var f := CloseSub(s.feature.value, s.sub, s.table);
      Extends(s, Run(s, EmitSubs(xs)), f.(subs := f.subs + xs))
    decreases |xs|
  {
    hide Step, Run, OnKeyword, KeywordOf, EmitSub, WellFormedSub;
    var f := CloseSub(s.feature.value, s.sub, s.table);
    if xs == [] {
      RunNothing(s);
      assert f.subs + xs == f.subs;
    } else {
      assert xs[0] in xs;
      RunConcat(s, EmitSub(xs[0]), EmitSubs(xs[1..]));
      RunSub(s, xs[0]);
      RunSubs(Run(s, EmitSub(xs[0])), xs[1..]);
      assert f.subs + xs == f.subs + [xs[0]] + xs[1..];
    }
  }

  lemma RunFeatureField(s: State, k: Keyword, v: Option<string>)
    requires k == KwFeatureName || k == KwFeatureDesc
    requires !s.failed && s.feature.Some? && Plain(v)
    requires if k == KwFeatureName then s.feature.value.name == None else s.feature.value.desc == None
    ensures var r := Run(s, EmitField(k, v));
      r == s.(key := r.key, feature := Some(
        if k == KwFeatureName then s.feature.value.(name := v) else s.feature.value.(desc := v)))
  {
    if v.Some? { RunPair(s, k, v.value); }
  }

  lemma RunFeatureWord(s: State)
    requires !s.failed
    ensures Run(s, [Word(KwFeature)]) == State(KwFeature, Tree(s), Some(EMPTY_FEATURE), None, None, Orphan(s), false)
  {
    RunWord(s, KwFeature);
  }

  lemma {:induction false} RunFeature(s: State, f: Feature)
    requires !s.failed && WellFormedFeature(f)
    ensures var r := Run(s, EmitFeature(f));
      !r.failed && r.lost == Orphan(s) && r.feature.Some? && Tree(r) == Tree(s) + [f]
  {
    hide Step, Run, OnKeyword, KeywordOf;
    var a, b, c := [Word(KwFeature)], EmitField(KwFeatureName, f.name), EmitField(KwFeatureDesc, f.desc);
    RunConcat(s, a, b + (c + EmitSubs(f.subs)));
    var s1 := Run(s, a);
    assert s1 == State(KwFeature, Tree(s), Some(EMPTY_FEATURE), None, None, Orphan(s), false) by {
      RunFeatureWord(s);
    }
    RunConcat(s1, b, c + EmitSubs(f.subs));
    RunFeatureField(s1, KwFeatureName, f.name);
    var s2 := Run(s1, b);
    RunConcat(s2, c, EmitSubs(f.subs));
    RunFeatureField(s2, KwFeatureDesc, f.desc);
    RunSubs(Run(s2, c), f.subs);
    assert [] + f.subs == f.subs;
  }

  lemma {:induction false} RunEmit(s: State, t: seq<Feature>)
    requires !s.failed && WellFormed(t)
    ensures var r := Run(s, Emit(t));
      !r.failed && Tree(r) == Tree(s) + t && Orphan(r) == Orphan(s)
    decreases |t|
  {
    hide Step, Run, OnKeyword, KeywordOf, Tree, EmitFeature, WellFormedFeature;
    if t == [] {
      RunNothing(s);
      assert Tree(s) + t == Tree(s);
    } else {
      assert t[0] in t;
      RunConcat(s, EmitFeature(t[0]), Emit(t[1..]));
      RunFeature(s, t[0]);
      RunEmit(Run(s, EmitFeature(t[0])), t[1..]);
      assert Tree(s) + t == Tree(s) + [t[0]] + t[1..];
    }
  }

  // ----- the main results -----

  /** The events that carry meaning: sequence, mapping and document events are skipped. */
  function Meaningful(es: seq<Event>): seq<Event> {
    if es == [] then []
    else (if es[0].Structure? then [] else [es[0]]) + Meaningful(es[1..])
  }

  lemma {:induction false} RunMeaningful(s: State, es: seq<Event>)
    ensures Run(s, Meaningful(es)) == Run(s, es)
    decreases |es|
  {
    if es != [] {
      if es[0].Structure? {
        assert Meaningful(es) == Meaningful(es[1..]);
      } else {
        RunConcat(s, [es[0]], Meaningful(es[1..]));
        RunOne(s, es[0]);
      }
      RunMeaningful(Step(s, es[0]), es[1..]);
    }
  }

  /** Any stream whose meaningful events write down a well-formed tree parses to that tree. */
  lemma {:induction false} RoundTrip(t: seq<Feature>, es: seq<Event>)
    requires WellFormed(t) && Meaningful(es) == Emit(t)
    ensures Parse(es) == t && !Run(INITIAL, es).failed && Orphan(Run(INITIAL, es)) == None
  {
    RunMeaningful(INITIAL, es);
    RunEmit(INITIAL, t);
    assert [] + t == t;
  }

  lemma {:induction false} EmitMeaningful(es: seq<Event>)
    requires forall e :: e in es ==> !e.Structure?
    ensures Meaningful(es) == es
    decreases |es|
  {
    if es != [] {
      EmitMeaningful(es[1..]);
    }
  }

  lemma {:induction false} EmitHasNoStructure(t: seq<Feature>)
    ensures forall e :: e in Emit(t) ==> e.Scalar?
    decreases |t|
  {
    if t != [] {
      SubsHaveNoStructure(t[0].subs);
      EmitHasNoStructure(t[1..]);
    }
  }

  lemma {:induction false} SubsHaveNoStructure(xs: seq<SubFeature>)
    ensures forall e :: e in EmitSubs(xs) ==> e.Scalar?
    decreases |xs|
  {
    hide EmitSub;
    if xs != [] {
      SubHasNoStructure(xs[0]);
      SubsHaveNoStructure(xs[1..]);
    }
  }

  lemma SubHasNoStructure(x: SubFeature)
    ensures forall e :: e in EmitSub(x) ==> e.Scalar?
  {
    hide EmitTables, EmitValues;
    ValuesHaveNoStructure(x.cmds);
    TablesHaveNoStructure(x.tables);
  }

  lemma {:induction false} TablesHaveNoStructure(ts: seq<Table>)
    ensures forall e :: e in EmitTables(ts) ==> e.Scalar?
    decreases |ts|
  {
    if ts != [] {
      ValuesHaveNoStructure(ts[0].cols);
      TablesHaveNoStructure(ts[1..]);
    }
  }

  lemma {:induction false} ValuesHaveNoStructure(vs: seq<string>)
    ensures forall e :: e in EmitValues(vs) ==> e.Scalar?
    decreases |vs|
  {
    if vs != [] {
      ValuesHaveNoStructure(vs[1..]);
    }
  }

  /** The parser's range is exactly the well-formed trees. */
  lemma {:induction false} ParserRange(t: seq<Feature>)
    ensures WellFormed(t) <==> exists es :: Parse(es) == t
  {
    if WellFormed(t) {
      EmitHasNoStructure(t);
      EmitMeaningful(Emit(t));
      RoundTrip(t, Emit(t));
    }
    forall es | Parse(es) == t ensures WellFormed(t) {
      RunWellFormed(INITIAL, es);
    }
  }
}
