/** The show-tech configuration parser on the heap: cursors into nested linked lists, nodes
    linked and freed in place, proved against the fold of ShowTechSpec. */
module ShowTechParser {
  import opened Options
  import opened Sequences
  import opened ShowTechNodes
  import opened ShowTechLists
  import S = ShowTechSpec

  /** The list head and the local variables of the parse function. */
  datatype Cursors = Cursors(
    head: Feature?, state: S.Keyword,
    feature: Feature?, sub: SubFeature?, cmd: CliCmd?, table: OvsTable?, col: OvsColumn?)

  /** The nodes of the tree, level by level; the nodes that no pointer leads to any more, and
      how many of those there were before the parse. */
  datatype Shape = Shape(
    features: seq<Feature>, fset: set<Feature>, subs: set<SubFeature>, cmds: set<CliCmd>,
    tables: set<OvsTable>, cols: set<OvsColumn>, lost: set<object>, base: nat)

  ghost function Nodes(g: Shape): set<object> {
    var fs: set<object> := g.fset;
    fs + g.subs + g.cmds + g.tables + g.cols
  }

  ghost predicate Lists(head: Feature?, g: Shape)
    reads g.features, g.fset, g.subs, g.tables, g.cols, g.cmds`command, g.cmds`next, g.cmds`owner
  {
    && FeaturesOf(head, g.features)
    && SubsOk(g.fset, g.subs)
    && CmdsOk(g.subs, g.cmds)
    && TablesOk(g.subs, g.tables)
    && ColsOk(g.tables, g.cols)
  }

  /** Live memory is the tree and the lost nodes, and once there is a feature all of the tree hangs from one. */
  ghost predicate MemoryOk(g: Shape, live: set<object>)
    reads g.subs`owner
  {
    && (forall f :: f in g.features ==> f in g.fset) && (forall f :: f in g.fset ==> f in g.features)
    && Nodes(g) !! g.lost && live == Nodes(g) + g.lost
    && (g.features != [] ==> forall s :: s in g.subs ==> s.owner != null)
  }

  /** Everything below a finished feature is part of its value. */
  ghost predicate Finished(f: Feature, v: S.Feature)
    reads f`name, f`desc, f`vsubs, f`subs
  {
    |f.vsubs| == |f.subs| && f.Val() == v
  }

  ghost predicate Closed(s: SubFeature)
    reads s`vtables, s`tables
  {
    |s.vtables| == |s.tables|
  }

  /** The feature cursor is the tail of the feature list; the finished features have the values of the fold. */
  ghost predicate FeatureCursorOk(feature: Feature?, hasSub: bool, features: seq<Feature>, fset: set<Feature>,
    v: Option<S.Feature>, done: seq<S.Feature>)
    reads features`name, features`desc, features`vsubs, features`subs
  {
    && feature == (if features == [] then null else features[|features| - 1])
    && (feature == null ==> v == None && done == [])
    && (feature != null ==>
      && feature in fset && v == Some(feature.Val()) && |done| == |features| - 1
      && |feature.vsubs| == |feature.subs| - (if hasSub then 1 else 0)
      && (!hasSub ==> feature.subs == []))
    && (forall i :: 0 <= i < |done| && i < |features| ==>
      features[i] != feature && Finished(features[i], done[i]))
  }

  /** The sub-feature and command cursors are tails, of the current feature and sub-feature. */
  ghost predicate SubCursorOk(feature: Feature?, sub: SubFeature?, cmd: CliCmd?, hasTable: bool,
    subs: set<SubFeature>, v: Option<S.SubFeature>)
    reads feature, subs
  {
    && (sub == null ==> v == None && cmd == null && !hasTable)
    && (sub != null ==>
      && sub in subs && sub.owner == feature
      && (feature != null ==> feature.subs != [] && feature.subs[|feature.subs| - 1] == sub)
      && v == Some(sub.Val())
      && cmd == (if sub.cmds == [] then null else sub.cmds[|sub.cmds| - 1])
      && |sub.vtables| == |sub.tables| - (if hasTable then 1 else 0)
      && (!hasTable ==> sub.tables == []))
    && OthersClosed(subs, sub)
  }

  ghost predicate OthersClosed(subs: set<SubFeature>, sub: SubFeature?)
    reads subs`vtables, subs`tables
  {
    forall s :: s in subs && s != sub ==> Closed(s)
  }

  /** The table and column cursors are tails, of the current sub-feature and table. */
  ghost predicate TableCursorOk(sub: SubFeature?, table: OvsTable?, col: OvsColumn?,
    tables: set<OvsTable>, v: Option<S.Table>)
    reads sub, tables
  {
    && (table == null ==> v == None && col == null)
    && (table != null ==>
      && sub != null && table in tables && table.owner == sub
      && sub.tables != [] && sub.tables[|sub.tables| - 1] == table
      && v == Some(table.Val())
      && col == (if table.cols == [] then null else table.cols[|table.cols| - 1]))
  }

  /** Before the first feature, the only nodes are an orphan sub-feature and its commands. */
  ghost predicate OrphanOk(c: Cursors, g: Shape)
  {
    g.features == [] ==>
      && g.tables == {} && g.cols == {}
      && g.subs == (if c.sub == null then {} else {c.sub})
  }

  ghost predicate FlagsClear(cmds: set<CliCmd>)
    reads cmds`command_failed
  {
    forall c :: c in cmds ==> !c.command_failed
  }

  ghost predicate CursorsOk(c: Cursors, g: Shape, spec: S.State)
    reads c.feature, c.sub, g.features, g.subs, g.tables
  {
    && FeatureCursorOk(c.feature, c.sub != null, g.features, g.fset, spec.feature, spec.done)
    && SubCursorOk(c.feature, c.sub, c.cmd, c.table != null, g.subs, spec.sub)
    && TableCursorOk(c.sub, c.table, c.col, g.tables, spec.table)
    && (c.feature == null ==> spec.table == None && spec.lost == None)
    && c.state == spec.key && c.state != S.Value && !spec.failed
  }

  ghost predicate Valid(c: Cursors, g: Shape, spec: S.State, live: set<object>)
    reads c.feature, c.sub, g.features, g.fset, g.subs, g.cmds, g.tables, g.cols
  {
    && Lists(c.head, g) && MemoryOk(g, live) && FlagsClear(g.cmds)
    && CursorsOk(c, g, spec) && OrphanOk(c, g)
    && |g.lost| == g.base + S.OrphanSize(spec.lost)
  }

  /** After a failed step: the tree is still intact, and about to be freed. */
  ghost predicate Doomed(c: Cursors, g: Shape, spec: S.State, live: set<object>)
    reads g.features, g.fset, g.subs, g.tables, g.cols, g.cmds`command, g.cmds`next, g.cmds`owner
  {
    && Lists(c.head, g) && MemoryOk(g, live) && spec.failed
    && |if g.features == [] then live else g.lost| == g.base + S.OrphanSize(spec.lost)
  }

  ghost predicate StepOk(ok: bool, c: Cursors, g: Shape, spec: S.State, live: set<object>)
    reads c.feature, c.sub, g.features, g.fset, g.subs, g.cmds, g.tables, g.cols
  {
    ok == !spec.failed && if ok then Valid(c, g, spec, live) else Doomed(c, g, spec, live)
  }

  lemma {:induction false} DistinctCount(s: seq<object>, e: set<object>)
    requires Distinct(s) && (forall o :: o in s ==> o in e) && (forall o :: o in e ==> o in s)
    ensures |e| == |s|
  {
    if s != [] {
      var o := s[0];
      DistinctCount(s[1..], e - {o});
      assert e == e - {o} + {o};
    } else {
      assert e == {};
    }
  }

  lemma OrphanCount(c: Cursors, head: Feature?, g: Shape, live: set<object>)
    requires Lists(head, g) && MemoryOk(g, live) && OrphanOk(c, g) && g.features == []
    ensures |live| == |g.lost| + (if c.sub == null then 0 else 1 + |c.sub.vcmds|)
  {
    var fs, t, k: set<object> := g.fset, g.tables, g.cols;
    var ss, cs: set<object> := g.subs, g.cmds;
    assert fs == {} && t == {} && k == {};
    assert Nodes(g) == ss + cs;
    if c.sub == null {
      assert ss == {} && cs == {};
    } else {
      assert CmdsOf(c.sub) && c.sub in g.subs;
      assert ss == {c.sub} && c.sub !in cs;
      DistinctCount(c.sub.cmds, cs);
    }
  }

  /** The orphan of the fold, as the cursors show it. */
  lemma OrphanShown(c: Cursors, g: Shape, spec: S.State)
    requires CursorsOk(c, g, spec)
    ensures g.features == [] ==>
      S.Orphan(spec) == (if c.sub == null then None else Some(c.sub.Val())) && spec.lost == None
    ensures g.features != [] ==> S.Orphan(spec) == spec.lost
  {
    hide OthersClosed, Finished;
  }

  /** Whatever the parser rejects, it rejects in a state whose tree is ready to be freed. */
  lemma {:induction false} Reject(c: Cursors, g: Shape, spec: S.State, live: set<object>)
    requires Valid(c, g, spec, live)
    ensures Doomed(c, g, S.Fail(spec), live)
  {
    hide Lists, MemoryOk, FlagsClear, CursorsOk, OrphanOk;
    OrphanShown(c, g, spec);
    if g.features == [] { OrphanCount(c, c.head, g, live); }
  }

  // ----- a value after a keyword that sets a field -----

  method FeatureField(c: Cursors, v: string, ghost g: Shape, ghost spec: S.State, ghost live: set<object>)
    returns (ok: bool, ghost spec': S.State)
    requires Valid(c, g, spec, live) && (c.state == S.KwFeatureName || c.state == S.KwFeatureDesc)
    modifies ThatFeature(c.feature)`name, ThatFeature(c.feature)`desc
    ensures spec' == S.OnValue(spec, v) && StepOk(ok, c, g, spec', live)
  {
    hide Finished, Closed, FeaturesOf, SubsOk, CmdsOk, TablesOk, ColsOk, MemoryOk, OrphanOk, FlagsClear,
      S.IsShowTech, S.SubOrDummy;
    spec' := S.OnValue(spec, v);
    if c.feature == null {
      Reject(c, g, spec, live);
      return false, spec';
    }
    if c.state == S.KwFeatureName {
      c.feature.name := Some(v);
    } else {
      c.feature.desc := Some(v);
    }
    return true, spec';
  }

  /** The current sub-feature is the last, unfinished one of its feature. */
  lemma SubIsOpen(c: Cursors, g: Shape, spec: S.State)
    requires CursorsOk(c, g, spec) && c.sub != null
    ensures c.sub in g.subs && c.sub.owner == c.feature
    ensures c.sub.owner != null ==>
      |c.sub.owner.vsubs| < |c.sub.owner.subs| && c.sub.owner.subs[|c.sub.owner.subs| - 1] == c.sub
  {
  }

  method SubName(c: Cursors, v: string, ghost g: Shape, ghost spec: S.State, ghost live: set<object>)
    returns (ok: bool, ghost spec': S.State)
    requires Valid(c, g, spec, live) && c.state == S.KwSubFeatureName
    modifies ThatSub(c.sub)`name
    ensures spec' == S.OnValue(spec, v) && StepOk(ok, c, g, spec', live)
  {
    hide Finished, Closed, FeaturesOf, SubsOk, CmdsOk, TablesOk, ColsOk, MemoryOk, FlagsClear, S.IsShowTech,
      S.SubOrDummy;
    spec' := S.OnValue(spec, v);
    ok := c.sub != null;
    if ok {
      assert spec' == spec.(sub := Some(spec.sub.value.(name := Some(v))));
      hide S.OnValue, S.Fail;
      SubIsOpen(c, g, spec);
      c.sub.name := Some(v);
      SubTouched(Place(c.sub, g.fset, g.subs));
    } else {
      Reject(c, g, spec, live);
    }
  }

  method SubDesc(c: Cursors, v: string, ghost g: Shape, ghost spec: S.State, ghost live: set<object>)
    returns (ok: bool, ghost spec': S.State)
    requires Valid(c, g, spec, live) && c.state == S.KwSubFeatureDesc
    modifies ThatSub(c.sub)`desc
    ensures spec' == S.OnValue(spec, v) && StepOk(ok, c, g, spec', live)
  {
    hide Finished, Closed, FeaturesOf, SubsOk, CmdsOk, TablesOk, ColsOk, MemoryOk, FlagsClear, S.IsShowTech,
      S.SubOrDummy;
    spec' := S.OnValue(spec, v);
    ok := c.sub != null;
    if ok {
      assert spec' == spec.(sub := Some(spec.sub.value.(desc := Some(v))));
      hide S.OnValue, S.Fail;
      SubIsOpen(c, g, spec);
      c.sub.desc := Some(v);
      SubTouched(Place(c.sub, g.fset, g.subs));
    } else {
      Reject(c, g, spec, live);
    }
  }

  // ----- growing the set of nodes -----

  lemma AddSub(g: Shape, live: set<object>, s: SubFeature)
    requires MemoryOk(g, live) && s !in g.subs && s !in g.lost && (g.features != [] ==> s.owner != null)
    ensures MemoryOk(g.(subs := g.subs + {s}), live + {s})
  {
  }

  lemma AddCmd(g: Shape, live: set<object>, c: CliCmd)
    requires MemoryOk(g, live) && c !in g.lost
    ensures MemoryOk(g.(cmds := g.cmds + {c}), live + {c})
  {
  }

  lemma AddTable(g: Shape, live: set<object>, t: OvsTable)
    requires MemoryOk(g, live) && t !in g.lost
    ensures MemoryOk(g.(tables := g.tables + {t}), live + {t})
  {
  }

  lemma AddCol(g: Shape, live: set<object>, k: OvsColumn)
    requires MemoryOk(g, live) && k !in g.lost
    ensures MemoryOk(g.(cols := g.cols + {k}), live + {k})
  {
  }

  lemma AddFeature(g: Shape, live: set<object>, f: Feature)
    requires MemoryOk(g, live) && f !in g.lost && g.features != []
    ensures MemoryOk(g.(features := g.features + [f], fset := g.fset + {f}), live + {f})
  {
  }

  /** An orphan sub-feature hangs from no feature. */
  lemma OrphanFits(s: SubFeature, features: set<Feature>, subs: set<SubFeature>)
    requires SubsOk(features, subs) && s.owner == null
    ensures SubsOk(features, subs + {s})
  {
  }

  /** A new sub-feature becomes the current one. */
  function WithSub(c: Cursors, s: SubFeature): Cursors {
    c.(sub := s, cmd := null, table := null, col := null)
  }

  /** The tree only grows, and only by fresh nodes. */
  twostate predicate Grown(g: Shape, new g': Shape) {
    && g.lost <= g'.lost && g.base == g'.base
    && (forall o :: o in Nodes(g') ==> o in Nodes(g) || fresh(o))
    && (forall o :: o in g'.lost ==> o in g.lost || o in Nodes(g) || fresh(o))
  }

  method AddOrphan(mem: Memory, c: Cursors, ghost g: Shape, ghost spec: S.State)
    returns (s: SubFeature)
    requires Valid(c, g, spec, mem.live) && c.sub == null && c.feature == null
    modifies mem
    ensures fresh(s)
    ensures Valid(WithSub(c, s), g.(subs := g.subs + {s}), spec.(sub := Some(S.SubOrDummy(spec))), mem.live)
  {
    hide Finished, Closed, FeaturesOf, SubsOk, CmdsOk, TablesOk, ColsOk, MemoryOk, FlagsClear, CmdsOf, TablesOf;
    s := new SubFeature(mem, null, true);
    OrphanFits(s, g.fset, g.subs);
    EmptySubFits(s, g.subs, g.cmds, g.tables);
    AddSub(g, old(mem.live), s);
  }

  method LinkSub(f: Feature, after: SubFeature?, s: SubFeature, head: Feature?, ghost g: Shape)
    requires Lists(head, g) && f in g.fset && |f.vsubs| == |f.subs|
    requires s !in g.subs && s.owner == f && s.next == null
    requires s.cmds == [] && s.vcmds == [] && s.tables == [] && s.vtables == []
    requires s.p_clicmds == null && s.p_ovstable == null
    requires after == if f.subs == [] then null else f.subs[|f.subs| - 1]
    modifies ({s} + ThatSub(after))`next, f`subs, f`p_subfeature
    ensures Lists(head, g.(subs := g.subs + {s}))
    ensures f.subs == old(f.subs) + [s]
  {
    hide FeaturesOf, SubsOk, CmdsOk, TablesOk, ColsOk, CmdsOf, TablesOf;
    AppendSub(f, after, s, g.fset, g.subs);
    EmptySubFits(s, g.subs, g.cmds, g.tables);
  }

  method NewSub(mem: Memory, f: Feature, after: SubFeature?, dummy: bool, head: Feature?, ghost g: Shape)
    returns (s: SubFeature, ghost g': Shape)
    requires Lists(head, g) && MemoryOk(g, mem.live) && f in g.fset && |f.vsubs| == |f.subs|
    requires after == if f.subs == [] then null else f.subs[|f.subs| - 1]
    modifies mem, ThatSub(after)`next, f`subs, f`p_subfeature
    ensures fresh(s) && g' == g.(subs := g.subs + {s})
    ensures Grown(g, g')
    ensures Lists(head, g') && MemoryOk(g', mem.live)
    ensures f.subs == old(f.subs) + [s] && s.owner == f
    ensures s.Val() == S.EMPTY_SUB.(isDummy := dummy) && s.cmds == [] && s.tables == []
  {
    hide Lists;
    s := new SubFeature(mem, f, dummy);
    g' := g.(subs := g.subs + {s});
    AddSub(g, old(mem.live), s);
    hide MemoryOk;
    LinkSub(f, after, s, head, g);
  }

  method NewCmd(mem: Memory, s: SubFeature, after: CliCmd?, command: string, head: Feature?, ghost g: Shape)
    returns (k: CliCmd, ghost g': Shape)
    requires Lists(head, g) && MemoryOk(g, mem.live) && s in g.subs
    requires s.owner != null ==> |s.owner.vsubs| < |s.owner.subs| && s.owner.subs[|s.owner.subs| - 1] == s
    requires after == if s.cmds == [] then null else s.cmds[|s.cmds| - 1]
    modifies mem, ThatCmd(after)`next, s`cmds, s`p_clicmds, s`vcmds
    ensures fresh(k) && !k.command_failed && g' == g.(cmds := g.cmds + {k})
    ensures Grown(g, g')
    ensures Lists(head, g') && MemoryOk(g', mem.live)
    ensures s.cmds == old(s.cmds) + [k] && s.vcmds == old(s.vcmds) + [command]
  {
    hide Lists;
    k := new CliCmd(mem, command, s);
    g' := g.(cmds := g.cmds + {k});
    AddCmd(g, old(mem.live), k);
    hide MemoryOk;
    LinkCmd(s, after, k, head, g);
  }

  method NewTable(mem: Memory, s: SubFeature, after: OvsTable?, head: Feature?, ghost g: Shape)
    returns (t: OvsTable, ghost g': Shape)
    requires Lists(head, g) && MemoryOk(g, mem.live) && s in g.subs && |s.vtables| == |s.tables|
    requires after == if s.tables == [] then null else s.tables[|s.tables| - 1]
    modifies mem, ThatTable(after)`next, s`tables, s`p_ovstable
    ensures fresh(t) && g' == g.(tables := g.tables + {t})
    ensures Grown(g, g')
    ensures Lists(head, g') && MemoryOk(g', mem.live)
    ensures s.tables == old(s.tables) + [t] && t.owner == s && t.Val() == S.EMPTY_TABLE && t.cols == []
  {
    hide Lists;
    t := new OvsTable(mem, s);
    g' := g.(tables := g.tables + {t});
    AddTable(g, old(mem.live), t);
    hide MemoryOk;
    LinkTable(s, after, t, head, g);
  }

  method NewColumn(mem: Memory, t: OvsTable, after: OvsColumn?, name: string, head: Feature?, ghost g: Shape)
    returns (k: OvsColumn, ghost g': Shape)
    requires Lists(head, g) && MemoryOk(g, mem.live) && t in g.tables
    requires |t.owner.vtables| < |t.owner.tables| && t.owner.tables[|t.owner.tables| - 1] == t
    requires after == if t.cols == [] then null else t.cols[|t.cols| - 1]
    modifies mem, ThatColumn(after)`next, t`cols, t`p_colmname, t`vcols
    ensures fresh(k) && g' == g.(cols := g.cols + {k})
    ensures Grown(g, g')
    ensures Lists(head, g') && MemoryOk(g', mem.live)
    ensures t.cols == old(t.cols) + [k] && t.vcols == old(t.vcols) + [name]
  {
    hide Lists;
    k := new OvsColumn(mem, name, t);
    g' := g.(cols := g.cols + {k});
    AddCol(g, old(mem.live), k);
    hide MemoryOk;
    LinkColumn(t, after, k, head, g);
  }

  method AddSubUnderFeature(mem: Memory, c: Cursors, dummy: bool, ghost g: Shape, ghost spec: S.State)
    returns (c': Cursors, ghost g': Shape, ghost spec': S.State)
    requires Valid(c, g, spec, mem.live) && c.sub == null && c.feature != null
    modifies mem, c.feature`subs, c.feature`p_subfeature
    ensures spec' == spec.(sub := Some(S.EMPTY_SUB.(isDummy := dummy)))
    ensures Valid(c', g', spec', mem.live) && c' == WithSub(c, c'.sub) && c'.sub != null
    ensures fresh(c'.sub) && g' == g.(subs := g.subs + {c'.sub})
  {
    hide Finished, Closed, Lists, MemoryOk, FlagsClear;
    var s;
    s, g' := NewSub(mem, c.feature, null, dummy, c.head, g);
    c', spec' := WithSub(c, s), spec.(sub := Some(S.EMPTY_SUB.(isDummy := dummy)));
  }

  lemma CurrentSub(c: Cursors, g: Shape, spec: S.State)
    requires CursorsOk(c, g, spec)
    ensures c.sub == null <==> spec.sub == None
    ensures c.feature == null <==> spec.feature == None
    ensures c.feature == null <==> g.features == []
    ensures c.table == null <==> spec.table == None
    ensures !spec.failed && spec.key == c.state
  {
  }

  /** An attribute that stands directly in a feature creates a dummy sub-feature for itself. */
  method EnsureSub(mem: Memory, c: Cursors, ghost g: Shape, ghost spec: S.State)
    returns (c': Cursors, ghost g': Shape, ghost spec': S.State)
    requires Valid(c, g, spec, mem.live)
    modifies mem, ThatFeature(c.feature)`subs, ThatFeature(c.feature)`p_subfeature
    ensures spec' == spec.(sub := Some(S.SubOrDummy(spec)))
    ensures Valid(c', g', spec', mem.live) && c'.sub != null
    ensures c'.state == c.state && c'.head == c.head && c'.feature == c.feature
    ensures Grown(g, g') && (c'.sub == c.sub || fresh(c'.sub))
    ensures c'.sub == c.sub ==> c' == c
    ensures c'.sub != c.sub ==> c'.cmd == null && c'.table == null && c'.col == null
  {
    hide Lists, MemoryOk, FlagsClear, CursorsOk, OrphanOk;
    c', g', spec' := c, g, spec;
    CurrentSub(c, g, spec);
    if c.sub == null {
      if c.feature == null {
        var s := AddOrphan(mem, c, g, spec);
        c', g', spec' := WithSub(c, s), g.(subs := g.subs + {s}), spec.(sub := Some(S.SubOrDummy(spec)));
      } else {
        c', g', spec' := AddSubUnderFeature(mem, c, true, g, spec);
      }
    }
  }

  method LinkCmd(s: SubFeature, after: CliCmd?, k: CliCmd, head: Feature?, ghost g: Shape)
    requires Lists(head, g) && s in g.subs && k !in g.cmds && k.owner == s && k.next == null
    requires s.owner != null ==> |s.owner.vsubs| < |s.owner.subs| && s.owner.subs[|s.owner.subs| - 1] == s
    requires after == if s.cmds == [] then null else s.cmds[|s.cmds| - 1]
    modifies ({k} + ThatCmd(after))`next, s`cmds, s`p_clicmds, s`vcmds
    ensures Lists(head, g.(cmds := g.cmds + {k}))
    ensures s.cmds == old(s.cmds) + [k] && s.vcmds == old(s.vcmds) + [k.command]
  {
    hide FeaturesOf, SubsOk, CmdsOk, TablesOk, ColsOk, CmdsOf, TablesOf;
    AppendCmd(s, after, k, g.subs, g.cmds);
    SubTouched(Place(s, g.fset, g.subs));
  }

  method LinkTable(s: SubFeature, after: OvsTable?, t: OvsTable, head: Feature?, ghost g: Shape)
    requires Lists(head, g) && s in g.subs && |s.vtables| == |s.tables|
    requires t !in g.tables && t.owner == s && t.next == null && t.cols == [] && t.vcols == [] && t.p_colmname == null
    requires after == if s.tables == [] then null else s.tables[|s.tables| - 1]
    modifies ({t} + ThatTable(after))`next, s`tables, s`p_ovstable
    ensures Lists(head, g.(tables := g.tables + {t}))
    ensures s.tables == old(s.tables) + [t]
  {
    hide FeaturesOf, SubsOk, CmdsOk, TablesOk, ColsOk, CmdsOf, TablesOf;
    AppendTable(s, after, t, g.subs, g.tables);
    EmptyTableFits(t, g.tables, g.cols);
  }

  method LinkColumn(t: OvsTable, after: OvsColumn?, k: OvsColumn, head: Feature?, ghost g: Shape)
    requires Lists(head, g) && t in g.tables && k !in g.cols && k.owner == t && k.next == null
    requires |t.owner.vtables| < |t.owner.tables| && t.owner.tables[|t.owner.tables| - 1] == t
    requires after == if t.cols == [] then null else t.cols[|t.cols| - 1]
    modifies ({k} + ThatColumn(after))`next, t`cols, t`p_colmname, t`vcols
    ensures Lists(head, g.(cols := g.cols + {k}))
    ensures t.cols == old(t.cols) + [k] && t.vcols == old(t.vcols) + [k.name]
  {
    hide FeaturesOf, SubsOk, CmdsOk, TablesOk, ColsOk, CmdsOf, TablesOf;
    AppendColumn(t, after, k, g.tables, g.cols);
    TableTouched(Place(t, g.subs, g.tables));
  }

  method SetTableName(t: OvsTable, v: string, head: Feature?, ghost g: Shape)
    requires Lists(head, g) && t in g.tables
    requires |t.owner.vtables| < |t.owner.tables| && t.owner.tables[|t.owner.tables| - 1] == t
    modifies t`tablename
    ensures Lists(head, g) && t.tablename == Some(v)
  {
    hide FeaturesOf, SubsOk, CmdsOk, TablesOk, ColsOk, CmdsOf, TablesOf;
    t.tablename := Some(v);
    TableTouched(Place(t, g.subs, g.tables));
  }

  method SetSubFlags(s: SubFeature, noSta: bool, stb: bool, head: Feature?, ghost g: Shape)
    requires Lists(head, g) && s in g.subs
    requires s.owner != null ==> |s.owner.vsubs| < |s.owner.subs| && s.owner.subs[|s.owner.subs| - 1] == s
    modifies s`no_sta_support, s`support_stb
    ensures Lists(head, g) && s.no_sta_support == noSta && s.support_stb == stb
  {
    hide FeaturesOf, SubsOk, CmdsOk, TablesOk, ColsOk, CmdsOf, TablesOf;
    s.no_sta_support, s.support_stb := noSta, stb;
    SubTouched(Place(s, g.fset, g.subs));
  }

  // ----- values that go to a sub-feature, created on demand -----

  method FlagOnSub(c: Cursors, v: string, ghost g: Shape, ghost spec: S.State, ghost live: set<object>)
    returns (ghost spec': S.State)
    requires Valid(c, g, spec, live) && c.sub != null && (c.state == S.KwShowTechAll || c.state == S.KwShowTechFeature)
    modifies c.sub`no_sta_support, c.sub`support_stb
    ensures spec' == S.OnValue(spec, v) && Valid(c, g, spec', live)
  {
    hide Lists, MemoryOk, FlagsClear, S.IsShowTech, Finished, OthersClosed;
    SubIsOpen(c, g, spec);
    spec' := S.OnValue(spec, v);
    var all := c.state == S.KwShowTechAll;
    SetSubFlags(c.sub, if all then !S.IsYes(v) else c.sub.no_sta_support,
      if all then c.sub.support_stb else S.IsYes(v), c.head, g);
  }

  method ShowTechFlag(mem: Memory, c: Cursors, v: string, ghost g: Shape, ghost spec: S.State)
    returns (c': Cursors, ghost g': Shape, ghost spec': S.State)
    requires Valid(c, g, spec, mem.live) && (c.state == S.KwShowTechAll || c.state == S.KwShowTechFeature)
    modifies mem, ThatFeature(c.feature), ThatSub(c.sub), ThatCmd(c.cmd), ThatTable(c.table), ThatColumn(c.col)
    ensures spec' == S.OnValue(spec, v) && Valid(c', g', spec', mem.live) && Grown(g, g')
  {
    hide Lists, MemoryOk, FlagsClear, CursorsOk, OrphanOk, S.IsShowTech;
    CurrentSub(c, g, spec);
    c', g', spec' := EnsureSub(mem, c, g, spec);
    spec' := FlagOnSub(c', v, g', spec', mem.live);
  }

  /** A command appended to the current sub-feature moves the command cursor and no other. */
  method StartCmd(mem: Memory, c: Cursors, v: string, ghost g: Shape, ghost spec: S.State)
    returns (k: CliCmd, ghost g': Shape)
    requires Lists(c.head, g) && MemoryOk(g, mem.live) && FlagsClear(g.cmds) && CursorsOk(c, g, spec) && c.sub != null
    modifies mem, ThatCmd(c.cmd)`next, c.sub`cmds, c.sub`p_clicmds, c.sub`vcmds
    ensures fresh(k) && g' == g.(cmds := g.cmds + {k}) && Lists(c.head, g') && MemoryOk(g', mem.live) && Grown(g, g')
    ensures FlagsClear(g'.cmds)
    ensures SubCursorOk(c.feature, c.sub, k, c.table != null, g.subs,
      Some(spec.sub.value.(cmds := spec.sub.value.cmds + [v])))
  {
    hide Lists, MemoryOk, FlagsClear, Finished, OthersClosed, Grown, Nodes, FeatureCursorOk, TableCursorOk;
    SubIsOpen(c, g, spec);
    k, g' := NewCmd(mem, c.sub, c.cmd, v, c.head, g);
    OneMoreFlag(g.cmds, k);
  }

  method CmdOnSub(mem: Memory, c: Cursors, v: string, ghost g: Shape, ghost spec: S.State)
    returns (c': Cursors, ghost g': Shape, ghost spec': S.State)
    requires Valid(c, g, spec, mem.live) && c.sub != null && c.state == S.KwCliCmds && !S.IsShowTech(v)
    modifies mem, ThatCmd(c.cmd)`next, c.sub`cmds, c.sub`p_clicmds, c.sub`vcmds
    ensures spec' == S.OnValue(spec, v) && Valid(c', g', spec', mem.live) && Grown(g, g')
  {
    hide Lists, MemoryOk, FlagsClear, S.IsShowTech, Finished, Grown, Nodes, FeatureCursorOk, SubCursorOk;
    CurrentSub(c, g, spec);
    spec' := S.OnValue(spec, v);
    assert spec' == spec.(sub := Some(spec.sub.value.(cmds := spec.sub.value.cmds + [v])));
    hide S.OnValue, S.SubOrDummy;
    var k;
    k, g' := StartCmd(mem, c, v, g, spec);
    c' := c.(cmd := k);
  }

  lemma OneMoreFlag(cmds: set<CliCmd>, k: CliCmd)
    requires FlagsClear(cmds) && !k.command_failed
    ensures FlagsClear(cmds + {k})
  {
  }

  method CliCommand(mem: Memory, c: Cursors, v: string, ghost g: Shape, ghost spec: S.State)
    returns (ok: bool, c': Cursors, ghost g': Shape, ghost spec': S.State)
    requires Valid(c, g, spec, mem.live) && c.state == S.KwCliCmds
    modifies mem, ThatFeature(c.feature), ThatSub(c.sub), ThatCmd(c.cmd), ThatTable(c.table), ThatColumn(c.col)
    ensures spec' == S.OnValue(spec, v) && StepOk(ok, c', g', spec', mem.live) && Grown(g, g')
  {
    hide Lists, MemoryOk, FlagsClear, CursorsOk, OrphanOk, S.IsShowTech;
    CurrentSub(c, g, spec);
    c', g', spec' := EnsureSub(mem, c, g, spec);
    ok := !S.IsShowTech(v);
    if ok {
      c', g', spec' := CmdOnSub(mem, c', v, g', spec');
    } else {
      Reject(c', g', spec', mem.live);
      spec' := S.Fail(spec');
    }
  }

  // ----- values that go to a table -----

  /** The current table is the last, unfinished one of its sub-feature. */
  lemma TableIsOpen(c: Cursors, g: Shape, spec: S.State)
    requires CursorsOk(c, g, spec) && c.table != null
    ensures c.table in g.tables && c.table.owner == c.sub
    ensures |c.sub.vtables| < |c.sub.tables| && c.sub.tables[|c.sub.tables| - 1] == c.table
  {
  }

  method TableName(c: Cursors, v: string, ghost g: Shape, ghost spec: S.State, ghost live: set<object>)
    returns (ok: bool, ghost spec': S.State)
    requires Valid(c, g, spec, live) && c.state == S.KwTableName
    modifies ThatTable(c.table)`tablename
    ensures spec' == S.OnValue(spec, v) && StepOk(ok, c, g, spec', live)
  {
    hide Lists, MemoryOk, FlagsClear, S.IsShowTech, Finished, OthersClosed;
    spec' := S.OnValue(spec, v);
    ok := c.table != null;
    if ok {
      TableIsOpen(c, g, spec);
      SetTableName(c.table, v, c.head, g);
    } else {
      Reject(c, g, spec, live);
    }
  }

  method ColumnOnTable(mem: Memory, c: Cursors, v: string, ghost g: Shape, ghost spec: S.State)
    returns (c': Cursors, ghost g': Shape, ghost spec': S.State)
    requires Valid(c, g, spec, mem.live) && c.state == S.KwColNames && c.table != null
    modifies mem, ThatFeature(c.feature), ThatSub(c.sub), ThatCmd(c.cmd), ThatTable(c.table), ThatColumn(c.col)
    ensures spec' == S.OnValue(spec, v) && Valid(c', g', spec', mem.live) && Grown(g, g')
  {
    hide Lists, MemoryOk, FlagsClear, S.IsShowTech, Finished, OthersClosed, Grown, Nodes, FeatureCursorOk;
    CurrentSub(c, g, spec);
    TableIsOpen(c, g, spec);
    hide SubCursorOk;
    spec' := S.OnValue(spec, v);
    assert spec' == spec.(table := Some(spec.table.value.(cols := spec.table.value.cols + [v])));
    hide S.OnValue;
    var k;
    k, g' := NewColumn(mem, c.table, c.col, v, c.head, g);
    c' := c.(col := k);
  }

  method ColumnName(mem: Memory, c: Cursors, v: string, ghost g: Shape, ghost spec: S.State)
    returns (ok: bool, c': Cursors, ghost g': Shape, ghost spec': S.State)
    requires Valid(c, g, spec, mem.live) && c.state == S.KwColNames
    modifies mem, ThatFeature(c.feature), ThatSub(c.sub), ThatCmd(c.cmd), ThatTable(c.table), ThatColumn(c.col)
    ensures spec' == S.OnValue(spec, v) && StepOk(ok, c', g', spec', mem.live) && Grown(g, g')
  {
    hide Lists, MemoryOk, FlagsClear, CursorsOk, OrphanOk, S.IsShowTech;
    CurrentSub(c, g, spec);
    ok := c.table != null;
    if ok {
      c', g', spec' := ColumnOnTable(mem, c, v, g, spec);
    } else {
      Reject(c, g, spec, mem.live);
      c', g', spec' := c, g, S.Fail(spec);
    }
  }

  // ----- finishing what the cursors point at -----

  ghost method FinishTable(c: Cursors, g: Shape, spec: S.State)
    requires Lists(c.head, g) && CursorsOk(c, g, spec) && c.sub != null
    modifies c.sub`vtables
    ensures Lists(c.head, g) && Closed(c.sub)
    ensures c.sub.Val() == S.CloseTable(old(c.sub.Val()), spec.table)
    ensures c.table != null ==> c.sub.tables != [] && c.sub.tables[|c.sub.tables| - 1] == c.table
    ensures c.table == null ==> c.sub.tables == []
  {
    hide FeaturesOf, SubsOk, CmdsOk, TablesOk, ColsOk, CmdsOf, TablesOf, Finished;
    if c.table != null {
      SubIsOpen(c, g, spec);
      CloseTable(c.sub, c.table, g.subs, g.tables);
      SubTouched(Place(c.sub, g.fset, g.subs));
    }
  }

  ghost method FinishSub(c: Cursors, g: Shape, spec: S.State)
    requires Lists(c.head, g) && CursorsOk(c, g, spec) && c.feature != null
    modifies ThatSub(c.sub)`vtables, c.feature`vsubs
    ensures Lists(c.head, g) && forall s :: s in g.subs ==> Closed(s)
    ensures Finished(c.feature, S.CloseSub(spec.feature.value, spec.sub, spec.table))
    ensures c.sub == (if c.feature.subs == [] then null else c.feature.subs[|c.feature.subs| - 1])
  {
    hide FeaturesOf, SubsOk, CmdsOk, TablesOk, ColsOk, CmdsOf, TablesOf;
    if c.sub != null {
      FinishTable(c, g, spec);
      CloseSub(c.feature, c.sub, g.fset, g.subs);
    }
  }

  // ----- the keywords that create nodes -----

  method StartTable(mem: Memory, c: Cursors, ghost g: Shape, ghost spec: S.State)
    returns (t: OvsTable, ghost g': Shape)
    requires Lists(c.head, g) && MemoryOk(g, mem.live) && CursorsOk(c, g, spec) && c.sub != null
    modifies mem, ThatTable(c.table)`next, c.sub`vtables, c.sub`tables, c.sub`p_ovstable
    ensures fresh(t) && g' == g.(tables := g.tables + {t}) && Lists(c.head, g') && MemoryOk(g', mem.live) &&
      Grown(g, g')
    ensures t.owner == c.sub && t.Val() == S.EMPTY_TABLE && t.cols == []
    ensures c.sub.Val() == S.CloseTable(old(c.sub.Val()), spec.table)
    ensures c.sub.tables == old(c.sub.tables) + [t] && |c.sub.vtables| == |c.sub.tables| - 1
    ensures OthersClosed(g'.subs, c.sub)
  {
    hide Lists, MemoryOk, Nodes, FeatureCursorOk, TableCursorOk;
    FinishTable(c, g, spec);
    t, g' := NewTable(mem, c.sub, c.table, c.head, g);
  }

  method TableKeyword(mem: Memory, c: Cursors, ghost g: Shape, ghost spec: S.State)
    returns (c': Cursors, ghost g': Shape, ghost spec': S.State)
    requires Valid(c, g, spec, mem.live) && c.feature != null && c.sub != null
    modifies mem, ThatFeature(c.feature), ThatSub(c.sub), ThatCmd(c.cmd), ThatTable(c.table), ThatColumn(c.col)
    ensures spec' == S.OnKeyword(spec, S.KwTable) && Valid(c', g', spec', mem.live) && Grown(g, g')
  {
    hide Lists, MemoryOk, FlagsClear, Finished, OthersClosed, Nodes, FeatureCursorOk, Grown;
    CurrentSub(c, g, spec);
    spec' := S.OnKeyword(spec, S.KwTable);
    assert spec' ==
      spec.(key := S.KwTable, sub := Some(S.CloseTable(spec.sub.value, spec.table)), table := Some(S.EMPTY_TABLE));
    hide S.OnKeyword, S.CloseTable;
    var t;
    t, g' := StartTable(mem, c, g, spec);
    c' := c.(state := S.KwTable, table := t, col := null);
  }

  method StartSub(mem: Memory, c: Cursors, ghost g: Shape, ghost spec: S.State)
    returns (s: SubFeature, ghost g': Shape)
    requires Lists(c.head, g) && MemoryOk(g, mem.live) && CursorsOk(c, g, spec) && c.feature != null
    modifies mem, ThatSub(c.sub)`vtables, ThatSub(c.sub)`next, c.feature`vsubs, c.feature`subs, c.feature`p_subfeature
    ensures fresh(s) && g' == g.(subs := g.subs + {s}) && Lists(c.head, g') && MemoryOk(g', mem.live) && Grown(g, g')
    ensures s.owner == c.feature && s.Val() == S.EMPTY_SUB && s.cmds == [] && s.tables == []
    ensures c.feature.Val() == S.CloseSub(spec.feature.value, spec.sub, spec.table)
    ensures c.feature.subs == old(c.feature.subs) + [s] && |c.feature.vsubs| == |c.feature.subs| - 1
    ensures OthersClosed(g'.subs, s)
  {
    hide Lists, MemoryOk, Nodes, FeatureCursorOk, SubCursorOk, TableCursorOk, S.CloseSub, Closed;
    CurrentFeature(c, g, spec);
    FinishSub(c, g, spec);
    s, g' := NewSub(mem, c.feature, c.sub, false, c.head, g);
  }

  lemma CurrentFeature(c: Cursors, g: Shape, spec: S.State)
    requires CursorsOk(c, g, spec)
    ensures c.feature != null ==> c.feature in g.fset && spec.feature == Some(c.feature.Val())
  {
  }

  method SubFeatureKeyword(mem: Memory, c: Cursors, ghost g: Shape, ghost spec: S.State)
    returns (c': Cursors, ghost g': Shape, ghost spec': S.State)
    requires Valid(c, g, spec, mem.live) && c.feature != null
    modifies mem, ThatFeature(c.feature), ThatSub(c.sub), ThatCmd(c.cmd), ThatTable(c.table), ThatColumn(c.col)
    ensures spec' == S.OnKeyword(spec, S.KwSubFeature) && Valid(c', g', spec', mem.live) && Grown(g, g')
  {
    hide Lists, MemoryOk, FlagsClear, Finished, OthersClosed, Nodes, Grown, TableCursorOk;
    CurrentSub(c, g, spec);
    spec' := S.OnKeyword(spec, S.KwSubFeature);
    assert spec' == spec.(key := S.KwSubFeature, feature := Some(S.CloseSub(spec.feature.value, spec.sub, spec.table)),
      sub := Some(S.EMPTY_SUB), table := None);
    hide S.OnKeyword, S.CloseSub;
    var s;
    s, g' := StartSub(mem, c, g, spec);
    c' := WithSub(c, s).(state := S.KwSubFeature);
    assert TableCursorOk(s, null, null, g'.tables, None) by { NoTable(s, g'.tables); }
  }

  lemma NoTable(s: SubFeature?, tables: set<OvsTable>)
    ensures TableCursorOk(s, null, null, tables, None)
  {
  }

  lemma EmptyFeatureFits(f: Feature, g: Shape)
    requires SubsOk(g.fset, g.subs) && f.subs == [] && f.vsubs == [] && f.p_subfeature == null
    ensures SubsOk(g.fset + {f}, g.subs)
  {
  }

  method LinkFeature(after: Feature?, f: Feature, head: Feature?, ghost g: Shape) returns (newHead: Feature)
    requires Lists(head, g) && g.features != [] && after == g.features[|g.features| - 1]
    requires f !in g.features && f.next == null && f.subs == [] && f.vsubs == [] && f.p_subfeature == null
    modifies ({f} + ThatFeature(after))`next
    ensures Lists(newHead, g.(features := g.features + [f], fset := g.fset + {f}))
  {
    hide FeaturesOf, SubsOk, CmdsOk, TablesOk, ColsOk, CmdsOf, TablesOf;
    newHead := AppendFeature(after, head, f, g.features);
    EmptyFeatureFits(f, g);
  }

  method NewFeature(mem: Memory, after: Feature?, head: Feature?, ghost g: Shape)
    returns (f: Feature, newHead: Feature, ghost g': Shape)
    requires Lists(head, g) && MemoryOk(g, mem.live) && g.features != []
    requires after == g.features[|g.features| - 1]
    modifies mem, ThatFeature(after)`next
    ensures fresh(f) && g' == g.(features := g.features + [f], fset := g.fset + {f})
    ensures Lists(newHead, g') && MemoryOk(g', mem.live) && Grown(g, g')
    ensures f.Val() == S.EMPTY_FEATURE && f.subs == []
  {
    hide Lists;
    f := new Feature(mem);
    g' := g.(features := g.features + [f], fset := g.fset + {f});
    AddFeature(g, old(mem.live), f);
    hide MemoryOk;
    newHead := LinkFeature(after, f, head, g);
  }

  /** Any later feature: everything below the current one is finished. */
  method StartFeature(mem: Memory, c: Cursors, ghost g: Shape, ghost spec: S.State)
    returns (f: Feature, newHead: Feature, ghost g': Shape)
    requires Lists(c.head, g) && MemoryOk(g, mem.live) && CursorsOk(c, g, spec) && c.feature != null
    modifies mem, ThatSub(c.sub)`vtables, c.feature`vsubs, c.feature`next
    ensures fresh(f) && g' == g.(features := g.features + [f], fset := g.fset + {f})
    ensures Lists(newHead, g') && MemoryOk(g', mem.live) && Grown(g, g')
    ensures f.Val() == S.EMPTY_FEATURE && f.subs == []
    ensures Finished(c.feature, S.CloseSub(spec.feature.value, spec.sub, spec.table))
    ensures OthersClosed(g'.subs, null)
  {
    hide Lists, MemoryOk, Nodes, SubCursorOk, TableCursorOk, S.CloseSub, Closed, Finished;
    FinishSub(c, g, spec);
    f, newHead, g' := NewFeature(mem, c.feature, c.head, g);
  }

  method NextFeature(mem: Memory, c: Cursors, ghost g: Shape, ghost spec: S.State)
    returns (c': Cursors, ghost g': Shape, ghost spec': S.State)
    requires Valid(c, g, spec, mem.live) && c.feature != null
    modifies mem, ThatFeature(c.feature), ThatSub(c.sub), ThatCmd(c.cmd), ThatTable(c.table), ThatColumn(c.col)
    ensures spec' == S.OnKeyword(spec, S.KwFeature) && Valid(c', g', spec', mem.live) && Grown(g, g')
  {
    hide Lists, MemoryOk, FlagsClear, Finished, OthersClosed, Nodes, Grown, TableCursorOk;
    CurrentSub(c, g, spec);
    spec' := S.OnKeyword(spec, S.KwFeature);
    ghost var v := S.CloseSub(spec.feature.value, spec.sub, spec.table);
    assert spec' == S.State(S.KwFeature, spec.done + [v], Some(S.EMPTY_FEATURE), None, None, spec.lost, false);
    hide S.OnKeyword, S.CloseSub;
    var f, head;
    f, head, g' := StartFeature(mem, c, g, spec);
    c' := Cursors(head, S.KwFeature, f, null, null, null, null);
    assert TableCursorOk(null, null, null, g'.tables, None) by { NoTable(null, g'.tables); }
  }

  /** The first feature: an orphan sub-feature, if there was one, is now out of reach. */
  method FirstFeature(mem: Memory, c: Cursors, ghost g: Shape, ghost spec: S.State)
    returns (c': Cursors, ghost g': Shape, ghost spec': S.State)
    requires Valid(c, g, spec, mem.live) && c.feature == null
    modifies mem
    ensures spec' == S.OnKeyword(spec, S.KwFeature) && Valid(c', g', spec', mem.live) && Grown(g, g')
  {
    hide Lists, MemoryOk, FlagsClear, Nodes, Grown;
    OrphanCount(c, c.head, g, mem.live);
    assert |mem.live| == |g.lost| + S.OrphanSize(spec.sub) && spec.lost == None;
    var f := new Feature(mem);
    g' := Shape([f], {f}, {}, {}, {}, {}, old(mem.live), g.base);
    OneFeatureMemory(f, g, g', old(mem.live));
    OneFeature(f, g');
    c' := Cursors(f, S.KwFeature, f, null, null, null, null);
    spec' := S.OnKeyword(spec, S.KwFeature);
    assert FlagsClear({}) by { NoFlags(); }
  }

  lemma NoFlags()
    ensures FlagsClear({})
  {
  }

  twostate lemma OneFeatureMemory(new f: Feature, g: Shape, new g': Shape, new live: set<object>)
    requires MemoryOk(g, live) && fresh(f) && f !in live
    requires g' == Shape([f], {f}, {}, {}, {}, {}, live, g.base)
    ensures MemoryOk(g', live + {f}) && Grown(g, g')
  {
  }

  lemma OneFeature(f: Feature, g: Shape)
    requires g.features == [f] && g.fset == {f} && g.subs == {} && g.cmds == {} && g.tables == {} && g.cols == {}
    requires f.next == null && f.subs == [] && f.vsubs == [] && f.p_subfeature == null
    ensures Lists(f, g)
  {
  }

  // ----- one scalar -----

  /** The keywords that only change the parser's state. */
  lemma StateKeyword(c: Cursors, k: S.Keyword, g: Shape, spec: S.State, live: set<object>)
    requires Valid(c, g, spec, live) && k != S.Value
    ensures Valid(c.(state := k), g, spec.(key := k), live)
  {
    hide Lists, MemoryOk, FlagsClear, FeatureCursorOk, SubCursorOk, TableCursorOk;
  }

  method OnKeyword(mem: Memory, c: Cursors, k: S.Keyword, ghost g: Shape, ghost spec: S.State)
    returns (ok: bool, c': Cursors, ghost g': Shape, ghost spec': S.State)
    requires Valid(c, g, spec, mem.live) && k != S.Value
    modifies mem, ThatFeature(c.feature), ThatSub(c.sub), ThatCmd(c.cmd), ThatTable(c.table), ThatColumn(c.col)
    ensures spec' == S.OnKeyword(spec, k) && StepOk(ok, c', g', spec', mem.live) && Grown(g, g')
  {
    hide Lists, MemoryOk, FlagsClear, CursorsOk, OrphanOk, Nodes, S.CloseSub, S.CloseTable, S.Tree;
    CurrentSub(c, g, spec);
    ok, c', g', spec' := true, c, g, spec;
    if k == S.KwFeature {
      if c.feature == null {
        c', g', spec' := FirstFeature(mem, c, g, spec);
      } else {
        c', g', spec' := NextFeature(mem, c, g, spec);
      }
    } else if k == S.KwSubFeature || k == S.KwTable {
      if c.feature == null {
        ok, spec' := false, S.OnKeyword(spec, k);
        RejectKeyword(c, k, g, spec, mem.live);
      } else if k == S.KwSubFeature {
        c', g', spec' := SubFeatureKeyword(mem, c, g, spec);
      } else {
        c', g', spec' := TableOnDemand(mem, c, g, spec);
      }
    } else {
      c', spec' := c.(state := k), spec.(key := k);
      StateKeyword(c, k, g, spec, mem.live);
    }
  }

  lemma RejectKeyword(c: Cursors, k: S.Keyword, g: Shape, spec: S.State, live: set<object>)
    requires Valid(c, g, spec, live) && (k == S.KwSubFeature || k == S.KwTable) && c.feature == null
    ensures S.OnKeyword(spec, k).failed && Doomed(c, g, S.OnKeyword(spec, k), live)
  {
    hide Lists, MemoryOk, FlagsClear, CursorsOk, OrphanOk;
    CurrentSub(c, g, spec);
    Reject(c, g, spec, live);
  }

  method TableOnDemand(mem: Memory, c: Cursors, ghost g: Shape, ghost spec: S.State)
    returns (c': Cursors, ghost g': Shape, ghost spec': S.State)
    requires Valid(c, g, spec, mem.live) && c.feature != null
    modifies mem, ThatFeature(c.feature), ThatSub(c.sub), ThatCmd(c.cmd), ThatTable(c.table), ThatColumn(c.col)
    ensures spec' == S.OnKeyword(spec, S.KwTable) && Valid(c', g', spec', mem.live) && Grown(g, g')
  {
    hide Lists, MemoryOk, FlagsClear, CursorsOk, OrphanOk, Nodes;
    CurrentSub(c, g, spec);
    c', g', spec' := EnsureSub(mem, c, g, spec);
    c', g', spec' := TableKeyword(mem, c', g', spec');
  }

  method OnValue(mem: Memory, c: Cursors, v: string, ghost g: Shape, ghost spec: S.State)
    returns (ok: bool, c': Cursors, ghost g': Shape, ghost spec': S.State)
    requires Valid(c, g, spec, mem.live)
    modifies mem, ThatFeature(c.feature), ThatSub(c.sub), ThatCmd(c.cmd), ThatTable(c.table), ThatColumn(c.col)
    ensures spec' == S.OnValue(spec, v) && StepOk(ok, c', g', spec', mem.live) && Grown(g, g')
  {
    hide Lists, MemoryOk, FlagsClear, CursorsOk, OrphanOk, Nodes, S.IsShowTech;
    CurrentSub(c, g, spec);
    ok, c', g', spec' := true, c, g, spec;
    match c.state {
      case KwFeatureName => ok, spec' := FeatureField(c, v, g, spec, mem.live);
      case KwFeatureDesc => ok, spec' := FeatureField(c, v, g, spec, mem.live);
      case KwSubFeatureName => ok, spec' := SubName(c, v, g, spec, mem.live);
      case KwSubFeatureDesc => ok, spec' := SubDesc(c, v, g, spec, mem.live);
      case KwShowTechAll => c', g', spec' := ShowTechFlag(mem, c, v, g, spec);
      case KwShowTechFeature => c', g', spec' := ShowTechFlag(mem, c, v, g, spec);
      case KwCliCmds => ok, c', g', spec' := CliCommand(mem, c, v, g, spec);
      case KwTableName => ok, spec' := TableName(c, v, g, spec, mem.live);
      case KwColNames => ok, c', g', spec' := ColumnName(mem, c, v, g, spec);
      case _ =>
    }
  }
}
