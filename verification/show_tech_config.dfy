/** The show-tech configuration as its clients use it: parse it, read it, free it. */
module ShowTechConfig {
  import opened ShowTechNodes
  import opened ShowTechParser
  import opened ShowTechFree
  import S = ShowTechSpec

  // ----- following the pointers reads off a tree -----

  ghost predicate ColsAt(c: OvsColumn?, names: seq<string>)
    reads *
    decreases |names|
  {
    if names == [] then c == null
    else c != null && c.name == names[0] && ColsAt(c.next, names[1..])
  }

  ghost predicate CmdsAt(c: CliCmd?, commands: seq<string>)
    reads *
    decreases |commands|
  {
    if commands == [] then c == null
    else c != null && c.command == commands[0] && CmdsAt(c.next, commands[1..])
  }

  ghost predicate TablesAt(t: OvsTable?, ts: seq<S.Table>)
    reads *
    decreases |ts|
  {
    if ts == [] then t == null
    else t != null && t.tablename == ts[0].name && ColsAt(t.p_colmname, ts[0].cols) && TablesAt(t.next, ts[1..])
  }

  ghost predicate SubsAt(s: SubFeature?, xs: seq<S.SubFeature>)
    reads *
    decreases |xs|
  {
    if xs == [] then s == null
    else
      && s != null && s.name == xs[0].name && s.desc == xs[0].desc
      && s.no_sta_support == xs[0].noStaSupport && s.support_stb == xs[0].supportStb && s.is_dummy == xs[0].isDummy
      && CmdsAt(s.p_clicmds, xs[0].cmds) && TablesAt(s.p_ovstable, xs[0].tables)
      && SubsAt(s.next, xs[1..])
  }

  /** The pointer structure from f on is exactly the tree: the same nodes in the same order,
      nested the same way, and NULL at every end. */
  ghost predicate FeaturesAt(f: Feature?, tree: seq<S.Feature>)
    reads *
    decreases |tree|
  {
    if tree == [] then f == null
    else
      && f != null && f.name == tree[0].name && f.desc == tree[0].desc
      && SubsAt(f.p_subfeature, tree[0].subs)
      && FeaturesAt(f.next, tree[1..])
  }

  ghost function From<T>(s: seq<T>, i: nat): (r: seq<T>)
    requires i <= |s|
    ensures i < |s| ==> r != [] && r[0] == s[i] && r[1..] == From(s, i + 1)
    decreases |s| - i
  {
    s[i..]
  }

  lemma {:induction false} ReadCols(t: OvsTable, i: nat)
    requires ColsOf(t) && i <= |t.cols|
    ensures ColsAt(if i < |t.cols| then t.cols[i] else null, From(t.vcols, i))
    decreases |t.cols| - i
  {
    if i < |t.cols| {
      ReadCols(t, i + 1);
    }
  }

  lemma {:induction false} ReadCmds(s: SubFeature, i: nat)
    requires CmdsOf(s) && i <= |s.cmds|
    ensures CmdsAt(if i < |s.cmds| then s.cmds[i] else null, From(s.vcmds, i))
    decreases |s.cmds| - i
  {
    if i < |s.cmds| {
      ReadCmds(s, i + 1);
    }
  }

  lemma {:induction false} ReadTables(s: SubFeature, i: nat)
    requires TablesOf(s) && Closed(s) && (forall t :: t in s.tables ==> ColsOf(t)) && i <= |s.tables|
    ensures TablesAt(if i < |s.tables| then s.tables[i] else null, From(s.vtables, i))
    decreases |s.tables| - i
  {
    if i < |s.tables| {
      ReadTables(s, i + 1);
      ReadCols(s.tables[i], 0);
    }
  }

  /** Everything in the tree is finished. */
  ghost predicate AllClosed(head: Feature?, g: Shape, tree: seq<S.Feature>)
    reads g.features, g.fset, g.subs, g.tables, g.cols, g.cmds`command, g.cmds`next, g.cmds`owner
  {
    && Lists(head, g) && (forall s :: s in g.subs ==> Closed(s)) && (forall f :: f in g.features ==> f in g.fset)
    && |tree| == |g.features| && forall i :: 0 <= i < |tree| ==> Finished(g.features[i], tree[i])
  }

  lemma {:induction false} ReadSubs(g: Shape, f: Feature, i: nat)
    requires SubsOf(f) && |f.vsubs| == |f.subs| && (forall s :: s in f.subs ==> s in g.subs && Closed(s))
    requires CmdsOk(g.subs, g.cmds) && TablesOk(g.subs, g.tables) && ColsOk(g.tables, g.cols)
    requires i <= |f.subs|
    ensures SubsAt(if i < |f.subs| then f.subs[i] else null, From(f.vsubs, i))
    decreases |f.subs| - i
  {
    hide ColsOf;
    if i < |f.subs| {
      var s := f.subs[i];
      ReadSubs(g, f, i + 1);
      assert CmdsOf(s) && TablesOf(s);
      ReadCmds(s, 0);
      ReadTables(s, 0);
    }
  }

  lemma {:induction false} ReadFeatures(head: Feature?, g: Shape, tree: seq<S.Feature>, i: nat)
    requires AllClosed(head, g, tree) && i <= |tree|
    ensures FeaturesAt(if i < |tree| then g.features[i] else null, From(tree, i))
    decreases |tree| - i
  {
    hide CmdsOk, TablesOk, ColsOk, SubsOf;
    if i < |tree| {
      var f := g.features[i];
      ReadFeatures(head, g, tree, i + 1);
      assert f in g.features && SubsOf(f) && Finished(f, tree[i]);
      assert f.p_subfeature == if f.subs == [] then null else f.subs[0] by { SubChain(f); }
      ReadSubs(g, f, 0);
    }
  }

  // ----- the fold over what is left of the stream -----

  lemma {:induction false} FailedStays(s: S.State, es: seq<S.Event>)
    requires s.failed
    ensures S.Run(s, es) == s
    decreases |es|
  {
    if es != [] {
      FailedStays(s, es[1..]);
    }
  }

  lemma RunNext(s: S.State, es: seq<S.Event>, i: nat)
    requires i < |es|
    ensures S.Run(s, es[i..]) == S.Run(S.Step(s, es[i]), es[i + 1..])
  {
    assert es[i..][0] == es[i] && es[i..][1..] == es[i + 1..];
  }

  /** The nodes the cursors point at are in the tree. */
  lemma CursorsInTree(c: Cursors, g: Shape, spec: S.State, live: set<object>)
    requires Valid(c, g, spec, live)
    ensures forall o :: o in ThatFeature(c.feature) ==> o in Nodes(g)
    ensures forall o :: o in ThatSub(c.sub) ==> o in Nodes(g)
    ensures forall o :: o in ThatCmd(c.cmd) ==> o in Nodes(g)
    ensures forall o :: o in ThatTable(c.table) ==> o in Nodes(g)
    ensures forall o :: o in ThatColumn(c.col) ==> o in Nodes(g)
  {
    hide MemoryOk, FlagsClear, FeaturesOf, SubsOf, CmdsOf, TablesOf, ColsOf, OthersClosed, OrphanOk;
  }

  method OneEvent(m: Memory, c: Cursors, e: S.Event, ghost g: Shape, ghost spec: S.State)
    returns (ok: bool, c': Cursors, ghost g': Shape, ghost spec': S.State)
    requires Valid(c, g, spec, m.live)
    modifies m, ThatFeature(c.feature), ThatSub(c.sub), ThatCmd(c.cmd), ThatTable(c.table), ThatColumn(c.col)
    ensures spec' == S.Step(spec, e) && StepOk(ok, c', g', spec', m.live) && Grown(g, g')
  {
    hide Lists, MemoryOk, FlagsClear, CursorsOk, OrphanOk, Nodes, S.OnValue, S.OnKeyword, S.KeywordOf;
    CurrentSub(c, g, spec);
    ok, c', g', spec' := true, c, g, spec;
    match e {
      case Scalar(v) =>
        var k := S.GetValueType(v);
        if k == S.Value {
          ok, c', g', spec' := OnValue(m, c, v, g, spec);
        } else {
          ok, c', g', spec' := OnKeyword(m, c, k, g, spec);
        }
      case Structure =>
      case ParserError =>
        Reject(c, g, spec, m.live);
        ok, spec' := false, S.Fail(spec);
    }
  }

  ghost predicate Empty(g: Shape) {
    g.features == [] && g.fset == {} && g.subs == {} && g.cmds == {} && g.tables == {} && g.cols == {}
  }

  lemma Start(g: Shape, live: set<object>)
    requires Empty(g) && live == g.lost && g.base == |g.lost|
    ensures Valid(Cursors(null, S.KwFeature, null, null, null, null, null), g, S.INITIAL, live)
  {
    NoTree(g, live);
  }

  method ParseEvents(m: Memory, events: seq<S.Event>, ghost g0: Shape)
    returns (ok: bool, c: Cursors, ghost g: Shape, ghost spec: S.State)
    requires Empty(g0) && m.live == g0.lost && g0.base == |g0.lost|
    modifies m
    ensures spec == S.Run(S.INITIAL, events) && StepOk(ok, c, g, spec, m.live)
    ensures g0.lost <= g.lost && g.base == g0.base && forall o :: o in Nodes(g) ==> fresh(o)
  {
    hide Lists, MemoryOk, FlagsClear, CursorsOk, OrphanOk, Nodes, S.Step;
    ok, c, g, spec := true, Cursors(null, S.KwFeature, null, null, null, null, null), g0, S.INITIAL;
    Start(g, m.live);
    assert Nodes(g) == {} by { NoNodes(g); }
    var i := 0;
    assert events[0..] == events;
    while i < |events| && ok
      invariant i <= |events| && StepOk(ok, c, g, spec, m.live)
      invariant S.Run(spec, events[i..]) == S.Run(S.INITIAL, events)
      invariant g0.lost <= g.lost && g.base == g0.base && forall o :: o in Nodes(g) ==> fresh(o)
    {
      CursorsInTree(c, g, spec, m.live);
      RunNext(spec, events, i);
      ok, c, g, spec := OneEvent(m, c, events[i], g, spec);
      i := i + 1;
    }
    if ok {
      assert events[i..] == [];
    } else {
      FailedStays(spec, events[i..]);
    }
  }

  lemma NoNodes(g: Shape)
    requires Empty(g)
    ensures Nodes(g) == {}
  {
  }

  /** Nothing is left unfinished once the last feature, sub-feature and table are closed. */
  ghost method CloseAll(c: Cursors, g: Shape, spec: S.State, live: set<object>)
    requires Valid(c, g, spec, live) && g.features != []
    modifies ThatSub(c.sub)`vtables, ThatFeature(c.feature)`vsubs
    ensures AllClosed(c.head, g, S.Tree(spec)) && MemoryOk(g, live) && FlagsClear(g.cmds)
  {
    hide Lists, MemoryOk, FlagsClear, SubCursorOk, TableCursorOk, Closed, Finished, S.CloseSub;
    CurrentSub(c, g, spec);
    FinishSub(c, g, spec);
    assert forall f :: f in g.features ==> f in g.fset by { FeatureSet(g, live); }
  }

  lemma FeatureSet(g: Shape, live: set<object>)
    requires MemoryOk(g, live)
    ensures forall f :: f in g.features ==> f in g.fset
  {
  }

  ghost function NoShape(lost: set<object>): (g: Shape)
    ensures Empty(g)
  {
    Shape([], {}, {}, {}, {}, {}, lost, |lost|)
  }

  /** What a parse leaves behind, in terms of the final state of the fold. */
  ghost predicate Outcome(head: Feature?, g: Shape, spec: S.State, live: set<object>, base: nat)
    reads g.features, g.fset, g.subs, g.tables, g.cols, g.cmds
  {
    && Lists(head, g) && MemoryOk(g, live) && FlagsClear(g.cmds)
    && AllClosed(head, g, S.Tree(spec))
    && (head == null ==> Empty(g))
    && |g.lost| == base + S.OrphanSize(S.Orphan(spec))
  }

  /** A stream without any feature: what it built, if anything, stays allocated. */
  lemma NothingBuilt(c: Cursors, g: Shape, spec: S.State, live: set<object>)
    requires Valid(c, g, spec, live) && g.features == []
    ensures c.head == null && Outcome(null, NoShape(live), spec, live, g.base)
  {
    OrphanCount(c, c.head, g, live);
    NoTree(NoShape(live), live);
  }

  lemma AfterFailure(c: Cursors, g: Shape, spec: S.State, before: set<object>, live: set<object>)
    requires Doomed(c, g, spec, before) && S.Tree(spec) == [] && S.Orphan(spec) == spec.lost
    requires live == if g.features == [] then before else g.lost
    ensures Outcome(null, NoShape(live), spec, live, g.base)
  {
    NoTree(NoShape(live), live);
  }

  /** A failed state holds no tree, and its orphan is already counted as lost. */
  ghost predicate Settled(s: S.State) {
    s.failed ==> S.Tree(s) == [] && S.Orphan(s) == s.lost
  }

  lemma {:induction false} RunSettled(s: S.State, es: seq<S.Event>)
    requires Settled(s)
    ensures Settled(S.Run(s, es))
    decreases |es|
  {
    if es != [] {
      StepSettled(s, es[0]);
      RunSettled(S.Step(s, es[0]), es[1..]);
    }
  }

  lemma StepSettled(s: S.State, e: S.Event)
    requires Settled(s)
    ensures Settled(S.Step(s, e))
  {
    hide S.KeywordOf, S.IsShowTech;
  }

  /** All or nothing: once some event has been rejected, nothing of the tree is returned, whatever follows. */
  lemma {:induction false} AllOrNothing(s: S.State, es: seq<S.Event>, i: nat)
    requires Settled(s) && i <= |es| && S.Run(s, es[..i]).failed
    ensures S.Run(s, es).failed && S.Tree(S.Run(s, es)) == []
    decreases |es|
  {
    hide S.Step, S.Tree;
    if i == 0 {
      FailedStays(s, es);
    } else {
      assert es[..i][0] == es[0] && es[..i][1..] == es[1..][..i - 1];
      StepSettled(s, es[0]);
      AllOrNothing(S.Step(s, es[0]), es[1..], i - 1);
    }
  }

  /** The parse function proper, between the initial teardown and the return of the head. */
  method ParseTree(m: Memory, events: seq<S.Event>, ghost g0: Shape) returns (head: Feature?, ghost g: Shape)
    requires Empty(g0) && m.live == g0.lost && g0.base == |g0.lost|
    modifies m
    ensures Outcome(head, g, S.Run(S.INITIAL, events), m.live, |g0.lost|) && g0.lost <= g.lost
  {
    hide Lists, MemoryOk, FlagsClear, CursorsOk, OrphanOk, Nodes, AllClosed;
    var ok, c;
    ghost var spec;
    ok, c, g, spec := ParseEvents(m, events, g0);
    RunSettled(S.INITIAL, events);
    if !ok {
      LostIsLive(g, m.live);
      ghost var before := m.live;
      FreeFeatureData(m, c.head, g);
      AfterFailure(c, g, spec, before, m.live);
      head, g := null, NoShape(m.live);
    } else {
      HeadIsFirst(c.head, g);
      LostIsLive(g, m.live);
      if c.head == null {
        NothingBuilt(c, g, spec, m.live);
        head, g := null, NoShape(m.live);
      } else {
        CursorsInTree(c, g, spec, m.live);
        OrphanIsLost(c, g, spec, m.live);
        CloseAll(c, g, spec, m.live);
        AllClosedLists(c.head, g, S.Tree(spec));
        head := c.head;
      }
    }
  }

  lemma HeadIsFirst(head: Feature?, g: Shape)
    requires Lists(head, g)
    ensures head == null <==> g.features == []
  {
    hide SubsOk, CmdsOk, TablesOk, ColsOk;
  }

  lemma LostIsLive(g: Shape, live: set<object>)
    requires MemoryOk(g, live)
    ensures g.lost <= live
  {
  }

  lemma OrphanIsLost(c: Cursors, g: Shape, spec: S.State, live: set<object>)
    requires Valid(c, g, spec, live) && g.features != []
    ensures S.Orphan(spec) == spec.lost && |g.lost| == g.base + S.OrphanSize(spec.lost)
  {
    hide Lists, MemoryOk, FlagsClear;
    CurrentSub(c, g, spec);
  }

  lemma AllClosedLists(head: Feature?, g: Shape, tree: seq<S.Feature>)
    requires AllClosed(head, g, tree)
    ensures Lists(head, g)
  {
  }

  /** The configuration the library holds, with the tree its head leads to. */
  class Config {
    var feature_head: Feature?
    const mem: Memory
    ghost var g: Shape
    ghost var tree: seq<S.Feature>

    ghost predicate Valid()
      reads this, mem, g.features, g.fset, g.subs, g.tables, g.cols, g.cmds`command, g.cmds`next, g.cmds`owner
    {
      && AllClosed(feature_head, g, tree) && MemoryOk(g, mem.live)
      && (feature_head == null ==> Empty(g))
    }

    constructor ()
      ensures Valid() && fresh(mem) && feature_head == null && mem.live == {} && g.lost == {}
    {
      feature_head := null;
      mem := new Memory();
      g, tree := Shape([], {}, {}, {}, {}, {}, {}, 0), [];
    }

    /** Frees the whole tree; nodes that were already lost stay lost. */
    method FreeShowTechConfig()
      requires Valid()
      modifies this, mem
      ensures Valid() && feature_head == null && mem.live == old(g.lost) && g.lost == old(g.lost)
    {
      AllClosedLists(feature_head, g, tree);
      HeadIsFirst(feature_head, g);
      if feature_head == null { NothingToFree(g, mem.live); }
      hide Lists, MemoryOk, AllClosed;
      FreeFeatureData(mem, feature_head, g);
      feature_head, g, tree := null, NoShape(g.lost), [];
      NoTree(g, mem.live);
    }

    /** Parses a configuration.  The head leads to exactly the tree of the fold, NULL when that
        tree is empty; and the only memory not in the tree that the parse leaves allocated is
        an orphan sub-feature with its commands. */
    method ParseShowtechConfig(events: seq<S.Event>) returns (head: Feature?)
      requires Valid()
      modifies this, mem
      ensures Valid() && head == feature_head && tree == S.Parse(events)
      ensures FeaturesAt(head, tree) && FlagsClear(g.cmds)
      ensures |g.lost| == |old(g.lost)| + S.OrphanSize(S.Orphan(S.Run(S.INITIAL, events)))
      ensures old(g.lost) <= g.lost && (head == null ==> mem.live == g.lost)
    {
      hide Lists, MemoryOk, FlagsClear, AllClosed;
      FreeShowTechConfig();
      ghost var g0 := NoShape(g.lost);
      feature_head, g := ParseTree(mem, events, g0);
      head, tree := feature_head, S.Parse(events);
      ReadTree(head, g, tree);
      if head == null { NothingToFree(g, mem.live); }
    }

    /** Parses only while no configuration is held. */
    method GetShowtechConfig(events: seq<S.Event>) returns (head: Feature?)
      requires Valid()
      modifies this, mem
      ensures Valid() && head == feature_head && FeaturesAt(head, tree)
      ensures if old(feature_head) != null then
        head == old(feature_head) && g == old(g) && mem.live == old(mem.live) && tree == old(tree)
              else tree == S.Parse(events) && FlagsClear(g.cmds)
    {
      if feature_head == null {
        head := ParseShowtechConfig(events);
      } else {
        head := feature_head;
        ReadTree(head, g, tree);
      }
    }
  }

  lemma NothingToFree(g: Shape, live: set<object>)
    requires MemoryOk(g, live) && Empty(g)
    ensures live == g.lost
  {
  }

  lemma {:induction false} ReadTree(head: Feature?, g: Shape, tree: seq<S.Feature>)
    requires AllClosed(head, g, tree)
    ensures FeaturesAt(head, tree)
  {
    ReadFeatures(head, g, tree, 0);
    assert From(tree, 0) == tree;
    assert head == if g.features == [] then null else g.features[0] by { FeatureChain(head, g.features); }
  }

  lemma NoTree(g: Shape, live: set<object>)
    requires g.features == [] && g.fset == {} && g.subs == {} && g.cmds == {} && g.tables == {} && g.cols == {}
    requires live == g.lost
    ensures Lists(null, g) && MemoryOk(g, live) && AllClosed(null, g, [])
  {
  }
}
