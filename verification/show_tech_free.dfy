/** Tearing the show-tech configuration down: the nested walk that frees every node of the
    tree once, reading each link before its node goes away. */
module ShowTechFree {
  import opened Sequences
  import opened ShowTechNodes
  import opened ShowTechParser

  // ----- everything below a set of nodes -----

  ghost function BelowTables(g: Shape, ts: set<OvsTable>): set<object>
    reads g.cols`owner
  {
    var roots, cols: set<object> := ts, set k | k in g.cols && k.owner in ts;
    roots + cols
  }

  ghost function TablesOfSubs(g: Shape, ss: set<SubFeature>): set<OvsTable>
    reads g.tables`owner
  {
    set t | t in g.tables && t.owner in ss
  }

  ghost function CmdsOfSubs(g: Shape, ss: set<SubFeature>): set<object>
    reads g.cmds`owner
  {
    set c | c in g.cmds && c.owner in ss
  }

  ghost function BelowSubs(g: Shape, ss: set<SubFeature>): set<object>
    reads g.cmds`owner, g.tables`owner, g.cols`owner
  {
    var roots: set<object> := ss;
    roots + CmdsOfSubs(g, ss) + BelowTables(g, TablesOfSubs(g, ss))
  }

  ghost function SubsOfFeatures(g: Shape, fs: set<Feature>): set<SubFeature>
    reads g.subs`owner
  {
    set s | s in g.subs && s.owner != null && s.owner in fs
  }

  ghost function BelowFeatures(g: Shape, fs: set<Feature>): set<object>
    reads g.subs`owner, g.cmds`owner, g.tables`owner, g.cols`owner
  {
    var roots: set<object> := fs;
    roots + BelowSubs(g, SubsOfFeatures(g, fs))
  }

  /** The elements from i on, without the first of them, are those from i + 1 on. */
  lemma ElementsFrom<T>(s: seq<T>, i: nat)
    requires Distinct(s) && i < |s|
    ensures s[i] in Elements(s[i..]) && Elements(s[i..]) - {s[i]} == Elements(s[i + 1..])
  {
    assert s[i..] == [s[i]] + s[i + 1..];
  }

  lemma ElementsEnds<T>(s: seq<T>)
    ensures Elements(s[0..]) == Elements(s) && Elements(s[|s|..]) == {}
  {
    assert s[0..] == s;
  }

  // ----- one list of leaves -----

  ghost function Objects(s: seq<object>): set<object> {
    set o | o in s
  }

  method FreeColumns(mem: Memory, t: OvsTable, ghost g: Shape)
    requires ColsOk(g.tables, g.cols) && t in g.tables && Objects(t.cols) <= mem.live
    modifies mem
    ensures mem.live == old(mem.live) - Objects(t.cols)
  {
    assert ColsOf(t);
    var iter := t.p_colmname;
    ghost var i, rest := 0, mem.live - Objects(t.cols);
    while iter != null
      invariant i <= |t.cols| && iter == if i < |t.cols| then t.cols[i] else null
      invariant mem.live == rest + Objects(t.cols[i..])
      decreases |t.cols| - i
    {
      assert t.cols[i..] == [t.cols[i]] + t.cols[i + 1..];
      var temp := iter;
      iter := iter.next;
      mem.Free(temp);
      i := i + 1;
    }
    assert t.cols[i..] == [];
  }

  method FreeCommands(mem: Memory, s: SubFeature, ghost g: Shape)
    requires CmdsOk(g.subs, g.cmds) && s in g.subs && CmdsOfSubs(g, {s}) <= mem.live
    modifies mem
    ensures mem.live == old(mem.live) - CmdsOfSubs(g, {s})
  {
    assert CmdsOf(s);
    assert CmdsOfSubs(g, {s}) == Objects(s.cmds);
    var iter := s.p_clicmds;
    ghost var i, rest := 0, mem.live - Objects(s.cmds);
    while iter != null
      invariant i <= |s.cmds| && iter == if i < |s.cmds| then s.cmds[i] else null
      invariant mem.live == rest + Objects(s.cmds[i..])
      decreases |s.cmds| - i
    {
      assert s.cmds[i..] == [s.cmds[i]] + s.cmds[i + 1..];
      var temp := iter;
      iter := iter.next;
      mem.Free(temp);
      i := i + 1;
    }
    assert s.cmds[i..] == [];
  }

  // ----- tables, each with its columns -----

  /** Freeing one root and what hangs below it leaves the other roots whole. */
  lemma SplitTables(g: Shape, ts: set<OvsTable>, t: OvsTable)
    requires ColsOk(g.tables, g.cols) && t in ts && t in g.tables
    ensures var one: set<object> := {t};
      BelowTables(g, ts) == one + Objects(t.cols) + BelowTables(g, ts - {t})
      && t !in Objects(t.cols)
      && one + Objects(t.cols) !! BelowTables(g, ts - {t})
  {
  }

  lemma TableChain(s: SubFeature)
    requires TablesOf(s)
    ensures s.p_ovstable == (if s.tables == [] then null else s.tables[0]) && Distinct(s.tables)
    ensures forall i {:trigger s.tables[i].next} :: 0 <= i < |s.tables| ==>
      s.tables[i].next == if i + 1 < |s.tables| then s.tables[i + 1] else null
  {
  }

  method FreeTables(mem: Memory, s: SubFeature, ghost g: Shape)
    requires TablesOk(g.subs, g.tables) && ColsOk(g.tables, g.cols) && s in g.subs
    requires BelowTables(g, TablesOfSubs(g, {s})) <= mem.live
    modifies mem
    ensures mem.live == old(mem.live) - BelowTables(g, TablesOfSubs(g, {s}))
  {
    hide ColsOk, BelowTables, TablesOf, Elements, Distinct;
    ghost var i, todo := 0, TablesOfSubs(g, {s});
    ghost var rest := mem.live - BelowTables(g, todo);
    TableChain(s);
    ElementsEnds(s.tables);
    assert todo == Elements(s.tables) by { TablesAreElements(s, g); }
    var iter := s.p_ovstable;
    while iter != null
      invariant i <= |s.tables| && iter == if i < |s.tables| then s.tables[i] else null
      invariant todo == Elements(s.tables[i..])
      invariant mem.live == rest + BelowTables(g, todo) && rest !! BelowTables(g, todo)
      decreases |s.tables| - i
    {
      ElementsFrom(s.tables, i);
      SplitTables(g, todo, iter);
      FreeColumns(mem, iter, g);
      var temp := iter;
      iter := iter.next;
      mem.Free(temp);
      i, todo := i + 1, todo - {temp};
    }
    assert BelowTables(g, {}) == {} by { NothingBelow(g); }
  }

  lemma TablesAreElements(s: SubFeature, g: Shape)
    requires TablesOk(g.subs, g.tables) && s in g.subs
    ensures TablesOfSubs(g, {s}) == Elements(s.tables)
  {
  }

  lemma NothingBelow(g: Shape)
    ensures BelowTables(g, {}) == {} && BelowSubs(g, {}) == {} && BelowFeatures(g, {}) == {}
  {
    assert TablesOfSubs(g, {}) == {} && SubsOfFeatures(g, {}) == {};
  }

  // ----- sub-features, each with its commands and tables -----

  lemma SplitSubs(g: Shape, ss: set<SubFeature>, s: SubFeature)
    requires CmdsOk(g.subs, g.cmds) && TablesOk(g.subs, g.tables) && s in ss && s in g.subs
    ensures var one: set<object> := {s};
      var own := CmdsOfSubs(g, {s}) + BelowTables(g, TablesOfSubs(g, {s}));
      && BelowSubs(g, ss) == one + own + BelowSubs(g, ss - {s})
      && CmdsOfSubs(g, {s}) !! BelowTables(g, TablesOfSubs(g, {s})) && s !in own
      && one + own !! BelowSubs(g, ss - {s})
  {
  }

  lemma SubChain(f: Feature)
    requires SubsOf(f)
    ensures f.p_subfeature == (if f.subs == [] then null else f.subs[0]) && Distinct(f.subs)
    ensures forall i {:trigger f.subs[i].next} :: 0 <= i < |f.subs| ==>
      f.subs[i].next == if i + 1 < |f.subs| then f.subs[i + 1] else null
  {
  }

  method FreeSubs(mem: Memory, f: Feature, ghost g: Shape)
    requires SubsOk(g.fset, g.subs) && CmdsOk(g.subs, g.cmds) && TablesOk(g.subs, g.tables) && ColsOk(g.tables, g.cols)
    requires f in g.fset && BelowSubs(g, SubsOfFeatures(g, {f})) <= mem.live
    modifies mem
    ensures mem.live == old(mem.live) - BelowSubs(g, SubsOfFeatures(g, {f}))
  {
    hide CmdsOk, TablesOk, ColsOk, SubsOf, BelowSubs, CmdsOfSubs, BelowTables, TablesOfSubs, Elements, Distinct;
    ghost var i, todo := 0, SubsOfFeatures(g, {f});
    ghost var rest := mem.live - BelowSubs(g, todo);
    SubChain(f);
    ElementsEnds(f.subs);
    assert todo == Elements(f.subs) by { SubsAreElements(f, g); }
    var iter := f.p_subfeature;
    while iter != null
      invariant i <= |f.subs| && iter == if i < |f.subs| then f.subs[i] else null
      invariant todo == Elements(f.subs[i..])
      invariant mem.live == rest + BelowSubs(g, todo) && rest !! BelowSubs(g, todo)
      decreases |f.subs| - i
    {
      ElementsFrom(f.subs, i);
      SplitSubs(g, todo, iter);
      FreeCommands(mem, iter, g);
      FreeTables(mem, iter, g);
      var temp := iter;
      iter := iter.next;
      mem.Free(temp);
      i, todo := i + 1, todo - {temp};
    }
    assert BelowSubs(g, {}) == {} by { NothingBelow(g); }
  }

  lemma SubsAreElements(f: Feature, g: Shape)
    requires SubsOk(g.fset, g.subs) && f in g.fset
    ensures SubsOfFeatures(g, {f}) == Elements(f.subs)
  {
  }

  // ----- the whole tree -----

  lemma BelowApart(g: Shape, a: set<SubFeature>, b: set<SubFeature>)
    requires a !! b
    ensures BelowSubs(g, a + b) == BelowSubs(g, a) + BelowSubs(g, b)
    ensures BelowSubs(g, a) !! BelowSubs(g, b)
  {
  }

  lemma SplitFeatures(g: Shape, fs: set<Feature>, f: Feature)
    requires f in fs
    ensures var one: set<object> := {f};
      var own := BelowSubs(g, SubsOfFeatures(g, {f}));
      && BelowFeatures(g, fs) == one + own + BelowFeatures(g, fs - {f})
      && f !in own && one + own !! BelowFeatures(g, fs - {f})
  {
    var a, b := SubsOfFeatures(g, {f}), SubsOfFeatures(g, fs - {f});
    assert SubsOfFeatures(g, fs) == a + b;
    BelowApart(g, a, b);
    NoFeatureBelow(g, a);
    NoFeatureBelow(g, b);
    hide BelowSubs, SubsOfFeatures;
  }

  lemma NoFeatureBelow(g: Shape, ss: set<SubFeature>)
    ensures forall o :: o in BelowSubs(g, ss) ==> !(o is Feature)
  {
  }

  lemma FeatureChain(head: Feature?, fs: seq<Feature>)
    requires FeaturesOf(head, fs)
    ensures head == (if fs == [] then null else fs[0]) && Distinct(fs)
    ensures forall i {:trigger fs[i].next} :: 0 <= i < |fs| ==>
      fs[i].next == if i + 1 < |fs| then fs[i + 1] else null
  {
  }

  /** Once there is a feature, everything in the tree is below one. */
  lemma AllBelow(head: Feature?, g: Shape, live: set<object>)
    requires Lists(head, g) && MemoryOk(g, live) && g.features != []
    ensures BelowFeatures(g, g.fset) == Nodes(g) && g.fset == Elements(g.features)
  {
    hide FeaturesOf, SubsOf, CmdsOf, TablesOf, ColsOf;
    assert SubsOfFeatures(g, g.fset) == g.subs;
    assert TablesOfSubs(g, g.subs) == g.tables;
    assert CmdsOfSubs(g, g.subs) == (set c: object | c in g.cmds);
  }

  /** Frees what the head leads to.  Without a feature that is nothing: an orphan
      sub-feature stays behind. */
  method FreeFeatureData(mem: Memory, head: Feature?, ghost g: Shape)
    requires Lists(head, g) && MemoryOk(g, mem.live)
    modifies mem
    ensures mem.live == if g.features == [] then old(mem.live) else g.lost
  {
    hide CmdsOk, TablesOk, ColsOk, SubsOk, FeaturesOf, BelowSubs, BelowFeatures, SubsOfFeatures, Elements, Distinct;
    ghost var i, todo: set<Feature> := 0, Elements<Feature>(g.features);
    FeatureChain(head, g.features);
    ElementsEnds(g.features);
    if g.features != [] { AllBelow(head, g, mem.live); }
    ghost var rest := if g.features == [] then mem.live else g.lost;
    NothingBelow(g);
    var iter := head;
    while iter != null
      invariant i <= |g.features| && iter == if i < |g.features| then g.features[i] else null
      invariant todo == Elements(g.features[i..])
      invariant mem.live == rest + BelowFeatures(g, todo) && rest !! BelowFeatures(g, todo)
      decreases |g.features| - i
    {
      ElementsFrom(g.features, i);
      assert iter in g.features;
      SplitFeatures(g, todo, iter);
      FreeSubs(mem, iter, g);
      var temp := iter;
      iter := iter.next;
      mem.Free(temp);
      i, todo := i + 1, todo - {temp};
    }
  }
}
