/** The list operations of the show-tech parser: allocate a node, link it after the tail,
    and make it the head of its parent's list when that list was empty. */
module ShowTechLists {
  import opened ShowTechNodes
  import S = ShowTechSpec

  /** A node among the nodes of its level, below the nodes of the level above. */
  datatype Place<N, P> = Place(node: N, parents: set<P>, level: set<N>)

  // ----- columns -----

  lemma ColsBefore(t: OvsTable)
    requires ColsOf(t)
    ensures t.p_colmname == (if t.cols == [] then null else t.cols[0])
    ensures t.cols != [] ==> t.cols[|t.cols| - 1].next == null && t.cols[|t.cols| - 1] !in t.cols[..|t.cols| - 1]
  {
  }

  twostate lemma ColAppended(t: OvsTable, new c: OvsColumn)
    requires old(ColsOf(t)) && t.cols == old(t.cols) + [c] && t.vcols == old(t.vcols) + [c.name] && c.next == null
    requires c !in old(t.cols)
    requires t.p_colmname == if old(t.cols) == [] then c else old(t.p_colmname)
    requires forall k :: k in old(t.cols) ==> k.name == old(k.name)
    requires forall i :: 0 <= i < |old(t.cols)| - 1 ==> old(t.cols)[i].next == old(t.cols[i].next)
    requires old(t.cols) != [] ==> old(t.cols)[|old(t.cols)| - 1].next == c
    ensures ColsOf(t)
  {
  }

  method AppendColumn(t: OvsTable, after: OvsColumn?, c: OvsColumn, ghost tables: set<OvsTable>,
      ghost cols: set<OvsColumn>)
    requires ColsOk(tables, cols) && t in tables
    requires c !in cols && c.owner == t && c.next == null
    requires after == if t.cols == [] then null else t.cols[|t.cols| - 1]
    modifies ({c} + ThatColumn(after))`next, t`cols, t`p_colmname, t`vcols
    ensures ColsOk(tables, cols + {c})
    ensures t.cols == old(t.cols) + [c] && t.vcols == old(t.vcols) + [c.name]
  {
    hide ColsOf;
    assert forall i :: 0 <= i < |t.cols| ==> t.cols[i] in t.cols;
    ColsBefore(t);
    if after != null {
      c.next := after.next;
      after.next := c;
    }
    if t.p_colmname == null {
      t.p_colmname := c;
    }
    t.cols, t.vcols := t.cols + [c], t.vcols + [c.name];
    ColAppended(t, c);
    forall t' | t' in tables ensures ColsOf(t') {
      assert t' != t ==> old(ColsOf(t'));
    }
  }

  /** A table that is still being filled is not part of its sub-feature's value yet. */
  twostate lemma TableTouched(p: Place<OvsTable, SubFeature>)
    requires old(TablesOk(p.parents, p.level)) && p.node in p.level
    requires old(var t := p.node; |t.owner.vtables| < |t.owner.tables| && t.owner.tables[|t.owner.tables| - 1] == t)
    requires forall s :: s in p.parents ==>
      s.tables == old(s.tables) && s.vtables == old(s.vtables) && s.p_ovstable == old(s.p_ovstable)
    requires forall t' :: t' in p.level ==>
      t'.next == old(t'.next) && t'.owner == old(t'.owner) && (t' != p.node ==> t'.Val() == old(t'.Val()))
    ensures TablesOk(p.parents, p.level)
  {
    forall s | s in p.parents ensures TablesOf(s) {
      assert old(TablesOf(s));
      assert forall i :: 0 <= i < |s.tables| ==> s.tables[i] in s.tables;
    }
  }

  // ----- commands -----

  lemma CmdsBefore(s: SubFeature)
    requires CmdsOf(s)
    ensures s.p_clicmds == (if s.cmds == [] then null else s.cmds[0])
    ensures s.cmds != [] ==> s.cmds[|s.cmds| - 1].next == null && s.cmds[|s.cmds| - 1] !in s.cmds[..|s.cmds| - 1]
  {
  }

  twostate lemma CmdAppended(s: SubFeature, new c: CliCmd)
    requires old(CmdsOf(s)) && s.cmds == old(s.cmds) + [c] && s.vcmds == old(s.vcmds) + [c.command] && c.next == null
    requires c !in old(s.cmds)
    requires s.p_clicmds == if old(s.cmds) == [] then c else old(s.p_clicmds)
    requires forall k :: k in old(s.cmds) ==> k.command == old(k.command)
    requires forall i :: 0 <= i < |old(s.cmds)| - 1 ==> old(s.cmds)[i].next == old(s.cmds[i].next)
    requires old(s.cmds) != [] ==> old(s.cmds)[|old(s.cmds)| - 1].next == c
    ensures CmdsOf(s)
  {
  }

  method AppendCmd(s: SubFeature, after: CliCmd?, c: CliCmd, ghost subs: set<SubFeature>, ghost cmds: set<CliCmd>)
    requires CmdsOk(subs, cmds) && s in subs
    requires c !in cmds && c.owner == s && c.next == null
    requires after == if s.cmds == [] then null else s.cmds[|s.cmds| - 1]
    modifies ({c} + ThatCmd(after))`next, s`cmds, s`p_clicmds, s`vcmds
    ensures CmdsOk(subs, cmds + {c})
    ensures s.cmds == old(s.cmds) + [c] && s.vcmds == old(s.vcmds) + [c.command]
  {
    hide CmdsOf;
    assert forall i :: 0 <= i < |s.cmds| ==> s.cmds[i] in s.cmds;
    CmdsBefore(s);
    if after != null {
      c.next := after.next;
      after.next := c;
    }
    if s.p_clicmds == null {
      s.p_clicmds := c;
    }
    s.cmds, s.vcmds := s.cmds + [c], s.vcmds + [c.command];
    CmdAppended(s, c);
    forall s' | s' in subs ensures CmdsOf(s') {
      assert s' != s ==> old(CmdsOf(s'));
    }
  }

  // ----- tables -----

  lemma TablesBefore(s: SubFeature)
    requires TablesOf(s)
    ensures s.p_ovstable == (if s.tables == [] then null else s.tables[0])
    ensures s.tables != [] ==>
      s.tables[|s.tables| - 1].next == null && s.tables[|s.tables| - 1] !in s.tables[..|s.tables| - 1]
  {
  }

  twostate lemma TableAppended(s: SubFeature, new t: OvsTable)
    requires old(TablesOf(s)) && s.tables == old(s.tables) + [t] && s.vtables == old(s.vtables) && t.next == null
    requires |s.vtables| == |old(s.tables)| && t !in old(s.tables)
    requires s.p_ovstable == if old(s.tables) == [] then t else old(s.p_ovstable)
    requires forall k :: k in old(s.tables) ==> k.Val() == old(k.Val())
    requires forall i :: 0 <= i < |old(s.tables)| - 1 ==> old(s.tables)[i].next == old(s.tables[i].next)
    requires old(s.tables) != [] ==> old(s.tables)[|old(s.tables)| - 1].next == t
    ensures TablesOf(s)
  {
  }

  method AppendTable(s: SubFeature, after: OvsTable?, t: OvsTable, ghost subs: set<SubFeature>,
      ghost tables: set<OvsTable>)
    requires t !in tables && t.owner == s && t.next == null
    requires TablesOk(subs, tables) && s in subs && |s.vtables| == |s.tables|
    requires after == if s.tables == [] then null else s.tables[|s.tables| - 1]
    modifies ({t} + ThatTable(after))`next, s`tables, s`p_ovstable
    ensures TablesOk(subs, tables + {t})
    ensures s.tables == old(s.tables) + [t]
  {
    hide TablesOf;
    assert forall i :: 0 <= i < |s.tables| ==> s.tables[i] in s.tables;
    TablesBefore(s);
    if after != null {
      t.next := after.next;
      after.next := t;
    }
    if s.p_ovstable == null {
      s.p_ovstable := t;
    }
    s.tables := s.tables + [t];
    TableAppended(s, t);
    forall s' | s' in subs ensures TablesOf(s') {
      assert s' != s ==> old(TablesOf(s'));
    }
  }

  // ----- sub-features -----

  lemma SubsBefore(f: Feature)
    requires SubsOf(f)
    ensures f.p_subfeature == (if f.subs == [] then null else f.subs[0])
    ensures f.subs != [] ==> f.subs[|f.subs| - 1].next == null && f.subs[|f.subs| - 1] !in f.subs[..|f.subs| - 1]
  {
  }

  twostate lemma SubAppended(f: Feature, new s: SubFeature)
    requires old(SubsOf(f)) && f.subs == old(f.subs) + [s] && f.vsubs == old(f.vsubs) && s.next == null
    requires |f.vsubs| == |old(f.subs)| && s !in old(f.subs)
    requires f.p_subfeature == if old(f.subs) == [] then s else old(f.p_subfeature)
    requires forall k :: k in old(f.subs) ==> k.Val() == old(k.Val())
    requires forall i :: 0 <= i < |old(f.subs)| - 1 ==> old(f.subs)[i].next == old(f.subs[i].next)
    requires old(f.subs) != [] ==> old(f.subs)[|old(f.subs)| - 1].next == s
    ensures SubsOf(f)
  {
  }

  method AppendSub(f: Feature, after: SubFeature?, s: SubFeature, ghost features: set<Feature>,
      ghost subs: set<SubFeature>)
    requires s !in subs && s.owner == f && s.next == null
    requires SubsOk(features, subs) && f in features && |f.vsubs| == |f.subs|
    requires after == if f.subs == [] then null else f.subs[|f.subs| - 1]
    modifies ({s} + ThatSub(after))`next, f`subs, f`p_subfeature
    ensures SubsOk(features, subs + {s})
    ensures f.subs == old(f.subs) + [s]
  {
    hide SubsOf;
    assert forall i :: 0 <= i < |f.subs| ==> f.subs[i] in f.subs;
    SubsBefore(f);
    if after != null {
      s.next := after.next;
      after.next := s;
    }
    if f.p_subfeature == null {
      f.p_subfeature := s;
    }
    f.subs := f.subs + [s];
    SubAppended(f, s);
    SubsExtended(Place(f, subs, features), s);
  }

  /** The other features keep their lists, and the new node belongs to its feature. */
  twostate lemma SubsExtended(p: Place<Feature, SubFeature>, new s: SubFeature)
    requires old(SubsOk(p.level, p.parents)) && p.node in p.level && s !in p.parents && s.owner == p.node
    requires p.node.subs == old(p.node.subs) + [s] && SubsOf(p.node)
    requires forall f :: f in p.level && f != p.node ==>
      f.subs == old(f.subs) && f.vsubs == old(f.vsubs) && f.p_subfeature == old(f.p_subfeature)
    requires forall x :: x in p.parents ==> x.owner == old(x.owner) && x.Val() == old(x.Val())
    requires forall x :: x in p.parents && x.owner != p.node ==> x.next == old(x.next)
    ensures SubsOk(p.level, p.parents + {s})
  {
    forall f | f in p.level ensures SubsOf(f) {
      if f != p.node {
        assert old(SubsOf(f));
        assert forall i :: 0 <= i < |f.subs| ==> f.subs[i] in f.subs;
      }
    }
  }

  /** A sub-feature that is still being filled is not part of its feature's value yet. */
  twostate lemma SubTouched(p: Place<SubFeature, Feature>)
    requires old(SubsOk(p.parents, p.level)) && p.node in p.level
    requires old(var s := p.node; s.owner != null ==>
      |s.owner.vsubs| < |s.owner.subs| && s.owner.subs[|s.owner.subs| - 1] == s)
    requires forall f :: f in p.parents ==>
      f.subs == old(f.subs) && f.vsubs == old(f.vsubs) && f.p_subfeature == old(f.p_subfeature)
    requires forall s' :: s' in p.level ==>
      s'.next == old(s'.next) && s'.owner == old(s'.owner) && (s' != p.node ==> s'.Val() == old(s'.Val()))
    ensures SubsOk(p.parents, p.level)
  {
    forall f | f in p.parents ensures SubsOf(f) {
      assert old(SubsOf(f));
      assert forall i :: 0 <= i < |f.subs| ==> f.subs[i] in f.subs;
    }
  }

  /** A fresh table owns nothing yet. */
  lemma EmptyTableFits(t: OvsTable, tables: set<OvsTable>, cols: set<OvsColumn>)
    requires ColsOk(tables, cols) && t.cols == [] && t.vcols == [] && t.p_colmname == null
    ensures ColsOk(tables + {t}, cols)
  {
  }

  /** A fresh sub-feature owns nothing yet. */
  lemma EmptySubFits(s: SubFeature, subs: set<SubFeature>, cmds: set<CliCmd>, tables: set<OvsTable>)
    requires CmdsOk(subs, cmds) && TablesOk(subs, tables)
    requires s.cmds == [] && s.vcmds == [] && s.tables == [] && s.vtables == []
    requires s.p_clicmds == null && s.p_ovstable == null
    ensures CmdsOk(subs + {s}, cmds) && TablesOk(subs + {s}, tables)
  {
    hide CmdsOf, TablesOf;
    assert CmdsOf(s) && TablesOf(s) by { EmptySubLists(s); }
  }

  lemma EmptySubLists(s: SubFeature)
    requires s.cmds == [] && s.vcmds == [] && s.tables == [] && s.vtables == []
    requires s.p_clicmds == null && s.p_ovstable == null
    ensures CmdsOf(s) && TablesOf(s)
  {
  }

  // ----- features -----

  method AppendFeature(after: Feature?, head: Feature?, f: Feature, ghost features: seq<Feature>)
    returns (newHead: Feature)
    requires f !in features && f.next == null
    requires FeaturesOf(head, features)
    requires after == if features == [] then null else features[|features| - 1]
    modifies ({f} + ThatFeature(after))`next
    ensures FeaturesOf(newHead, features + [f])
  {
    if after != null {
      f.next := after.next;
      after.next := f;
    }
    newHead := if head == null then f else head;
  }

  // ----- finishing a node: its value becomes part of its parent's -----

  ghost method CloseTable(s: SubFeature, t: OvsTable, subs: set<SubFeature>, tables: set<OvsTable>)
    requires TablesOk(subs, tables) && s in subs
    requires |s.vtables| < |s.tables| && s.tables[|s.tables| - 1] == t
    modifies s`vtables
    ensures TablesOk(subs, tables) && s.vtables == old(s.vtables) + [t.Val()]
  {
    assert TablesOf(s);
    s.vtables := s.vtables + [t.Val()];
    forall s' | s' in subs ensures TablesOf(s') {
      assert old(TablesOf(s'));
    }
  }

  ghost method CloseSub(f: Feature, s: SubFeature, features: set<Feature>, subs: set<SubFeature>)
    requires SubsOk(features, subs) && f in features
    requires |f.vsubs| < |f.subs| && f.subs[|f.subs| - 1] == s
    modifies f`vsubs
    ensures SubsOk(features, subs) && f.vsubs == old(f.vsubs) + [s.Val()]
  {
    assert SubsOf(f);
    f.vsubs := f.vsubs + [s.Val()];
    forall f' | f' in features ensures SubsOf(f') {
      assert old(SubsOf(f'));
    }
  }
}
