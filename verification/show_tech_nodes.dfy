/** The heap nodes of the show-tech configuration and what makes them nested linked lists.

    The ghost fields of a node name its owner and list its children in order, together with
    the values of the children that are finished.  Ownership makes the lists disjoint. */
module ShowTechNodes {
  import opened Options
  import opened Sequences
  import S = ShowTechSpec

  /** What calloc has handed out and free has not taken back. */
  class Memory {
    ghost var live: set<object>

    constructor ()
      ensures live == {}
    {
      live := {};
    }

    /** Frees a node; freeing anything twice, or anything not allocated, is an error. */
    method Free(o: object)
      requires o in live
      modifies this
      ensures live == old(live) - {o}
    {
      live := live - {o};
    }
  }

  class OvsColumn {
    var name: string
    var next: OvsColumn?
    ghost var owner: OvsTable

    constructor (mem: Memory, name: string, ghost owner: OvsTable)
      modifies mem
      ensures mem.live == old(mem.live) + {this}
      ensures this.name == name && next == null && this.owner == owner
    {
      this.name, next, this.owner := name, null, owner;
      new;
      mem.live := mem.live + {this};
    }
  }

  class OvsTable {
    var tablename: Option<string>
    var p_colmname: OvsColumn?
    var next: OvsTable?
    ghost var owner: SubFeature
    ghost var cols: seq<OvsColumn>
    ghost var vcols: seq<string>

    ghost function Val(): S.Table
      reads this`tablename, this`vcols
    {
      S.Table(tablename, vcols)
    }

    constructor (mem: Memory, ghost owner: SubFeature)
      modifies mem
      ensures mem.live == old(mem.live) + {this}
      ensures tablename == None && p_colmname == null && next == null
      ensures this.owner == owner && cols == [] && vcols == []
    {
      tablename, p_colmname, next := None, null, null;
      this.owner, cols, vcols := owner, [], [];
      new;
      mem.live := mem.live + {this};
    }
  }

  class CliCmd {
    var command: string
    var command_failed: bool
    var next: CliCmd?
    ghost var owner: SubFeature

    constructor (mem: Memory, command: string, ghost owner: SubFeature)
      modifies mem
      ensures mem.live == old(mem.live) + {this}
      ensures this.command == command && !command_failed && next == null && this.owner == owner
    {
      this.command, command_failed, next, this.owner := command, false, null, owner;
      new;
      mem.live := mem.live + {this};
    }
  }

  class SubFeature {
    var name: Option<string>
    var desc: Option<string>
    var no_sta_support: bool
    var support_stb: bool
    var is_dummy: bool
    var p_clicmds: CliCmd?
    var p_ovstable: OvsTable?
    var next: SubFeature?
    ghost var owner: Feature?
    ghost var cmds: seq<CliCmd>
    ghost var vcmds: seq<string>
    ghost var tables: seq<OvsTable>
    ghost var vtables: seq<S.Table>

    /** The value, without its last table while that one is being filled. */
    ghost function Val(): S.SubFeature
      reads `name, `desc, `no_sta_support, `support_stb, `is_dummy, `vcmds, `vtables
    {
      S.SubFeature(name, desc, no_sta_support, support_stb, is_dummy, vcmds, vtables)
    }

    constructor (mem: Memory, ghost owner: Feature?, dummy: bool)
      modifies mem
      ensures mem.live == old(mem.live) + {this}
      ensures name == None && desc == None && !no_sta_support && !support_stb && is_dummy == dummy
      ensures p_clicmds == null && p_ovstable == null && next == null
      ensures this.owner == owner && cmds == [] && vcmds == [] && tables == [] && vtables == []
    {
      name, desc, no_sta_support, support_stb, is_dummy := None, None, false, false, dummy;
      p_clicmds, p_ovstable, next := null, null, null;
      this.owner, cmds, vcmds, tables, vtables := owner, [], [], [], [];
      new;
      mem.live := mem.live + {this};
    }
  }

  class Feature {
    var name: Option<string>
    var desc: Option<string>
    var p_subfeature: SubFeature?
    var next: Feature?
    ghost var subs: seq<SubFeature>
    ghost var vsubs: seq<S.SubFeature>

    /** The value, without its last sub-feature while that one is being filled. */
    ghost function Val(): S.Feature
      reads this`name, this`desc, this`vsubs
    {
      S.Feature(name, desc, vsubs)
    }

    constructor (mem: Memory)
      modifies mem
      ensures mem.live == old(mem.live) + {this}
      ensures name == None && desc == None && p_subfeature == null && next == null
      ensures subs == [] && vsubs == []
    {
      name, desc, p_subfeature, next := None, None, null, null;
      subs, vsubs := [], [];
      new;
      mem.live := mem.live + {this};
    }
  }

  // ----- what a link may change -----

  ghost function ThatColumn(c: OvsColumn?): set<OvsColumn> { if c == null then {} else {c} }
  ghost function ThatCmd(c: CliCmd?): set<CliCmd> { if c == null then {} else {c} }
  ghost function ThatTable(t: OvsTable?): set<OvsTable> { if t == null then {} else {t} }
  ghost function ThatSub(s: SubFeature?): set<SubFeature> { if s == null then {} else {s} }
  ghost function ThatFeature(f: Feature?): set<Feature> { if f == null then {} else {f} }

  // ----- one list: the head pointer, the links, and the values of the finished children -----

  ghost predicate ColsOf(t: OvsTable)
    reads t`cols, t`vcols, t`p_colmname, t.cols`name, t.cols`next
  {
    && t.p_colmname == (if t.cols == [] then null else t.cols[0])
    && Distinct(t.cols) && |t.vcols| == |t.cols|
    && (forall i :: 0 <= i < |t.cols| ==> t.vcols[i] == t.cols[i].name)
    && (forall i {:trigger t.cols[i].next} :: 0 <= i < |t.cols| ==>
      t.cols[i].next == (if i + 1 < |t.cols| then t.cols[i + 1] else null))
  }

  ghost predicate CmdsOf(s: SubFeature)
    reads s`cmds, s`vcmds, s`p_clicmds, s.cmds`command, s.cmds`next
  {
    && s.p_clicmds == (if s.cmds == [] then null else s.cmds[0])
    && Distinct(s.cmds) && |s.vcmds| == |s.cmds|
    && (forall i :: 0 <= i < |s.cmds| ==> s.vcmds[i] == s.cmds[i].command)
    && (forall i {:trigger s.cmds[i].next} :: 0 <= i < |s.cmds| ==>
      s.cmds[i].next == (if i + 1 < |s.cmds| then s.cmds[i + 1] else null))
  }

  ghost predicate TablesOf(s: SubFeature)
    reads s`tables, s`vtables, s`p_ovstable
    reads s.tables`tablename, s.tables`vcols, s.tables`next
  {
    && s.p_ovstable == (if s.tables == [] then null else s.tables[0])
    && Distinct(s.tables) && |s.vtables| <= |s.tables| <= |s.vtables| + 1
    && (forall i :: 0 <= i < |s.vtables| ==> s.vtables[i] == s.tables[i].Val())
    && (forall i {:trigger s.tables[i].next} :: 0 <= i < |s.tables| ==>
      s.tables[i].next == (if i + 1 < |s.tables| then s.tables[i + 1] else null))
  }

  ghost predicate SubsOf(f: Feature)
    reads f`subs, f`vsubs, f`p_subfeature, f.subs`next
    reads f.subs`name, f.subs`desc, f.subs`no_sta_support, f.subs`support_stb, f.subs`is_dummy, f.subs`vcmds,
      f.subs`vtables
  {
    && f.p_subfeature == (if f.subs == [] then null else f.subs[0])
    && Distinct(f.subs) && |f.vsubs| <= |f.subs| <= |f.vsubs| + 1
    && (forall i :: 0 <= i < |f.vsubs| ==> f.vsubs[i] == f.subs[i].Val())
    && (forall i {:trigger f.subs[i].next} :: 0 <= i < |f.subs| ==>
      f.subs[i].next == (if i + 1 < |f.subs| then f.subs[i + 1] else null))
  }

  ghost predicate FeaturesOf(head: Feature?, features: seq<Feature>)
    reads features`next
  {
    && head == (if features == [] then null else features[0])
    && Distinct(features)
    && (forall i {:trigger features[i].next} :: 0 <= i < |features| ==>
      features[i].next == (if i + 1 < |features| then features[i + 1] else null))
  }

  // ----- a level of the tree: every list of one kind, with its nodes owned by their parents -----

  ghost predicate ColsOk(tables: set<OvsTable>, cols: set<OvsColumn>)
    reads tables`cols, tables`vcols, tables`p_colmname, cols`name, cols`next, cols`owner
  {
    && (forall t :: t in tables ==> forall c :: c in t.cols ==> c in cols && c.owner == t)
    && (forall c :: c in cols ==> c.owner in tables && c in c.owner.cols)
    && (forall t :: t in tables ==> ColsOf(t))
  }

  ghost predicate CmdsOk(subs: set<SubFeature>, cmds: set<CliCmd>)
    reads subs`cmds, subs`vcmds, subs`p_clicmds, cmds`command, cmds`next, cmds`owner
  {
    && (forall s :: s in subs ==> forall c :: c in s.cmds ==> c in cmds && c.owner == s)
    && (forall c :: c in cmds ==> c.owner in subs && c in c.owner.cmds)
    && (forall s :: s in subs ==> CmdsOf(s))
  }

  ghost predicate TablesOk(subs: set<SubFeature>, tables: set<OvsTable>)
    reads subs`tables, subs`vtables, subs`p_ovstable
    reads tables`tablename, tables`vcols, tables`next, tables`owner
  {
    && (forall s :: s in subs ==> forall t :: t in s.tables ==> t in tables && t.owner == s)
    && (forall t :: t in tables ==> t.owner in subs && t in t.owner.tables)
    && (forall s :: s in subs ==> TablesOf(s))
  }

  ghost predicate SubsOk(features: set<Feature>, subs: set<SubFeature>)
    reads features`subs, features`vsubs, features`p_subfeature, subs`owner, subs`next
    reads subs`name, subs`desc, subs`no_sta_support, subs`support_stb, subs`is_dummy, subs`vcmds, subs`vtables
  {
    && (forall f :: f in features ==> forall s :: s in f.subs ==> s in subs && s.owner == f)
    && (forall s :: s in subs ==> s.owner != null ==> s.owner in features && s in s.owner.subs)
    && (forall f :: f in features ==> SubsOf(f))
  }
}
