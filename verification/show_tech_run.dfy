/** The `show tech` command on the heap: the nested walks that run the commands of the
    configuration, flag the failed ones and finally report and clear them, proved against
    ShowTechAccounting. */
module ShowTechRun {
  import opened Options
  import opened Sequences
  import opened ShowTechNodes
  import opened ShowTechParser
  import opened ShowTechFree
  import opened ShowTechConfig
  import opened ShowTechAccounting
  import S = ShowTechSpec

  // ----- the commands of the heap tree, in tree order -----

  ghost function AllSubs(fs: seq<Feature>): seq<SubFeature>
    reads fs`subs
  {
    if fs == [] then [] else fs[0].subs + AllSubs(fs[1..])
  }

  ghost function CmdSeq(ss: seq<SubFeature>): seq<CliCmd>
    reads ss`cmds
  {
    if ss == [] then [] else ss[0].cmds + CmdSeq(ss[1..])
  }

  ghost function Flags(cmds: seq<CliCmd>): (r: seq<bool>)
    reads cmds`command_failed
    ensures |r| == |cmds| && forall i :: 0 <= i < |r| ==> r[i] == cmds[i].command_failed
  {
    if cmds == [] then [] else [cmds[0].command_failed] + Flags(cmds[1..])
  }

  lemma {:induction false} AllSubsAppend(a: seq<Feature>, b: seq<Feature>)
    ensures AllSubs(a + b) == AllSubs(a) + AllSubs(b)
    decreases |a|
  {
    if a == [] {
      assert a + b == b;
    } else {
      assert (a + b)[1..] == a[1..] + b;
      AllSubsAppend(a[1..], b);
    }
  }

  lemma {:induction false} CmdSeqAppend(a: seq<SubFeature>, b: seq<SubFeature>)
    ensures CmdSeq(a + b) == CmdSeq(a) + CmdSeq(b)
    decreases |a|
  {
    if a == [] {
      assert a + b == b;
    } else {
      assert (a + b)[1..] == a[1..] + b;
      CmdSeqAppend(a[1..], b);
    }
  }

  lemma CmdSeqOne(s: SubFeature)
    ensures CmdSeq([s]) == s.cmds
  {
    assert [s][1..] == [];
  }

  lemma AllSubsOne(f: Feature)
    ensures AllSubs([f]) == f.subs
  {
    assert [f][1..] == [];
  }

  /** The commands before, in and after the i-th sub-feature. */
  lemma SplitSubsAt(ss: seq<SubFeature>, i: nat)
    requires i < |ss|
    ensures CmdSeq(ss) == CmdSeq(ss[..i]) + (ss[i].cmds + CmdSeq(ss[i + 1..]))
    ensures CmdSeq(ss[i..]) == ss[i].cmds + CmdSeq(ss[i + 1..])
    ensures CmdSeq(ss[..i + 1]) == CmdSeq(ss[..i]) + ss[i].cmds
  {
    hide CmdSeq;
    CmdSeqAppend(ss[..i], ss[i..]);
    CmdSeqAppend(ss[..i], [ss[i]]);
    CmdSeqAppend([ss[i]], ss[i + 1..]);
    CmdSeqOne(ss[i]);
    SlicesAt(ss, i);
  }

  lemma SlicesAt<T>(ss: seq<T>, i: nat)
    requires i < |ss|
    ensures ss == ss[..i] + ss[i..] && ss[i..] == [ss[i]] + ss[i + 1..] && ss[..i + 1] == ss[..i] + [ss[i]]
  {
  }

  /** The commands before, in and after the i-th feature. */
  lemma SplitFeaturesAt(fs: seq<Feature>, i: nat)
    requires i < |fs|
    ensures CmdSeq(AllSubs(fs)) == CmdSeq(AllSubs(fs[..i])) + (CmdSeq(fs[i].subs) + CmdSeq(AllSubs(fs[i + 1..])))
    ensures CmdSeq(AllSubs(fs[i..])) == CmdSeq(fs[i].subs) + CmdSeq(AllSubs(fs[i + 1..]))
    ensures CmdSeq(AllSubs(fs[..i + 1])) == CmdSeq(AllSubs(fs[..i])) + CmdSeq(fs[i].subs)
  {
    hide CmdSeq, AllSubs;
    FeatureCmdsAppend(fs[..i], fs[i..]);
    FeatureCmdsAppend(fs[..i], [fs[i]]);
    FeatureCmdsAppend([fs[i]], fs[i + 1..]);
    AllSubsOne(fs[i]);
    SlicesAt(fs, i);
  }

  lemma FeatureCmdsAppend(a: seq<Feature>, b: seq<Feature>)
    ensures CmdSeq(AllSubs(a + b)) == CmdSeq(AllSubs(a)) + CmdSeq(AllSubs(b))
  {
    AllSubsAppend(a, b);
    CmdSeqAppend(AllSubs(a), AllSubs(b));
  }

  // ----- what the walks need to know about the tree -----

  /** A finished feature of the tree, with the lists below it. */
  ghost predicate InTree(f: Feature, v: S.Feature, g: Shape)
    reads g.fset, g.subs, g.cmds`command, g.cmds`next, g.cmds`owner
  {
    f in g.fset && SubsOk(g.fset, g.subs) && CmdsOk(g.subs, g.cmds) && Finished(f, v)
  }

  lemma CmdChain(s: SubFeature, g: Shape)
    requires CmdsOk(g.subs, g.cmds) && s in g.subs
    ensures s.p_clicmds == (if s.cmds == [] then null else s.cmds[0]) && Distinct(s.cmds) && |s.vcmds| == |s.cmds|
    ensures forall i :: 0 <= i < |s.cmds| ==> s.vcmds[i] == s.cmds[i].command
    ensures forall i {:trigger s.cmds[i].next} :: 0 <= i < |s.cmds| ==>
      s.cmds[i].next == if i + 1 < |s.cmds| then s.cmds[i + 1] else null
  {
    assert CmdsOf(s);
  }

  lemma CmdCount(s: SubFeature, g: Shape)
    requires CmdsOk(g.subs, g.cmds) && s in g.subs
    ensures |s.vcmds| == |s.cmds|
  {
    CmdChain(s, g);
  }

  lemma InTreeSubs(f: Feature, v: S.Feature, g: Shape)
    requires InTree(f, v, g)
    ensures |f.subs| == |v.subs| && f.name == v.name
    ensures forall i :: 0 <= i < |f.subs| ==> f.subs[i] in g.subs && f.subs[i].Val() == v.subs[i]
    ensures f.p_subfeature == (if f.subs == [] then null else f.subs[0]) && Distinct(f.subs)
    ensures forall i {:trigger f.subs[i].next} :: 0 <= i < |f.subs| ==>
      f.subs[i].next == if i + 1 < |f.subs| then f.subs[i + 1] else null
  {
    assert SubsOf(f);
  }

  /** The list of sub-features alone. */
  lemma InTreeChain(f: Feature, v: S.Feature, g: Shape)
    requires InTree(f, v, g)
    ensures forall i :: 0 <= i < |f.subs| ==> f.subs[i] in g.subs
    ensures f.p_subfeature == if f.subs == [] then null else f.subs[0]
    ensures forall i {:trigger f.subs[i].next} :: 0 <= i < |f.subs| ==>
      f.subs[i].next == if i + 1 < |f.subs| then f.subs[i + 1] else null
  {
    hide Distinct, CmdsOk;
    InTreeSubs(f, v, g);
  }

  lemma DistinctAppend<T>(a: seq<T>, b: seq<T>)
    requires Distinct(a) && Distinct(b) && forall x :: x in a ==> x !in b
    ensures Distinct(a + b)
  {
    forall i, j | 0 <= i < j < |a + b| ensures (a + b)[i] != (a + b)[j] {
      if i < |a| <= j {
        assert a[i] in a && b[j - |a|] in b;
      }
    }
  }

  /** Commands of different sub-features are different nodes. */
  lemma {:induction false} CmdsApart(ss: seq<SubFeature>, g: Shape)
    requires CmdsOk(g.subs, g.cmds) && Distinct(ss) && (forall s :: s in ss ==> s in g.subs)
    ensures forall c :: c in CmdSeq(ss) ==> c in g.cmds && c.owner in ss
    ensures Distinct(CmdSeq(ss))
    decreases |ss|
  {
    if ss != [] {
      CmdsApart(ss[1..], g);
      assert CmdsOf(ss[0]);
      assert ss[0] !in ss[1..];
      DistinctAppend(ss[0].cmds, CmdSeq(ss[1..]));
    }
  }

  /** The nodes part stand in all from position at on. */
  ghost predicate PlacedAt<T>(all: seq<T>, at: nat, part: seq<T>): (r: bool)
    ensures r ==> at + |part| <= |all|
  {
    at + |part| <= |all| && forall j :: 0 <= j < |part| ==> all[at + j] == part[j]
  }

  lemma PlacedFirst<T>(all: seq<T>, at: nat, a: seq<T>, b: seq<T>)
    requires PlacedAt(all, at, a + b)
    ensures PlacedAt(all, at, a) && PlacedAt(all, at + |a|, b)
  {
    forall j | 0 <= j < |a| ensures all[at + j] == a[j] {
      assert (a + b)[j] == a[j];
    }
    forall j | 0 <= j < |b| ensures all[at + |a| + j] == b[j] {
      assert (a + b)[|a| + j] == b[j];
    }
  }

  // ----- running the commands -----

  /** What a walk has done so far: commands executed and failed, and whether it was stopped. */
  datatype Progress = Progress(executed: nat, failures: nat, stopped: bool)

  ghost function ToTally(cmds: seq<CliCmd>, p: Progress): Tally
    reads cmds`command_failed
  {
    Tally(Flags(cmds), p.executed, p.failures, p.stopped)
  }

  /** Flags a failed command; an interrupt right after the command takes the flag back. */
  method Mark(c: CliCmd, ok: bool, stop: bool, ghost all: seq<CliCmd>, ghost j: nat)
    requires Distinct(all) && j < |all| && all[j] == c
    modifies c`command_failed
    ensures var was := old(Flags(all));
      Flags(all) == if stop then was[j := false] else if ok then was else was[j := true]
  {
    if !ok {
      c.command_failed := true;
    }
    if stop {
      c.command_failed := false;
    }
  }

  lemma VisitStep(e: Env, first: bool, flags: seq<bool>, i: nat, end: nat, n: nat, failures: nat)
    requires i < end <= |flags|
    ensures var t := Add(failures, Visit(e, first, flags, i, end, n));
      var count := if e.ok(n) then 0 else 1;
      if first && e.stopBefore(n) then t == Tally(flags, n, failures, true)
      else if e.stopAfter(n) then t == Tally(flags[i := false], n + 1, failures + count, true)
      else t == Add(failures + count, Visit(e, first, if e.ok(n) then flags else flags[i := true], i + 1, end, n + 1))
  {
    assert e.ok(n) ==> flags[i := flags[i]] == flags;
  }

  lemma VisitDone(e: Env, first: bool, flags: seq<bool>, end: nat, n: nat, failures: nat)
    requires end <= |flags|
    ensures Add(failures, Visit(e, first, flags, end, end, n)) == Tally(flags, n, failures, false)
  {
  }

  lemma AddNothing(t: Tally)
    ensures Add(0, t) == t
  {
  }

  method RunCommands(s: SubFeature, first: bool, e: Env, n: nat, ghost g: Shape, ghost all: seq<CliCmd>, ghost at: nat)
    returns (p: Progress)
    requires CmdsOk(g.subs, g.cmds) && s in g.subs && Distinct(all) && PlacedAt(all, at, s.cmds)
    modifies all`command_failed
    ensures ToTally(all, p) == Visit(e, first, old(Flags(all)), at, at + |s.cmds|, n)
  {
    hide CmdsOk, Flags, Distinct, Visit, Add;
    CmdChain(s, g);
    ghost var was, end := Flags(all), at + |s.cmds|;
    var iter := s.p_clicmds;
    p := Progress(n, 0, false);
    ghost var i := 0;
    AddNothing(Visit(e, first, was, at, end, n));
    while iter != null
      invariant i <= |s.cmds| && iter == if i < |s.cmds| then s.cmds[i] else null
      invariant !p.stopped
      invariant Visit(e, first, was, at, end, n) ==
        Add(p.failures, Visit(e, first, Flags(all), at + i, end, p.executed))
      decreases |s.cmds| - i
    {
      p := RunCommand(iter, first, e, p, all, at + i, end);
      if p.stopped {
        return;
      }
      iter, i := iter.next, i + 1;
    }
    VisitDone(e, first, Flags(all), end, p.executed, p.failures);
  }

  /** One round of the walk over the commands. */
  method RunCommand(c: CliCmd, first: bool, e: Env, p: Progress, ghost all: seq<CliCmd>, ghost j: nat, ghost end: nat)
    returns (q: Progress)
    requires !p.stopped && Distinct(all) && j < end <= |all| && all[j] == c
    modifies c`command_failed
    ensures Add(p.failures, Visit(e, first, old(Flags(all)), j, end, p.executed)) ==
      if q.stopped then ToTally(all, q) else Add(q.failures, Visit(e, first, Flags(all), j + 1, end, q.executed))
  {
    hide Flags, Distinct, Visit, Add;
    VisitStep(e, first, Flags(all), j, end, p.executed, p.failures);
    if first && e.stopBefore(p.executed) {
      return p.(stopped := true);
    }
    var ok, stop := e.ok(p.executed), e.stopAfter(p.executed);
    Mark(c, ok, stop, all, j);
    return Progress(p.executed + 1, if ok then p.failures else p.failures + 1, stop);
  }

  method RunSubs(f: Feature, ghost v: S.Feature, first: bool, e: Env, n: nat, ghost g: Shape,
      ghost all: seq<CliCmd>, ghost at: nat)
    returns (p: Progress)
    requires InTree(f, v, g) && Distinct(all) && PlacedAt(all, at, CmdSeq(f.subs))
    modifies all`command_failed
    ensures ToTally(all, p) == Visit(e, first, old(Flags(all)), at, at + |CmdSeq(f.subs)|, n)
  {
    hide CmdsOk, SubsOk, Finished, Visit, CmdSeq, Flags, Distinct, PlacedAt, Add;
    InTreeChain(f, v, g);
    ghost var was, end := Flags(all), at + |CmdSeq(f.subs)|;
    var iter := f.p_subfeature;
    p := Progress(n, 0, false);
    ghost var i: nat, pos: nat := 0, at;
    assert f.subs[0..] == f.subs;
    AddNothing(Visit(e, first, was, at, end, n));
    while iter != null
      invariant i <= |f.subs| && iter == if i < |f.subs| then f.subs[i] else null
      invariant !p.stopped && at <= pos <= end <= |all| && end == pos + |CmdSeq(f.subs[i..])|
      invariant PlacedAt(all, pos, CmdSeq(f.subs[i..]))
      invariant Visit(e, first, was, at, end, n) == Add(p.failures, Visit(e, first, Flags(all), pos, end, p.executed))
      decreases |f.subs| - i
    {
      p := RunSubAt(iter, f.subs, i, first, e, p, g, all, pos, end);
      pos := pos + |iter.cmds|;
      if p.stopped {
        return;
      }
      iter, i := iter.next, i + 1;
    }
    NoCmds(f.subs[i..]);
    VisitDone(e, first, Flags(all), end, p.executed, p.failures);
  }

  /** Goes on with sub-feature i, whose commands are followed by those of the sub-features behind it. */
  method RunSubAt(s: SubFeature, ghost ss: seq<SubFeature>, ghost i: nat, first: bool, e: Env, p: Progress,
      ghost g: Shape, ghost all: seq<CliCmd>, ghost pos: nat, ghost end: nat)
    returns (q: Progress)
    requires CmdsOk(g.subs, g.cmds) && s in g.subs && Distinct(all) && i < |ss| && s == ss[i]
    requires end == pos + |CmdSeq(ss[i..])| <= |all| && PlacedAt(all, pos, CmdSeq(ss[i..]))
    modifies all`command_failed
    ensures PlacedAt(all, pos + |s.cmds|, CmdSeq(ss[i + 1..]))
    ensures end == pos + |s.cmds| + |CmdSeq(ss[i + 1..])|
    ensures Add(p.failures, Visit(e, first, old(Flags(all)), pos, end, p.executed)) ==
      if q.stopped then ToTally(all, q)
      else Add(q.failures, Visit(e, first, Flags(all), pos + |s.cmds|, end, q.executed))
  {
    hide CmdsOk, Visit, CmdSeq, Flags, Distinct, PlacedAt, Add;
    SplitSubsAt(ss, i);
    PlacedFirst(all, pos, s.cmds, CmdSeq(ss[i + 1..]));
    AddParts(e, first, Flags(all), pos, pos + |s.cmds|, end, p.executed, p.failures);
    q := RunMore(s, first, e, p, g, all, pos);
  }

  lemma NoCmds(ss: seq<SubFeature>)
    requires ss == []
    ensures CmdSeq(ss) == []
  {
  }

  lemma AddParts(e: Env, first: bool, flags: seq<bool>, i: nat, mid: nat, end: nat, n: nat, failures: nat)
    requires i <= mid <= end <= |flags|
    ensures var r := Add(failures, Visit(e, first, flags, i, mid, n));
      Add(failures, Visit(e, first, flags, i, end, n)) ==
      if r.stopped then r else Add(r.failures, Visit(e, first, r.flags, mid, end, r.executed))
  {
    VisitParts(e, first, flags, i, mid, end, n);
  }

  /** Goes on with the commands of a sub-feature. */
  method RunMore(s: SubFeature, first: bool, e: Env, p: Progress, ghost g: Shape, ghost all: seq<CliCmd>, ghost at: nat)
    returns (q: Progress)
    requires CmdsOk(g.subs, g.cmds) && s in g.subs && Distinct(all) && PlacedAt(all, at, s.cmds)
    modifies all`command_failed
    ensures ToTally(all, q) == Add(p.failures, Visit(e, first, old(Flags(all)), at, at + |s.cmds|, p.executed))
  {
    hide CmdsOk, Distinct, Visit, Flags, PlacedAt;
    q := RunCommands(s, first, e, p.executed, g, all, at);
    q := Progress(q.executed, p.failures + q.failures, q.stopped);
  }

  // ----- choosing them -----

  /** The features of the tree, with their values. */
  ghost predicate TreeOk(head: Feature?, t: seq<S.Feature>, g: Shape)
    reads g.features, g.fset, g.subs, g.cmds`command, g.cmds`next, g.cmds`owner
  {
    && FeaturesOf(head, g.features) && |t| == |g.features|
    && forall i :: 0 <= i < |t| ==> InTree(g.features[i], t[i], g)
  }

  lemma TreeChain(head: Feature?, t: seq<S.Feature>, g: Shape)
    requires TreeOk(head, t, g)
    ensures |t| == |g.features| && Distinct(g.features)
    ensures forall i :: 0 <= i < |t| ==> InTree(g.features[i], t[i], g) && g.features[i].name == t[i].name
    ensures head == if g.features == [] then null else g.features[0]
    ensures forall i {:trigger g.features[i].next} :: 0 <= i < |g.features| ==>
      g.features[i].next == if i + 1 < |g.features| then g.features[i + 1] else null
  {
  }

  lemma {:induction false} SizeOfSubs(ss: seq<SubFeature>, xs: seq<S.SubFeature>, g: Shape)
    requires CmdsOk(g.subs, g.cmds) && |ss| == |xs|
    requires forall i :: 0 <= i < |ss| ==> ss[i] in g.subs && ss[i].vcmds == xs[i].cmds
    ensures |CmdSeq(ss)| == |SubCmds(xs)|
    ensures forall j :: 0 <= j < |CmdSeq(ss)| ==> CmdSeq(ss)[j].command == SubCmds(xs)[j]
    decreases |ss|
  {
    if ss != [] {
      CmdChain(ss[0], g);
      SizeOfSubs(ss[1..], xs[1..], g);
    }
  }

  lemma SizeOfFeature(f: Feature, v: S.Feature, g: Shape)
    requires InTree(f, v, g)
    ensures |CmdSeq(f.subs)| == |SubCmds(v.subs)|
    ensures forall j :: 0 <= j < |CmdSeq(f.subs)| ==> CmdSeq(f.subs)[j].command == SubCmds(v.subs)[j]
  {
    InTreeSubs(f, v, g);
    SizeOfSubs(f.subs, v.subs, g);
  }

  /** Looks for a sub-feature in one feature, passing over dummies, and runs the first match. */
  method RunSubFeature(f: Feature, ghost v: S.Feature, sub: string, e: Env, ghost g: Shape,
      ghost all: seq<CliCmd>, ghost at: nat)
    returns (found: bool, p: Progress)
    requires InTree(f, v, g) && Distinct(all) && PlacedAt(all, at, CmdSeq(f.subs))
    modifies all`command_failed
    ensures var r := SelectSub(v.subs, sub, at);
      && found == r.Some?
      && (if found then r.value.end <= |all| &&
           ToTally(all, p) == Visit(e, true, old(Flags(all)), r.value.from, r.value.end, 0)
          else Flags(all) == old(Flags(all)) && p == Progress(0, 0, false))
  {
    hide CmdsOk, SubsOk, Finished, Visit, CmdSeq, Flags, Distinct, PlacedAt, Add, SelectSub;
    InTreeSubs(f, v, g);
    var iter := f.p_subfeature;
    ghost var i: nat, pos: nat := 0, at;
    assert f.subs[0..] == f.subs && v.subs[0..] == v.subs;
    while iter != null
      invariant i <= |f.subs| && iter == if i < |f.subs| then f.subs[i] else null
      invariant PlacedAt(all, pos, CmdSeq(f.subs[i..]))
      invariant SelectSub(v.subs, sub, at) == SelectSub(v.subs[i..], sub, pos)
      invariant Flags(all) == old(Flags(all))
      decreases |f.subs| - i
    {
      SplitSubsAt(f.subs, i);
      PlacedFirst(all, pos, iter.cmds, CmdSeq(f.subs[i + 1..]));
      CmdCount(iter, g);
      SelectSubStep(v.subs, i, sub, pos);
      if !iter.is_dummy && iter.name == Some(sub) {
        p := RunCommands(iter, true, e, 0, g, all, pos);
        return true, p;
      }
      pos := pos + |iter.cmds|;
      iter, i := iter.next, i + 1;
    }
    SelectSubNone(v.subs[i..], sub, pos);
    return false, Progress(0, 0, false);
  }

  lemma SelectSubStep(xs: seq<S.SubFeature>, i: nat, sub: string, at: nat)
    requires i < |xs|
    ensures SelectSub(xs[i..], sub, at) ==
      if !xs[i].isDummy && xs[i].name == Some(sub) then Some(Range(at, at + |xs[i].cmds|))
      else SelectSub(xs[i + 1..], sub, at + |xs[i].cmds|)
  {
    assert xs[i..][0] == xs[i] && xs[i..][1..] == xs[i + 1..];
  }

  lemma SelectSubNone(xs: seq<S.SubFeature>, sub: string, at: nat)
    requires xs == []
    ensures SelectSub(xs, sub, at) == None
  {
  }

  lemma SelectFeatureStep(t: seq<S.Feature>, i: nat, feature: string, sub: Option<string>, at: nat)
    requires i < |t|
    ensures var size := |SubCmds(t[i].subs)|;
      var there := SelectFeature(t[i + 1..], feature, sub, at + size);
      SelectFeature(t[i..], feature, sub, at) ==
      if t[i].name != Some(feature) then there
      else if sub == None then Some(Range(at, at + size))
      else if SelectSub(t[i].subs, sub.value, at).Some? then SelectSub(t[i].subs, sub.value, at)
      else there
  {
    assert t[i..][0] == t[i] && t[i..][1..] == t[i + 1..];
  }

  lemma SelectFeatureNone(t: seq<S.Feature>, feature: string, sub: Option<string>, at: nat)
    requires t == []
    ensures SelectFeature(t, feature, sub, at) == None
  {
  }

  /** Runs one feature, or one of its sub-features. */
  method RunFeature(head: Feature?, ghost t: seq<S.Feature>, feature: string, sub: Option<string>, e: Env,
      ghost g: Shape, ghost all: seq<CliCmd>)
    returns (found: bool, p: Progress)
    requires TreeOk(head, t, g) && all == CmdSeq(AllSubs(g.features)) && Distinct(all)
    modifies all`command_failed
    ensures var r := SelectFeature(t, feature, sub, 0);
      && found == r.Some?
      && (if found then r.value.end <= |all| &&
           ToTally(all, p) == Visit(e, true, old(Flags(all)), r.value.from, r.value.end, 0)
          else Flags(all) == old(Flags(all)) && p == Progress(0, 0, false))
  {
    hide TreeOk, InTree, FeaturesOf, Visit, CmdSeq, AllSubs, Flags, Distinct, PlacedAt, Add, SelectSub, SelectFeature;
    TreeChain(head, t, g);
    ghost var fs := g.features;
    var iter := head;
    ghost var i: nat, pos: nat := 0, 0;
    assert fs[0..] == fs && t[0..] == t;
    PlacedWhole(all);
    while iter != null
      invariant i <= |fs| && iter == if i < |fs| then fs[i] else null
      invariant PlacedAt(all, pos, CmdSeq(AllSubs(fs[i..])))
      invariant SelectFeature(t, feature, sub, 0) == SelectFeature(t[i..], feature, sub, pos)
      invariant Flags(all) == old(Flags(all))
      decreases |fs| - i
    {
      SplitFeaturesAt(fs, i);
      PlacedFirst(all, pos, CmdSeq(iter.subs), CmdSeq(AllSubs(fs[i + 1..])));
      SizeOfFeature(iter, t[i], g);
      SelectFeatureStep(t, i, feature, sub, pos);
      if iter.name == Some(feature) {
        found, p := RunInFeature(iter, t[i], sub, e, g, all, pos);
        if found {
          return;
        }
      }
      pos := pos + |CmdSeq(iter.subs)|;
      iter, i := iter.next, i + 1;
    }
    SelectFeatureNone(t[i..], feature, sub, pos);
    return false, Progress(0, 0, false);
  }

  /** Runs all of a feature, or one of its sub-features. */
  method RunInFeature(f: Feature, ghost v: S.Feature, sub: Option<string>, e: Env, ghost g: Shape,
      ghost all: seq<CliCmd>, ghost at: nat)
    returns (found: bool, p: Progress)
    requires InTree(f, v, g) && Distinct(all) && PlacedAt(all, at, CmdSeq(f.subs))
    modifies all`command_failed
    ensures var r := if sub == None then Some(Range(at, at + |SubCmds(v.subs)|)) else SelectSub(v.subs, sub.value, at);
      && found == r.Some?
      && (if found then r.value.end <= |all| &&
           ToTally(all, p) == Visit(e, true, old(Flags(all)), r.value.from, r.value.end, 0)
          else Flags(all) == old(Flags(all)) && p == Progress(0, 0, false))
  {
    hide InTree, Visit, CmdSeq, SubCmds, Flags, Distinct, PlacedAt, SelectSub;
    SizeOfFeature(f, v, g);
    if sub == None {
      PlacedFits(all, at, CmdSeq(f.subs));
      p := RunSubs(f, v, true, e, 0, g, all, at);
      return true, p;
    }
    found, p := RunSubFeature(f, v, sub.value, e, g, all, at);
  }

  lemma PlacedFits<T>(all: seq<T>, at: nat, part: seq<T>)
    requires PlacedAt(all, at, part)
    ensures at + |part| <= |all|
  {
  }

  lemma PlacedWhole<T>(all: seq<T>)
    ensures PlacedAt(all, 0, all)
  {
  }

  /** Runs everything. */
  method RunAll(head: Feature?, ghost t: seq<S.Feature>, e: Env, ghost g: Shape, ghost all: seq<CliCmd>)
    returns (p: Progress)
    requires TreeOk(head, t, g) && all == CmdSeq(AllSubs(g.features)) && Distinct(all)
    modifies all`command_failed
    ensures ToTally(all, p) == Visit(e, false, old(Flags(all)), 0, |all|, 0)
  {
    hide TreeOk, InTree, FeaturesOf, Visit, CmdSeq, AllSubs, Flags, Distinct, PlacedAt, Add;
    TreeChain(head, t, g);
    ghost var fs, was, end := g.features, Flags(all), |all|;
    var iter := head;
    p := Progress(0, 0, false);
    ghost var i: nat, pos: nat := 0, 0;
    assert fs[0..] == fs;
    PlacedWhole(all);
    AddNothing(Visit(e, false, was, 0, end, 0));
    while iter != null
      invariant i <= |fs| && iter == if i < |fs| then fs[i] else null
      invariant !p.stopped && pos <= end == pos + |CmdSeq(AllSubs(fs[i..]))|
      invariant PlacedAt(all, pos, CmdSeq(AllSubs(fs[i..])))
      invariant Visit(e, false, was, 0, end, 0) == Add(p.failures, Visit(e, false, Flags(all), pos, end, p.executed))
      decreases |fs| - i
    {
      p := RunFeatureAt(iter, t[i], fs, i, e, p, g, all, pos, end);
      pos := pos + |CmdSeq(iter.subs)|;
      if p.stopped {
        return;
      }
      iter, i := iter.next, i + 1;
    }
    NoFeatures(fs[i..]);
    VisitDone(e, false, Flags(all), end, p.executed, p.failures);
  }

  /** Goes on with feature i, whose commands are followed by those of the features behind it. */
  method RunFeatureAt(f: Feature, ghost v: S.Feature, ghost fs: seq<Feature>, ghost i: nat, e: Env, p: Progress,
      ghost g: Shape, ghost all: seq<CliCmd>, ghost pos: nat, ghost end: nat)
    returns (q: Progress)
    requires InTree(f, v, g) && Distinct(all) && i < |fs| && f == fs[i]
    requires end == pos + |CmdSeq(AllSubs(fs[i..]))| <= |all| && PlacedAt(all, pos, CmdSeq(AllSubs(fs[i..])))
    modifies all`command_failed
    ensures PlacedAt(all, pos + |CmdSeq(f.subs)|, CmdSeq(AllSubs(fs[i + 1..])))
    ensures end == pos + |CmdSeq(f.subs)| + |CmdSeq(AllSubs(fs[i + 1..]))|
    ensures Add(p.failures, Visit(e, false, old(Flags(all)), pos, end, p.executed)) ==
      if q.stopped then ToTally(all, q)
      else Add(q.failures, Visit(e, false, Flags(all), pos + |CmdSeq(f.subs)|, end, q.executed))
  {
    hide InTree, Visit, CmdSeq, AllSubs, Flags, Distinct, PlacedAt, Add;
    SplitFeaturesAt(fs, i);
    PlacedFirst(all, pos, CmdSeq(f.subs), CmdSeq(AllSubs(fs[i + 1..])));
    AddParts(e, false, Flags(all), pos, pos + |CmdSeq(f.subs)|, end, p.executed, p.failures);
    q := RunMoreSubs(f, v, false, e, p, g, all, pos);
  }

  lemma NoFeatures(fs: seq<Feature>)
    requires fs == []
    ensures CmdSeq(AllSubs(fs)) == []
  {
  }

  /** Goes on with the commands of a feature. */
  method RunMoreSubs(f: Feature, ghost v: S.Feature, first: bool, e: Env, p: Progress, ghost g: Shape,
      ghost all: seq<CliCmd>, ghost at: nat)
    returns (q: Progress)
    requires InTree(f, v, g) && Distinct(all) && PlacedAt(all, at, CmdSeq(f.subs))
    modifies all`command_failed
    ensures ToTally(all, q) == Add(p.failures, Visit(e, first, old(Flags(all)), at, at + |CmdSeq(f.subs)|, p.executed))
  {
    hide InTree, Distinct, Visit, Flags, PlacedAt, CmdSeq;
    q := RunSubs(f, v, first, e, p.executed, g, all, at);
    q := Progress(q.executed, p.failures + q.failures, q.stopped);
  }

  // ----- reporting and clearing the flags -----

  /** The flags with those from position i up to end taken down. */
  ghost function Cleared(flags: seq<bool>, i: nat, end: nat): (r: seq<bool>)
    ensures |r| == |flags|
  {
    seq(|flags|, k requires 0 <= k < |flags| => if i <= k < end then false else flags[k])
  }

  ghost predicate Named(all: seq<CliCmd>, names: seq<string>): (r: bool)
    reads all`command
    ensures r ==> |names| == |all|
  {
    |names| == |all| && forall j :: 0 <= j < |all| ==> all[j].command == names[j]
  }

  /** What a walk prints from position i up to end, starting with a number, and the state after it. */
  ghost predicate Printed(names: seq<string>, was: seq<bool>, now: seq<bool>, i: nat, end: nat, number: nat,
    lines: seq<(nat, string)>, next: nat)
    requires end <= |names| == |was|
  {
    lines == Listing(names, was, i, end, number) && next == number + |lines| && now == Cleared(was, i, end)
  }

  lemma PrintNothing(names: seq<string>, was: seq<bool>, i: nat, number: nat)
    requires i <= |names| == |was|
    ensures Printed(names, was, was, i, i, number, [], number)
  {
  }

  /** Two stretches printed one after the other. */
  lemma PrintMore(names: seq<string>, was: seq<bool>, now: seq<bool>, then': seq<bool>, i: nat, mid: nat, end: nat,
    number: nat, a: seq<(nat, string)>, next: nat, b: seq<(nat, string)>, last: nat)
    requires i <= mid <= end <= |names| == |was| == |now|
    requires Printed(names, was, now, i, mid, number, a, next) && Printed(names, now, then', mid, end, next, b, last)
    ensures Printed(names, was, then', i, end, number, a + b, last)
  {
    ListingParts(names, was, i, mid, end, number);
    ListingSame(names, was, now, mid, end, next);
  }

  lemma {:induction false} ListingSame(names: seq<string>, was: seq<bool>, now: seq<bool>, i: nat, end: nat,
      number: nat)
    requires end <= |names| == |was| == |now| && forall k :: i <= k < end ==> was[k] == now[k]
    ensures Listing(names, was, i, end, number) == Listing(names, now, i, end, number)
    decreases end - i
  {
    if i < end {
      ListingSame(names, was, now, i + 1, end, if was[i] then number + 1 else number);
    }
  }

  method PrintCommand(c: CliCmd, number: nat, ghost all: seq<CliCmd>, ghost names: seq<string>, ghost j: nat)
    returns (lines: seq<(nat, string)>, next: nat)
    requires Distinct(all) && Named(all, names) && j < |all| && all[j] == c
    modifies c`command_failed
    ensures Printed(names, old(Flags(all)), Flags(all), j, j + 1, number, lines, next)
  {
    hide Listing, Cleared;
    ghost var was := Flags(all);
    lines, next := [], number;
    if c.command_failed {
      lines, next := [(number, c.command)], number + 1;
      c.command_failed := false;
    }
    assert Flags(all) == was[j := false];
    PrintOne(names, was, j, number);
  }

  lemma PrintOne(names: seq<string>, was: seq<bool>, j: nat, number: nat)
    requires j < |names| == |was|
    ensures Listing(names, was, j, j + 1, number) == if was[j] then [(number, names[j])] else []
    ensures Cleared(was, j, j + 1) == was[j := false]
  {
    assert Listing(names, was, j + 1, j + 1, number + 1) == [];
  }

  method PrintCommands(s: SubFeature, number: nat, ghost g: Shape, ghost all: seq<CliCmd>, ghost names: seq<string>,
      ghost at: nat)
    returns (lines: seq<(nat, string)>, next: nat)
    requires CmdsOk(g.subs, g.cmds) && s in g.subs && Distinct(all) && Named(all, names) && PlacedAt(all, at, s.cmds)
    modifies all`command_failed
    ensures Printed(names, old(Flags(all)), Flags(all), at, at + |s.cmds|, number, lines, next)
  {
    hide CmdsOk, Flags, Distinct, Named, Printed;
    CmdChain(s, g);
    ghost var was := Flags(all);
    var iter := s.p_clicmds;
    lines, next := [], number;
    ghost var i: nat := 0;
    PrintNothing(names, was, at, number);
    while iter != null
      invariant i <= |s.cmds| && iter == if i < |s.cmds| then s.cmds[i] else null
      invariant Printed(names, was, Flags(all), at, at + i, number, lines, next)
      decreases |s.cmds| - i
    {
      assert all[at + i] == iter;
      ghost var now, a, n := Flags(all), lines, next;
      var more;
      more, next := PrintCommand(iter, next, all, names, at + i);
      PrintMore(names, was, now, Flags(all), at, at + i, at + i + 1, number, a, n, more, next);
      lines := lines + more;
      iter, i := iter.next, i + 1;
    }
  }

  method PrintSubs(f: Feature, ghost v: S.Feature, number: nat, ghost g: Shape,
      ghost all: seq<CliCmd>, ghost names: seq<string>, ghost at: nat)
    returns (lines: seq<(nat, string)>, next: nat)
    requires InTree(f, v, g) && Distinct(all) && Named(all, names) && PlacedAt(all, at, CmdSeq(f.subs))
    modifies all`command_failed
    ensures Printed(names, old(Flags(all)), Flags(all), at, at + |CmdSeq(f.subs)|, number, lines, next)
  {
    hide CmdsOk, SubsOk, Finished, CmdSeq, Flags, Distinct, PlacedAt, Named, Printed;
    InTreeChain(f, v, g);
    ghost var was, end := Flags(all), at + |CmdSeq(f.subs)|;
    var iter := f.p_subfeature;
    lines, next := [], number;
    ghost var i: nat, pos: nat := 0, at;
    assert f.subs[0..] == f.subs;
    PrintNothing(names, was, at, number);
    while iter != null
      invariant i <= |f.subs| && iter == if i < |f.subs| then f.subs[i] else null
      invariant at <= pos <= end <= |all| && end == pos + |CmdSeq(f.subs[i..])|
      invariant PlacedAt(all, pos, CmdSeq(f.subs[i..]))
      invariant Printed(names, was, Flags(all), at, pos, number, lines, next)
      decreases |f.subs| - i
    {
      SplitSubsAt(f.subs, i);
      PlacedFirst(all, pos, iter.cmds, CmdSeq(f.subs[i + 1..]));
      ghost var now, a, n, mid := Flags(all), lines, next, pos;
      var more;
      more, next := PrintCommands(iter, next, g, all, names, pos);
      pos := pos + |iter.cmds|;
      PrintMore(names, was, now, Flags(all), at, mid, pos, number, a, n, more, next);
      lines := lines + more;
      iter, i := iter.next, i + 1;
    }
    NoCmds(f.subs[i..]);
  }

  /** Prints the numbered list of all flagged commands of the tree and clears every flag. */
  method PrintFailedCommands(head: Feature?, ghost t: seq<S.Feature>, ghost g: Shape,
      ghost all: seq<CliCmd>, ghost names: seq<string>)
    returns (lines: seq<(nat, string)>)
    requires TreeOk(head, t, g) && all == CmdSeq(AllSubs(g.features)) && Distinct(all) && Named(all, names)
    modifies all`command_failed
    ensures lines == Report(names, old(Flags(all))) && Flags(all) == Clear(|all|)
  {
    hide TreeOk, InTree, FeaturesOf, CmdSeq, AllSubs, Flags, Distinct, PlacedAt, Named, Printed;
    TreeChain(head, t, g);
    ghost var fs, was, end := g.features, Flags(all), |all|;
    var iter := head;
    var number;
    lines, number := [], 1;
    ghost var i: nat, pos: nat := 0, 0;
    assert fs[0..] == fs;
    PlacedWhole(all);
    PrintNothing(names, was, 0, 1);
    while iter != null
      invariant i <= |fs| && iter == if i < |fs| then fs[i] else null
      invariant pos <= end == pos + |CmdSeq(AllSubs(fs[i..]))|
      invariant PlacedAt(all, pos, CmdSeq(AllSubs(fs[i..])))
      invariant Printed(names, was, Flags(all), 0, pos, 1, lines, number)
      decreases |fs| - i
    {
      SplitFeaturesAt(fs, i);
      PlacedFirst(all, pos, CmdSeq(iter.subs), CmdSeq(AllSubs(fs[i + 1..])));
      ghost var now, a, n, mid := Flags(all), lines, number, pos;
      var more;
      more, number := PrintSubs(iter, t[i], number, g, all, names, pos);
      pos := pos + |CmdSeq(iter.subs)|;
      PrintMore(names, was, now, Flags(all), 0, mid, pos, 1, a, n, more, number);
      lines := lines + more;
      iter, i := iter.next, i + 1;
    }
    NoFeatures(fs[i..]);
    PrintedAll(names, was, Flags(all), lines, number);
  }

  lemma PrintedAll(names: seq<string>, was: seq<bool>, now: seq<bool>, lines: seq<(nat, string)>, next: nat)
    requires |names| == |was| && Printed(names, was, now, 0, |was|, 1, lines, next)
    ensures lines == Report(names, was) && now == Clear(|was|)
  {
  }

  // ----- the command -----

  lemma ConfigTree(head: Feature?, g: Shape, t: seq<S.Feature>, live: set<object>)
    requires AllClosed(head, g, t) && MemoryOk(g, live)
    ensures TreeOk(head, t, g) && (head == null <==> t == [])
    ensures Distinct(CmdSeq(AllSubs(g.features))) && Named(CmdSeq(AllSubs(g.features)), TreeCmds(t))
    ensures forall c :: c in CmdSeq(AllSubs(g.features)) ==> c in g.cmds
  {
    hide CmdsOk, ColsOk, TablesOk, SubsOf, Distinct, Named, AllSubs, CmdSeq, TreeCmds, SubCmds, Nodes;
    HeadIsFirst(head, g);
    SubsApart(g.features, t, g);
    CmdsApart(AllSubs(g.features), g);
    NamesOfTree(g.features, t, g);
  }

  lemma {:induction false} SubsApart(fs: seq<Feature>, t: seq<S.Feature>, g: Shape)
    requires |fs| == |t| && Distinct(fs) && forall i :: 0 <= i < |t| ==> InTree(fs[i], t[i], g)
    ensures Distinct(AllSubs(fs))
    ensures forall s :: s in AllSubs(fs) ==> s in g.subs && s.owner != null && s.owner in fs
    decreases |fs|
  {
    hide CmdsOk, Finished, SubsOf;
    if fs != [] {
      SubsApart(fs[1..], t[1..], g);
      InTreeSubs(fs[0], t[0], g);
      assert InTree(fs[0], t[0], g) && fs[0] !in fs[1..];
      DistinctAppend(fs[0].subs, AllSubs(fs[1..]));
    }
  }

  lemma {:induction false} NamesOfTree(fs: seq<Feature>, t: seq<S.Feature>, g: Shape)
    requires |fs| == |t| && forall i :: 0 <= i < |t| ==> InTree(fs[i], t[i], g)
    ensures Named(CmdSeq(AllSubs(fs)), TreeCmds(t))
    decreases |fs|
  {
    hide InTree, CmdSeq, SubCmds;
    if fs == [] {
      NoFeatures(fs);
    } else {
      NamesOfTree(fs[1..], t[1..], g);
      SizeOfFeature(fs[0], t[0], g);
      CmdSeqAppend(fs[0].subs, AllSubs(fs[1..]));
    }
  }

  /** One `show tech` command: afterwards the flags of the commands, in tree order, and the
      outcome are those of the specification. */
  method CliShowTech(head: Feature?, r: Request, e: Env, ghost t: seq<S.Feature>, ghost g: Shape,
      ghost all: seq<CliCmd>)
    returns (out: Outcome)
    requires TreeOk(head, t, g) && (head == null <==> t == [])
    requires all == CmdSeq(AllSubs(g.features)) && Distinct(all) && Named(all, TreeCmds(t))
    modifies all`command_failed
    ensures (Flags(all), out) == ShowTech(t, old(Flags(all)), r, e)
  {
    hide TreeOk, Distinct, Named, AllSubs, CmdSeq, Visit, Select;
    SelectInRange(t, r);
    ghost var subs := AllSubs(g.features);
    assert allocated(g.features) && allocated(subs);
    if head == null {
      return NoConfiguration;
    }
    var found, p;
    found, p := RunRequest(head, t, r, e, g, all);
    if !found {
      return NotSupported;
    }
    if p.stopped {
      return Stopped;
    }
    if p.failures == 0 {
      return Success;
    }
    assert AllSubs(g.features) == subs && CmdSeq(subs) == all;
    var lines := PrintFailedCommands(head, t, g, all, TreeCmds(t));
    return Failures(p.failures, lines);
  }

  /** The same on the configuration the library holds, which is otherwise left as it was. */
  method ShowTechOn(config: Config, r: Request, e: Env, ghost all: seq<CliCmd>) returns (out: Outcome)
    requires config.Valid() && all == CmdSeq(AllSubs(config.g.features))
    modifies all`command_failed
    ensures config.Valid() && |all| == |TreeCmds(config.tree)|
    ensures (Flags(all), out) == ShowTech(config.tree, old(Flags(all)), r, e)
  {
    hide AllClosed, MemoryOk, TreeOk, Distinct, Named, AllSubs, CmdSeq, ShowTech;
    ConfigTree(config.feature_head, config.g, config.tree, config.mem.live);
    out := CliShowTech(config.feature_head, r, e, config.tree, config.g, all);
  }

  method RunRequest(head: Feature?, ghost t: seq<S.Feature>, r: Request, e: Env, ghost g: Shape, ghost all: seq<CliCmd>)
    returns (found: bool, p: Progress)
    requires TreeOk(head, t, g) && all == CmdSeq(AllSubs(g.features)) && Distinct(all) && |all| == |TreeCmds(t)|
    modifies all`command_failed
    ensures var x := Select(t, r);
      && found == x.Some?
      && (if found then x.value.end <= |all| &&
           ToTally(all, p) == Visit(e, r.OneFeature?, old(Flags(all)), x.value.from, x.value.end, 0)
          else Flags(all) == old(Flags(all)) && p == Progress(0, 0, false))
  {
    hide TreeOk, Distinct, Visit, Flags, SelectFeature;
    match r {
      case All =>
        p := RunAll(head, t, e, g, all);
        found := true;
      case OneFeature(feature, sub) =>
        found, p := RunFeature(head, t, feature, sub, e, g, all);
    }
  }
}
