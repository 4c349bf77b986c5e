/** Which commands a request selects, said without the search: the first feature of that name, or the
    first sub-feature of that name in a feature of that name, and the commands that belong to it. */
module ShowTechSelection {
  import opened Options
  import opened ShowTechAccounting
  import S = ShowTechSpec

  // ----- commands in tree order -----

  lemma Regroup<T>(a: seq<T>, b: seq<T>, c: seq<T>)
    ensures a + (b + c) == a + b + c
  {
  }

  lemma SubCmdsFirst(x: S.SubFeature, xs: seq<S.SubFeature>)
    ensures SubCmds([x] + xs) == x.cmds + SubCmds(xs)
  {
    assert ([x] + xs)[1..] == xs;
  }

  lemma {:induction false} SubCmdsConcat(xs: seq<S.SubFeature>, ys: seq<S.SubFeature>)
    ensures SubCmds(xs + ys) == SubCmds(xs) + SubCmds(ys)
  {
    if xs == [] {
      assert xs + ys == ys;
    } else {
      var rest := xs[1..];
      SubCmdsConcat(rest, ys);
      SubCmdsFirst(xs[0], rest + ys);
      assert [xs[0]] + (rest + ys) == xs + ys;
      Regroup(xs[0].cmds, SubCmds(rest), SubCmds(ys));
    }
  }

  lemma SubCmdsSplit(xs: seq<S.SubFeature>, j: nat)
    requires j < |xs|
    ensures SubCmds(xs) == SubCmds(xs[..j]) + xs[j].cmds + SubCmds(xs[j + 1..])
  {
    hide SubCmds;
    SubCmdsConcat(xs[..j], [xs[j]] + xs[j + 1..]);
    SubCmdsFirst(xs[j], xs[j + 1..]);
    assert xs[..j] + ([xs[j]] + xs[j + 1..]) == xs;
    Regroup(SubCmds(xs[..j]), xs[j].cmds, SubCmds(xs[j + 1..]));
  }

  lemma TreeCmdsFirst(f: S.Feature, t: seq<S.Feature>)
    ensures TreeCmds([f] + t) == SubCmds(f.subs) + TreeCmds(t)
  {
    assert ([f] + t)[1..] == t;
  }

  lemma {:induction false} TreeCmdsConcat(t: seq<S.Feature>, u: seq<S.Feature>)
    ensures TreeCmds(t + u) == TreeCmds(t) + TreeCmds(u)
  {
    hide SubCmds;
    if t == [] {
      assert t + u == u;
    } else {
      var rest := t[1..];
      TreeCmdsConcat(rest, u);
      TreeCmdsFirst(t[0], rest + u);
      assert [t[0]] + (rest + u) == t + u;
      Regroup(SubCmds(t[0].subs), TreeCmds(rest), TreeCmds(u));
    }
  }

  lemma TreeCmdsSplit(t: seq<S.Feature>, i: nat)
    requires i < |t|
    ensures TreeCmds(t) == TreeCmds(t[..i]) + SubCmds(t[i].subs) + TreeCmds(t[i + 1..])
  {
    hide TreeCmds, SubCmds;
    TreeCmdsConcat(t[..i], [t[i]] + t[i + 1..]);
    TreeCmdsFirst(t[i], t[i + 1..]);
    assert t[..i] + ([t[i]] + t[i + 1..]) == t;
    Regroup(TreeCmds(t[..i]), SubCmds(t[i].subs), TreeCmds(t[i + 1..]));
  }

  // ----- sub-features -----

  /** A sub-feature of that name; a dummy has none of its own. */
  predicate IsNamed(x: S.SubFeature, sub: string) {
    !x.isDummy && x.name == Some(sub)
  }

  lemma {:induction false} FirstSub(xs: seq<S.SubFeature>, sub: string, at: nat) returns (j: nat)
    ensures j <= |xs| && forall k :: 0 <= k < j ==> !IsNamed(xs[k], sub)
    ensures j < |xs| ==> IsNamed(xs[j], sub)
    ensures SelectSub(xs, sub, at) ==
      if j == |xs| then None
      else var from := at + |SubCmds(xs[..j])|; Some(Range(from, from + |xs[j].cmds|))
  {
    if xs == [] {
      j := 0;
    } else if IsNamed(xs[0], sub) {
      j := 0;
      assert xs[..0] == [];
    } else {
      var k := FirstSub(xs[1..], sub, at + |xs[0].cmds|);
      j := k + 1;
      assert forall m :: 1 <= m < |xs| ==> xs[m] == xs[1..][m - 1];
      if j < |xs| {
        assert xs[..j][0] == xs[0] && xs[..j][1..] == xs[1..][..k];
      }
    }
  }

  // ----- features -----

  /** Sub-feature j of feature i is one the request asks for. */
  predicate Asked(t: seq<S.Feature>, feature: string, sub: string, i: nat, j: nat) {
    i < |t| && t[i].name == Some(feature) && j < |t[i].subs| && IsNamed(t[i].subs[j], sub)
  }

  /** No sub-feature before that one, in tree order, is. */
  ghost predicate NoneEarlier(t: seq<S.Feature>, feature: string, sub: string, i: nat, j: nat) {
    forall k: nat, m: nat :: k < i || (k == i && m < j) ==> !Asked(t, feature, sub, k, m)
  }

  /** The commands before sub-feature j of feature i. */
  function CmdsBefore(t: seq<S.Feature>, i: nat, j: nat): seq<string>
    requires i < |t| && j <= |t[i].subs|
  {
    TreeCmds(t[..i]) + SubCmds(t[i].subs[..j])
  }

  lemma {:induction false} FirstAsked(t: seq<S.Feature>, feature: string, sub: string, at: nat) returns (i: nat, j: nat)
    ensures i <= |t| && NoneEarlier(t, feature, sub, i, j)
    ensures i < |t| ==> Asked(t, feature, sub, i, j)
    ensures SelectFeature(t, feature, Some(sub), at) ==
      if i == |t| then None
      else var from := at + |CmdsBefore(t, i, j)|; Some(Range(from, from + |t[i].subs[j].cmds|))
  {
    if t == [] {
      i, j := 0, 0;
    } else {
      var rest, size := t[1..], |SubCmds(t[0].subs)|;
      var k := FirstSub(t[0].subs, sub, at);
      if t[0].name == Some(feature) && k < |t[0].subs| {
        i, j := 0, k;
        assert t[..0] == [] && TreeCmds([]) == [];
      } else {
        var n;
        n, j := FirstAsked(rest, feature, sub, at + size);
        i := n + 1;
        LaterAsked(t, feature, sub, n, j);
        if i < |t| { BeforeLater(t, n, j); }
      }
    }
  }

  lemma LaterAsked(t: seq<S.Feature>, feature: string, sub: string, n: nat, j: nat)
    requires t != [] && NoneEarlier(t[1..], feature, sub, n, j)
    requires t[0].name == Some(feature) ==> forall m :: 0 <= m < |t[0].subs| ==> !IsNamed(t[0].subs[m], sub)
    ensures NoneEarlier(t, feature, sub, n + 1, j)
    ensures Asked(t, feature, sub, n + 1, j) <==> Asked(t[1..], feature, sub, n, j)
  {
    hide IsNamed;
    forall k: nat, m: nat | k < n + 1 || (k == n + 1 && m < j) ensures !Asked(t, feature, sub, k, m) {
      if k > 0 {
        assert !Asked(t[1..], feature, sub, k - 1, m);
      }
    }
  }

  lemma BeforeLater(t: seq<S.Feature>, n: nat, j: nat)
    requires n + 1 < |t| && j <= |t[n + 1].subs|
    ensures |CmdsBefore(t, n + 1, j)| == |SubCmds(t[0].subs)| + |CmdsBefore(t[1..], n, j)|
  {
    assert t[..n + 1][0] == t[0] && t[..n + 1][1..] == t[1..][..n];
  }

  /** The range holds the commands of that sub-feature. */
  lemma SubInRange(t: seq<S.Feature>, i: nat, j: nat)
    requires i < |t| && j < |t[i].subs|
    ensures var from, cmds := |CmdsBefore(t, i, j)|, t[i].subs[j].cmds;
      from + |cmds| <= |TreeCmds(t)| && TreeCmds(t)[from..from + |cmds|] == cmds
  {
    hide TreeCmds, SubCmds;
    TreeCmdsSplit(t, i);
    SubCmdsSplit(t[i].subs, j);
    var a, xs := TreeCmds(t[..i]), t[i].subs;
    var b, c, d := SubCmds(xs[..j]), SubCmds(xs[j + 1..]), TreeCmds(t[i + 1..]);
    Flatten(a, b, xs[j].cmds, c, d);
    Middle(a + b, xs[j].cmds, c + d);
  }

  lemma Flatten(a: seq<string>, b: seq<string>, x: seq<string>, c: seq<string>, d: seq<string>)
    ensures a + (b + x + c) + d == (a + b) + x + (c + d)
  {
  }

  lemma Middle(a: seq<string>, b: seq<string>, c: seq<string>)
    ensures (a + b + c)[|a|..|a| + |b|] == b
  {
  }

  /** A request for a sub-feature is supported exactly if there is such a sub-feature in a feature of that
      name; then it selects the commands of the first one, and those only. */
  lemma {:induction false} SelectedSub(t: seq<S.Feature>, feature: string, sub: string)
    ensures var r := Select(t, OneFeature(feature, Some(sub)));
      if forall i: nat, j: nat :: !Asked(t, feature, sub, i, j) then r == None
      else exists i: nat, j: nat ::
        && Asked(t, feature, sub, i, j) && NoneEarlier(t, feature, sub, i, j) && r.Some?
        && r.value.from == |CmdsBefore(t, i, j)| && r.value.from <= r.value.end <= |TreeCmds(t)|
        && TreeCmds(t)[r.value.from..r.value.end] == t[i].subs[j].cmds
  {
    hide CmdsBefore, TreeCmds, SelectFeature, IsNamed;
    var i, j := FirstAsked(t, feature, sub, 0);
    if i < |t| {
      SubInRange(t, i, j);
      assert Asked(t, feature, sub, i, j);
    } else {
      forall k: nat, m: nat ensures !Asked(t, feature, sub, k, m) {
        if k < i { assert !Asked(t, feature, sub, k, m); }
      }
    }
  }

  lemma {:induction false} FirstNamed(t: seq<S.Feature>, feature: string, at: nat) returns (i: nat)
    ensures i <= |t| && forall k :: 0 <= k < i ==> t[k].name != Some(feature)
    ensures i < |t| ==> t[i].name == Some(feature)
    ensures SelectFeature(t, feature, None, at) ==
      if i == |t| then None
      else var from := at + |TreeCmds(t[..i])|; Some(Range(from, from + |SubCmds(t[i].subs)|))
  {
    if t == [] || t[0].name == Some(feature) {
      i := 0;
      assert t[..0] == [];
    } else {
      var k := FirstNamed(t[1..], feature, at + |SubCmds(t[0].subs)|);
      i := k + 1;
      assert forall m :: 1 <= m < |t| ==> t[m] == t[1..][m - 1];
      if i < |t| {
        assert t[..i][0] == t[0] && t[..i][1..] == t[1..][..k];
      }
    }
  }

  /** A request for a feature is supported exactly if there is one of that name; then it selects the
      commands of the first one, and those only. */
  lemma {:induction false} SelectedFeature(t: seq<S.Feature>, feature: string)
    ensures var r := Select(t, OneFeature(feature, None));
      if forall i :: 0 <= i < |t| ==> t[i].name != Some(feature) then r == None
      else exists i: nat ::
        && i < |t| && t[i].name == Some(feature) && (forall k :: 0 <= k < i ==> t[k].name != Some(feature)) && r.Some?
        && r.value.from == |TreeCmds(t[..i])| && r.value.from <= r.value.end <= |TreeCmds(t)|
        && TreeCmds(t)[r.value.from..r.value.end] == SubCmds(t[i].subs)
  {
    hide SelectFeature;
    var i := FirstNamed(t, feature, 0);
    if i < |t| {
      TreeCmdsSplit(t, i);
      Middle(TreeCmds(t[..i]), SubCmds(t[i].subs), TreeCmds(t[i + 1..]));
    }
  }

  /** A request for everything selects all commands. */
  lemma {:induction false} SelectedAll(t: seq<S.Feature>)
    ensures var r := Select(t, All); r.Some? && TreeCmds(t)[r.value.from..r.value.end] == TreeCmds(t)
  {
  }

  // ----- when nothing is run -----

  /** The request names something that the configuration has. */
  predicate Supported(t: seq<S.Feature>, r: Request) {
    match r
    case All => true
    case OneFeature(f, None) => exists i :: 0 <= i < |t| && t[i].name == Some(f)
    case OneFeature(f, Some(x)) => exists i, j :: 0 <= i < |t| && 0 <= j < |t[i].subs| && Asked(t, f, x, i, j)
  }

  /** No command is run exactly if there is no configuration or it does not have what is asked for, and
      the answer says which. */
  lemma {:induction false} NothingRun(t: seq<S.Feature>, flags: seq<bool>, r: Request, e: Env)
    requires |flags| == |TreeCmds(t)|
    ensures ShowTech(t, flags, r, e).1 == NoConfiguration <==> t == []
    ensures ShowTech(t, flags, r, e).1 == NotSupported <==> t != [] && !Supported(t, r)
  {
    hide Visit, SelectFeature, Asked, IsNamed;
    SelectInRange(t, r);
    match r
    case All =>
    case OneFeature(f, None) => SelectedFeature(t, f);
    case OneFeature(f, Some(x)) =>
      SelectedSub(t, f, x);
      AskedInRange(t, f, x);
  }

  lemma AskedInRange(t: seq<S.Feature>, feature: string, sub: string)
    ensures forall i: nat, j: nat :: Asked(t, feature, sub, i, j) ==> i < |t| && j < |t[i].subs|
  {
  }
}
