/** Writing a configuration tree down as files do: the fields of a feature or a sub-feature in any
    order, without the flags that have their default, and a dummy sub-feature without a keyword of
    its own, which begins with whichever attribute comes first. */
module ShowTechLayout {
  import opened Options
  import opened ShowTechSpec
  import opened ShowTechRoundTrip
  import opened ShowTechReading
  import opened ShowTechPattern

  // ----- the writer -----

  /** The fields that may stand in one part of a feature. */
  datatype Item = FName | FDesc | SName | SDesc | All | Stb | Cmds | Tables

  function ItemEvents(f: Feature, x: SubFeature, it: Item): seq<Event> {
    match it
    case FName => EmitField(KwFeatureName, f.name)
    case FDesc => EmitField(KwFeatureDesc, f.desc)
    case SName => EmitField(KwSubFeatureName, x.name)
    case SDesc => EmitField(KwSubFeatureDesc, x.desc)
    case All => EmitFlag(KwShowTechAll, !x.noStaSupport)
    case Stb => EmitFlag(KwShowTechFeature, x.supportStb)
    case Cmds => [Word(KwCliCmds)] + EmitValues(x.cmds)
    case Tables => [Word(KwOvsdb)] + EmitTables(x.tables)
  }

  function PartEvents(f: Feature, x: SubFeature, items: seq<Item>): seq<Event> {
    if items == [] then [] else PartEvents(f, x, Init(items)) + ItemEvents(f, x, Final(items))
  }

  /** The sub-features with a keyword of their own, each with its fields. */
  function NamedEvents(f: Feature, xs: seq<SubFeature>, layout: seq<seq<Item>>): seq<Event>
    requires |xs| == |layout|
    decreases |xs|
  {
    if xs == [] then []
    else NamedEvents(f, Init(xs), Init(layout)) + [Word(KwSubFeature)] + PartEvents(f, Final(xs), Final(layout))
  }

  /** A dummy in first place stands in the part before the first keyword of a sub-feature. */
  predicate BeginsWithDummy(f: Feature) {
    f.subs != [] && f.subs[0].isDummy
  }

  function Named(f: Feature): seq<SubFeature> {
    if BeginsWithDummy(f) then f.subs[1..] else f.subs
  }

  function FirstSub(f: Feature): SubFeature {
    if BeginsWithDummy(f) then f.subs[0] else EMPTY_SUB.(isDummy := true)
  }

  function FeatureEvents(f: Feature, layout: seq<seq<Item>>): seq<Event>
    requires |layout| == |Named(f)| + 1
  {
    [Word(KwFeature)] + PartEvents(f, FirstSub(f), layout[0]) + NamedEvents(f, Named(f), layout[1..])
  }

  // ----- which layouts write down a tree -----

  /** The item writes something that only a sub-feature can have. */
  predicate WritesAttribute(x: SubFeature, it: Item) {
    it == All || it == Stb || (it == Cmds && x.cmds != []) || (it == Tables && x.tables != [])
  }

  /** Commands and tables stand in one place, and whatever is not the default stands somewhere. */
  predicate Complete(x: SubFeature, items: seq<Item>) {
    && (forall i, j :: 0 <= i < j < |items| && items[i] == items[j] ==> items[i] != Cmds && items[i] != Tables)
    && (x.name.Some? ==> SName in items) && (x.desc.Some? ==> SDesc in items)
    && (x.noStaSupport ==> All in items) && (x.supportStb ==> Stb in items)
    && (x.cmds != [] ==> Cmds in items) && (x.tables != [] ==> Tables in items)
  }

  /** In the part of a dummy an attribute stands before its name and its description. */
  predicate AttributeFirst(x: SubFeature, items: seq<Item>) {
    forall i :: 0 <= i < |items| && (items[i] == SName || items[i] == SDesc) ==>
      exists j :: 0 <= j < i && WritesAttribute(x, items[j])
  }

  predicate FirstPartOk(f: Feature, items: seq<Item>) {
    if BeginsWithDummy(f) then
      && Complete(f.subs[0], items) && AttributeFirst(f.subs[0], items)
      && exists it :: it in items && WritesAttribute(f.subs[0], it)
    else forall it :: it in items ==> it == FName || it == FDesc
  }

  predicate LayoutOk(f: Feature, layout: seq<seq<Item>>): (ok: bool)
    ensures ok ==> |layout| == |Named(f)| + 1
  {
    && |layout| == |Named(f)| + 1 && FirstPartOk(f, layout[0])
    && (forall i :: 0 <= i < |Named(f)| ==> Complete(Named(f)[i], layout[i + 1]))
    && (f.name.Some? ==> exists items :: items in layout && FName in items)
    && (f.desc.Some? ==> exists items :: items in layout && FDesc in items)
  }

  // ----- tokens of what is written -----

  /** The keyword in force after an event, and after some events. */
  function NextKey(key: Keyword, e: Event): Keyword {
    if e.Scalar? && KeywordOf(e.value) != Value then KeywordOf(e.value) else key
  }

  function LastKey(key: Keyword, es: seq<Event>): Keyword
    decreases |es|
  {
    if es == [] then key else LastKey(NextKey(key, es[0]), es[1..])
  }

  function HeadTokens(key: Keyword, e: Event): seq<Token> {
    match e
    case Structure => []
    case ParserError => [Bad]
    case Scalar(v) =>
      var k := KeywordOf(v);
      if k == Value then [Field(key, v)] else if BeginsPart(k) then [Mark(k)] else []
  }

  lemma TokensFirst(key: Keyword, es: seq<Event>)
    requires es != []
    ensures Tokens(key, es) == HeadTokens(key, es[0]) + Tokens(NextKey(key, es[0]), es[1..])
  {
    hide KeywordOf;
    var rest := Tokens(NextKey(key, es[0]), es[1..]);
    assert [] + rest == rest;
  }

  lemma {:induction false} TokensConcat(key: Keyword, a: seq<Event>, b: seq<Event>)
    ensures Tokens(key, a + b) == Tokens(key, a) + Tokens(LastKey(key, a), b)
    decreases |a|
  {
    hide Tokens, HeadTokens, NextKey;
    if a == [] {
      NoTokens(key);
      assert a + b == b && [] + Tokens(key, b) == Tokens(key, b);
    } else {
      assert (a + b)[0] == a[0] && (a + b)[1..] == a[1..] + b;
      TokensFirst(key, a);
      TokensFirst(key, a + b);
      TokensConcat(NextKey(key, a[0]), a[1..], b);
    }
  }

  function FieldsOf(k: Keyword, vs: seq<string>): seq<Token> {
    if vs == [] then [] else [Field(k, vs[0])] + FieldsOf(k, vs[1..])
  }

  lemma {:induction false} TokensOfValues(k: Keyword, vs: seq<string>)
    requires AllPlain(vs)
    ensures Tokens(k, EmitValues(vs)) == FieldsOf(k, vs)
    decreases |vs|
  {
    hide KeywordOf;
    if vs != [] {
      assert vs[0] in vs;
      TokensOfValues(k, vs[1..]);
    }
  }

  lemma TokensOfWord(key: Keyword, k: Keyword, es: seq<Event>)
    requires k != Value
    ensures Tokens(key, [Word(k)] + es) == (if BeginsPart(k) then [Mark(k)] else []) + Tokens(k, es)
  {
    KeywordRoundTrip(k);
    assert ([Word(k)] + es)[1..] == es;
    hide KeywordOf;
  }

  function OptionField(k: Keyword, v: Option<string>): seq<Token> {
    if v.Some? then [Field(k, v.value)] else []
  }

  function TableTokens(t: Table): seq<Token> {
    [Mark(KwTable)] + OptionField(KwTableName, t.name) + FieldsOf(KwColNames, t.cols)
  }

  function TablesTokens(ts: seq<Table>): seq<Token> {
    if ts == [] then [] else TableTokens(ts[0]) + TablesTokens(ts[1..])
  }

  function ItemTokens(f: Feature, x: SubFeature, it: Item): seq<Token> {
    match it
    case FName => OptionField(KwFeatureName, f.name)
    case FDesc => OptionField(KwFeatureDesc, f.desc)
    case SName => OptionField(KwSubFeatureName, x.name)
    case SDesc => OptionField(KwSubFeatureDesc, x.desc)
    case All => [Field(KwShowTechAll, if x.noStaSupport then "no" else "yes")]
    case Stb => [Field(KwShowTechFeature, if x.supportStb then "yes" else "no")]
    case Cmds => FieldsOf(KwCliCmds, x.cmds)
    case Tables => TablesTokens(x.tables)
  }

  function PartTokens(f: Feature, x: SubFeature, items: seq<Item>): seq<Token> {
    if items == [] then [] else PartTokens(f, x, Init(items)) + ItemTokens(f, x, Final(items))
  }

  lemma TokensOfField(key: Keyword, k: Keyword, v: Option<string>)
    requires k != Value && !BeginsPart(k) && Plain(v)
    ensures Tokens(key, EmitField(k, v)) == OptionField(k, v)
  {
    if v.Some? {
      TokensOfWord(key, k, [Scalar(v.value)]);
      assert [Word(k)] + [Scalar(v.value)] == [Word(k), Scalar(v.value)];
      TokensOfOne(k, v.value);
    }
    hide KeywordOf;
  }

  lemma TokensOfOne(k: Keyword, v: string)
    requires KeywordOf(v) == Value
    ensures Tokens(k, [Scalar(v)]) == [Field(k, v)]
  {
    hide KeywordOf;
    assert [Scalar(v)][1..] == [];
  }

  lemma TokensOfFlag(key: Keyword, k: Keyword, b: bool)
    requires k == KwShowTechAll || k == KwShowTechFeature
    ensures Tokens(key, EmitFlag(k, b)) == [Field(k, if b then "yes" else "no")]
  {
    var v := if b then "yes" else "no";
    NotAKeyword("yes", 0);
    NotAKeyword("no", 0);
    TokensOfWord(key, k, [Scalar(v)]);
    TokensOfOne(k, v);
    assert [Word(k)] + [Scalar(v)] == EmitFlag(k, b);
    hide KeywordOf;
  }

  lemma TokensOfTable(key: Keyword, t: Table)
    requires WellFormedTable(t)
    ensures Tokens(key, EmitTable(t)) == TableTokens(t)
  {
    hide KeywordOf, Tokens, EmitField, EmitValues, OptionField, FieldsOf, LastKey;
    var a, b := EmitField(KwTableName, t.name), EmitValues(t.cols);
    TokensOfWord(key, KwTable, a + ([Word(KwColNames)] + b));
    TokensConcat(KwTable, a, [Word(KwColNames)] + b);
    TokensOfField(KwTable, KwTableName, t.name);
    TokensOfWord(LastKey(KwTable, a), KwColNames, b);
    TokensOfValues(KwColNames, t.cols);
    Flatten([Mark(KwTable)], OptionField(KwTableName, t.name), FieldsOf(KwColNames, t.cols));
  }

  lemma Flatten(a: seq<Token>, b: seq<Token>, c: seq<Token>)
    ensures a + (b + ([] + c)) == a + b + c
  {
  }

  lemma {:induction false} TokensOfTables(key: Keyword, ts: seq<Table>)
    requires forall t :: t in ts ==> WellFormedTable(t)
    ensures Tokens(key, EmitTables(ts)) == TablesTokens(ts)
    decreases |ts|
  {
    hide Tokens, EmitTable, TableTokens;
    if ts == [] {
      NoTokens(key);
    } else {
      TokensConcat(key, EmitTable(ts[0]), EmitTables(ts[1..]));
      TokensOfTable(key, ts[0]);
      TokensOfTables(LastKey(key, EmitTable(ts[0])), ts[1..]);
    }
  }

  lemma TokensOfItem(key: Keyword, f: Feature, x: SubFeature, it: Item)
    requires Plain(f.name) && Plain(f.desc) && WellFormedSub(x)
    ensures Tokens(key, ItemEvents(f, x, it)) == ItemTokens(f, x, it)
  {
    hide Tokens, EmitField, EmitFlag, EmitTables, EmitValues, KeywordOf, IsShowTech;
    match it
    case FName => TokensOfField(key, KwFeatureName, f.name);
    case FDesc => TokensOfField(key, KwFeatureDesc, f.desc);
    case SName => TokensOfField(key, KwSubFeatureName, x.name);
    case SDesc => TokensOfField(key, KwSubFeatureDesc, x.desc);
    case All => TokensOfFlag(key, KwShowTechAll, !x.noStaSupport);
    case Stb => TokensOfFlag(key, KwShowTechFeature, x.supportStb);
    case Cmds =>
      TokensOfWord(key, KwCliCmds, EmitValues(x.cmds));
      TokensOfValues(KwCliCmds, x.cmds);
    case Tables =>
      TokensOfWord(key, KwOvsdb, EmitTables(x.tables));
      TokensOfTables(KwOvsdb, x.tables);
  }

  lemma {:induction false} TokensOfPart(key: Keyword, f: Feature, x: SubFeature, items: seq<Item>)
    requires Plain(f.name) && Plain(f.desc) && WellFormedSub(x)
    ensures Tokens(key, PartEvents(f, x, items)) == PartTokens(f, x, items)
    decreases |items|
  {
    hide Tokens, ItemEvents, ItemTokens, WellFormedSub, Plain;
    if items == [] {
      NoTokens(key);
    } else {
      var a := PartEvents(f, x, Init(items));
      TokensConcat(key, a, ItemEvents(f, x, Final(items)));
      TokensOfPart(key, f, x, Init(items));
      TokensOfItem(LastKey(key, a), f, x, Final(items));
    }
  }

  // ----- what the tokens of a part say -----

  lemma {:induction false} ValuesConcat(a: seq<Token>, b: seq<Token>, k: Keyword)
    ensures Values(a + b, k) == Values(a, k) + Values(b, k)
    decreases |b|
  {
    if b == [] {
      assert a + b == a;
    } else {
      assert Init(a + b) == a + Init(b) && Final(a + b) == Final(b);
      ValuesConcat(a, Init(b), k);
    }
  }

  lemma ValuesOne(t: Token, k: Keyword)
    ensures Values([t], k) == if t.Field? && t.k == k then [t.v] else []
  {
    assert Init([t]) == [] && Values([], k) == [];
  }

  lemma {:induction false} ValuesOfFields(key: Keyword, vs: seq<string>, k: Keyword)
    ensures Values(FieldsOf(key, vs), k) == if k == key then vs else []
    decreases |vs|
  {
    if vs != [] {
      ValuesConcat([Field(key, vs[0])], FieldsOf(key, vs[1..]), k);
      ValuesOne(Field(key, vs[0]), k);
      ValuesOfFields(key, vs[1..], k);
    }
  }

  lemma ValuesOfOption(key: Keyword, v: Option<string>, k: Keyword)
    ensures Values(OptionField(key, v), k) == if k == key && v.Some? then [v.value] else []
  {
    if v.Some? { ValuesOne(Field(key, v.value), k); }
  }

  lemma {:induction false} ValuesOfTables(ts: seq<Table>, k: Keyword)
    requires k != KwTableName && k != KwColNames
    ensures Values(TablesTokens(ts), k) == []
    decreases |ts|
  {
    if ts != [] {
      var t := ts[0];
      ValuesConcat(TableTokens(t), TablesTokens(ts[1..]), k);
      ValuesConcat([Mark(KwTable)] + OptionField(KwTableName, t.name), FieldsOf(KwColNames, t.cols), k);
      ValuesConcat([Mark(KwTable)], OptionField(KwTableName, t.name), k);
      ValuesOne(Mark(KwTable), k);
      ValuesOfOption(KwTableName, t.name, k);
      ValuesOfFields(KwColNames, t.cols, k);
      ValuesOfTables(ts[1..], k);
    }
  }

  /** The item that writes the one value of a keyword, and that value. */
  function Writer(k: Keyword): Option<Item> {
    match k
    case KwFeatureName => Some(FName)
    case KwFeatureDesc => Some(FDesc)
    case KwSubFeatureName => Some(SName)
    case KwSubFeatureDesc => Some(SDesc)
    case KwShowTechAll => Some(All)
    case KwShowTechFeature => Some(Stb)
    case _ => None
  }

  function Wanted(f: Feature, x: SubFeature, it: Item): Option<string> {
    match it
    case FName => f.name
    case FDesc => f.desc
    case SName => x.name
    case SDesc => x.desc
    case All => Some(if x.noStaSupport then "no" else "yes")
    case Stb => Some(if x.supportStb then "yes" else "no")
    case _ => None
  }

  lemma ItemValues(f: Feature, x: SubFeature, it: Item, k: Keyword)
    requires Writer(k).Some?
    ensures Values(ItemTokens(f, x, it), k) ==
      if it == Writer(k).value && Wanted(f, x, it).Some? then [Wanted(f, x, it).value] else []
  {
    hide Values, OptionField, FieldsOf, TablesTokens;
    match it
    case FName => ValuesOfOption(KwFeatureName, f.name, k);
    case FDesc => ValuesOfOption(KwFeatureDesc, f.desc, k);
    case SName => ValuesOfOption(KwSubFeatureName, x.name, k);
    case SDesc => ValuesOfOption(KwSubFeatureDesc, x.desc, k);
    case All => ValuesOne(ItemTokens(f, x, it)[0], k);
    case Stb => ValuesOne(ItemTokens(f, x, it)[0], k);
    case Cmds => ValuesOfFields(KwCliCmds, x.cmds, k);
    case Tables => ValuesOfTables(x.tables, k);
  }

  lemma {:induction false} PartValue(f: Feature, x: SubFeature, items: seq<Item>, k: Keyword)
    requires Writer(k).Some?
    ensures LastOf(Values(PartTokens(f, x, items), k)) ==
      if Writer(k).value in items then Wanted(f, x, Writer(k).value) else None
    decreases |items|
  {
    hide Values, ItemTokens, Writer, Wanted;
    if items == [] {
      NoValues(k);
    } else {
      var a, it := Init(items), Final(items);
      assert items == a + [it];
      PartValue(f, x, a, k);
      ValuesConcat(PartTokens(f, x, a), ItemTokens(f, x, it), k);
      ItemValues(f, x, it, k);
    }
  }

  predicate Once(items: seq<Item>, it: Item) {
    forall i, j :: 0 <= i < j < |items| && items[i] == it ==> items[j] != it
  }

  lemma OnceBefore(items: seq<Item>, it: Item)
    requires items != [] && Once(items, it)
    ensures Once(Init(items), it) && (Final(items) == it ==> it !in Init(items))
    ensures it in items <==> it in Init(items) || Final(items) == it
  {
    assert items == Init(items) + [Final(items)];
  }

  lemma {:induction false} PartCommands(f: Feature, x: SubFeature, items: seq<Item>)
    requires Once(items, Cmds)
    ensures Values(PartTokens(f, x, items), KwCliCmds) == if Cmds in items then x.cmds else []
    decreases |items|
  {
    hide Values, Once, OptionField, FieldsOf, TablesTokens;
    if items == [] {
      NoValues(KwCliCmds);
    } else {
      var a, it := Init(items), Final(items);
      OnceBefore(items, Cmds);
      PartCommands(f, x, a);
      ValuesConcat(PartTokens(f, x, a), ItemTokens(f, x, it), KwCliCmds);
      ItemCommands(f, x, it);
    }
  }

  lemma ItemCommands(f: Feature, x: SubFeature, it: Item)
    ensures Values(ItemTokens(f, x, it), KwCliCmds) == if it == Cmds then x.cmds else []
  {
    hide Values, OptionField, FieldsOf, TablesTokens;
    var k := KwCliCmds;
    match it
    case FName => ValuesOfOption(KwFeatureName, f.name, k);
    case FDesc => ValuesOfOption(KwFeatureDesc, f.desc, k);
    case SName => ValuesOfOption(KwSubFeatureName, x.name, k);
    case SDesc => ValuesOfOption(KwSubFeatureDesc, x.desc, k);
    case All => ValuesOne(ItemTokens(f, x, it)[0], k);
    case Stb => ValuesOne(ItemTokens(f, x, it)[0], k);
    case Cmds => ValuesOfFields(KwCliCmds, x.cmds, k);
    case Tables => ValuesOfTables(x.tables, k);
  }

  // ----- tables -----

  function TablesIn(ts: seq<Token>): seq<Table> {
    ReadTables(Parts(ts, KwTable)[1..])
  }

  predicate TableToken(t: Token) {
    t == Mark(KwTable) || (t.Field? && (t.k == KwTableName || t.k == KwColNames))
  }

  lemma {:induction false} NoTableTokens(a: seq<Token>, b: seq<Token>)
    requires forall t :: t in b ==> !TableToken(t)
    ensures DoneTables(a + b) == DoneTables(a) && LastTable(a + b) == LastTable(a)
    decreases |b|
  {
    hide DoneTables, LastTable;
    if b == [] {
      assert a + b == a;
    } else {
      assert b == Init(b) + [Final(b)] && a + b == (a + Init(b)) + [Final(b)];
      assert Final(b) in b && !TableToken(Final(b));
      assert forall t :: t in Init(b) ==> t in b;
      NoTableTokens(a, Init(b));
      TableField(a + Init(b), Final(b));
      LeavesTables(LastTable(a + Init(b)), Final(b));
    }
  }

  lemma LeavesTables(x: Option<Table>, t: Token)
    requires !TableToken(t)
    ensures !(t.Field? && t.k == KwTableName) && !(t.Field? && t.k == KwColNames) && t != Mark(KwTable)
  {
  }

  lemma {:induction false} Columns(a: seq<Token>, vs: seq<string>)
    requires LastTable(a).Some?
    ensures var b := a + FieldsOf(KwColNames, vs);
      && DoneTables(b) == DoneTables(a)
      && LastTable(b) == Some(LastTable(a).value.(cols := LastTable(a).value.cols + vs))
    decreases |vs|
  {
    hide DoneTables, LastTable;
    if vs == [] {
      assert a + [] == a && LastTable(a).value.cols + vs == LastTable(a).value.cols;
    } else {
      var t := Field(KwColNames, vs[0]);
      TableField(a, t);
      Columns(a + [t], vs[1..]);
      assert a + FieldsOf(KwColNames, vs) == (a + [t]) + FieldsOf(KwColNames, vs[1..]);
      assert LastTable(a).value.cols + vs == (LastTable(a).value.cols + [vs[0]]) + vs[1..];
    }
  }

  lemma AddTable(a: seq<Token>, t: Table)
    ensures var b := a + TableTokens(t); DoneTables(b) == TablesIn(a) && LastTable(b) == Some(t)
  {
    hide DoneTables, LastTable, FieldsOf, TablesIn, Parts, ReadTables;
    var u := a + [Mark(KwTable)];
    TableMarked(a);
    assert DoneTables(u) == TablesIn(a) by { TablesInIs(a); }
    var v := u + OptionField(KwTableName, t.name);
    if t.name.Some? {
      TableField(u, Field(KwTableName, t.name.value));
    } else {
      assert v == u;
    }
    Columns(v, t.cols);
    assert a + TableTokens(t) == v + FieldsOf(KwColNames, t.cols);
    assert [] + t.cols == t.cols;
  }

  lemma TablesInIs(a: seq<Token>)
    ensures TablesIn(a) == ReadTables(Parts(a, KwTable)[1..])
  {
  }

  lemma {:induction false} AddTables(a: seq<Token>, ts: seq<Table>)
    ensures TablesIn(a + TablesTokens(ts)) == TablesIn(a) + ts
    decreases |ts|
  {
    hide DoneTables, LastTable, TableTokens, Parts, ReadTables;
    if ts == [] {
      assert a + [] == a && TablesIn(a) + ts == TablesIn(a);
    } else {
      var b := a + TableTokens(ts[0]);
      AddTable(a, ts[0]);
      TablesAre(b);
      TablesInIs(b);
      AddTables(b, ts[1..]);
      assert a + TablesTokens(ts) == b + TablesTokens(ts[1..]);
      assert TablesIn(a) + ts == (TablesIn(a) + [ts[0]]) + ts[1..];
    }
  }

  lemma NoTables(a: seq<Token>, b: seq<Token>)
    requires forall t :: t in b ==> !TableToken(t)
    ensures TablesIn(a + b) == TablesIn(a)
  {
    hide DoneTables, LastTable;
    NoTableTokens(a, b);
    TablesAre(a);
    TablesAre(a + b);
  }

  lemma {:induction false} FieldsAre(k: Keyword, vs: seq<string>)
    ensures |FieldsOf(k, vs)| == |vs| && forall i :: 0 <= i < |vs| ==> FieldsOf(k, vs)[i] == Field(k, vs[i])
  {
    if vs != [] {
      FieldsAre(k, vs[1..]);
    }
  }

  lemma {:induction false} PartTables(f: Feature, x: SubFeature, items: seq<Item>)
    requires Once(items, Tables)
    ensures TablesIn(PartTokens(f, x, items)) == if Tables in items then x.tables else []
    decreases |items|
  {
    hide TablesIn, Once, TablesTokens;
    if items == [] {
      NoTablesYet();
    } else {
      var a, it := Init(items), Final(items);
      OnceBefore(items, Tables);
      PartTables(f, x, a);
      if it == Tables {
        AddTables(PartTokens(f, x, a), x.tables);
        assert [] + x.tables == x.tables;
      } else {
        FieldsAre(KwCliCmds, x.cmds);
        NoTables(PartTokens(f, x, a), ItemTokens(f, x, it));
      }
    }
  }

  lemma NoTablesYet()
    ensures TablesIn([]) == []
  {
  }

  /** The part of a sub-feature says that sub-feature. */
  lemma PartSays(f: Feature, x: SubFeature, items: seq<Item>)
    requires Complete(x, items)
    ensures ReadSub(PartTokens(f, x, items), x.isDummy) == x
  {
    hide Values, PartTokens, Parts, ReadTables;
    PartValue(f, x, items, KwSubFeatureName);
    PartValue(f, x, items, KwSubFeatureDesc);
    PartValue(f, x, items, KwShowTechAll);
    PartValue(f, x, items, KwShowTechFeature);
    PartCommands(f, x, items);
    PartTables(f, x, items);
    TablesInIs(PartTokens(f, x, items));
    assert IsYes("yes") && !IsYes("no");
  }

  // ----- what the tokens of a feature say -----

  function NamedTokens(f: Feature, xs: seq<SubFeature>, layout: seq<seq<Item>>): seq<Token>
    requires |xs| == |layout|
    decreases |xs|
  {
    if xs == [] then []
    else NamedTokens(f, Init(xs), Init(layout)) + [Mark(KwSubFeature)] + PartTokens(f, Final(xs), Final(layout))
  }

  /** The tokens of a feature after its keyword. */
  function BodyTokens(f: Feature, layout: seq<seq<Item>>): seq<Token>
    requires |layout| == |Named(f)| + 1
  {
    PartTokens(f, FirstSub(f), layout[0]) + NamedTokens(f, Named(f), layout[1..])
  }

  /** No mark of that kind. */
  predicate Free(ts: seq<Token>, k: Keyword) {
    forall t :: t in ts ==> t != Mark(k)
  }

  lemma {:induction false} FreeTables(ts: seq<Table>, k: Keyword)
    requires k != KwTable
    ensures Free(TablesTokens(ts), k)
    decreases |ts|
  {
    if ts != [] {
      FieldsAre(KwColNames, ts[0].cols);
      FreeTables(ts[1..], k);
    }
  }

  lemma FreeItem(f: Feature, x: SubFeature, it: Item, k: Keyword)
    requires k != KwTable
    ensures Free(ItemTokens(f, x, it), k)
  {
    FieldsAre(KwCliCmds, x.cmds);
    FreeTables(x.tables, k);
  }

  lemma {:induction false} FreePart(f: Feature, x: SubFeature, items: seq<Item>, k: Keyword)
    requires k != KwTable
    ensures Free(PartTokens(f, x, items), k)
    decreases |items|
  {
    hide ItemTokens;
    if items != [] {
      FreePart(f, x, Init(items), k);
      FreeItem(f, x, Final(items), k);
    }
  }

  lemma {:induction false} FreeNamed(f: Feature, xs: seq<SubFeature>, layout: seq<seq<Item>>)
    requires |xs| == |layout|
    ensures Free(NamedTokens(f, xs, layout), KwFeature)
    decreases |xs|
  {
    hide PartTokens;
    if xs != [] {
      FreeNamed(f, Init(xs), Init(layout));
      FreePart(f, Final(xs), Final(layout), KwFeature);
    }
  }

  lemma {:induction false} PartsConcat(a: seq<Token>, b: seq<Token>, k: Keyword)
    requires Free(b, k)
    ensures Parts(a + b, k) == Init(Parts(a, k)) + [Final(Parts(a, k)) + b]
    decreases |b|
  {
    hide Parts;
    var ps := Parts(a, k);
    if b == [] {
      assert a + b == a && Final(ps) + b == Final(ps) && Init(ps) + [Final(ps)] == ps;
    } else {
      var c := Init(b);
      assert b == c + [Final(b)] && Final(b) in b && forall t :: t in c ==> t in b;
      PartsConcat(a, c, k);
      PartsMore(a + c, Final(b), k);
      assert (a + c) + [Final(b)] == a + b;
      Extended(ps, c, Final(b));
    }
  }

  lemma Extended(ps: seq<seq<Token>>, c: seq<Token>, t: Token)
    requires ps != []
    ensures var qs := Init(ps) + [Final(ps) + c];
      Init(qs) + [Final(qs) + [t]] == Init(ps) + [Final(ps) + (c + [t])]
  {
    assert Init(Init(ps) + [Final(ps) + c]) == Init(ps);
    assert (Final(ps) + c) + [t] == Final(ps) + (c + [t]);
  }

  lemma PartsMarked(a: seq<Token>, b: seq<Token>, k: Keyword)
    requires Free(b, k)
    ensures Parts(a + [Mark(k)] + b, k) == Parts(a, k) + [b]
  {
    var ps := Parts(a, k);
    PartsMore(a, Mark(k), k);
    PartsConcat(a + [Mark(k)], b, k);
    assert Init(ps + [[]]) == ps && [] + b == b;
  }

  lemma PartsOfOne(b: seq<Token>, k: Keyword)
    requires Free(b, k)
    ensures Parts(b, k) == [b]
  {
    PartsConcat([], b, k);
    NoValues(k);
    var none: seq<seq<Token>> := [[]];
    assert [] + b == b && Init(none) == [] && [] + [b] == [b];
  }

  lemma {:induction false} NamedParts(f: Feature, a: seq<Token>, xs: seq<SubFeature>, layout: seq<seq<Item>>)
    requires |xs| == |layout| && Free(a, KwSubFeature)
    requires forall i :: 0 <= i < |xs| ==> Complete(xs[i], layout[i]) && !xs[i].isDummy
    ensures var ps := Parts(a + NamedTokens(f, xs, layout), KwSubFeature);
      ps[0] == a && ReadSubs(ps[1..]) == xs
    decreases |xs|
  {
    hide PartTokens, Complete, ReadSub, Parts, ReadSubs;
    if xs == [] {
      PartsOfOne(a, KwSubFeature);
      assert a + [] == a && [a][1..] == [] && ReadSubs([]) == [];
    } else {
      var rest, p := NamedTokens(f, Init(xs), Init(layout)), PartTokens(f, Final(xs), Final(layout));
      NamedParts(f, a, Init(xs), Init(layout));
      FreePart(f, Final(xs), Final(layout), KwSubFeature);
      PartsMarked(a + rest, p, KwSubFeature);
      assert (a + rest) + [Mark(KwSubFeature)] + p == a + NamedTokens(f, xs, layout);
      var ps := Parts(a + rest, KwSubFeature);
      assert (ps + [p])[1..] == ps[1..] + [p];
      ReadSubsMore(ps[1..], p);
      PartSays(f, Final(xs), Final(layout));
      assert xs == Init(xs) + [Final(xs)];
    }
  }

  /** A field of the feature, wherever it stands. */
  lemma {:induction false} NamedValue(f: Feature, xs: seq<SubFeature>, layout: seq<seq<Item>>, k: Keyword)
    requires |xs| == |layout| && (k == KwFeatureName || k == KwFeatureDesc)
    ensures LastOf(Values(NamedTokens(f, xs, layout), k)) ==
      if exists items :: items in layout && Writer(k).value in items
      then (if k == KwFeatureName then f.name else f.desc) else None
    decreases |xs|
  {
    hide PartTokens, Values;
    if xs == [] {
      NoValues(k);
    } else {
      var a, p := NamedTokens(f, Init(xs), Init(layout)), PartTokens(f, Final(xs), Final(layout));
      NamedValue(f, Init(xs), Init(layout), k);
      PartValue(f, Final(xs), Final(layout), k);
      ValuesConcat(a + [Mark(KwSubFeature)], p, k);
      ValuesConcat(a, [Mark(KwSubFeature)], k);
      ValuesOne(Mark(KwSubFeature), k);
      assert layout == Init(layout) + [Final(layout)];
    }
  }

  lemma HasAttributeIs(f: Feature, x: SubFeature, items: seq<Item>)
    ensures HasAttribute(PartTokens(f, x, items)) <==> exists it :: it in items && WritesAttribute(x, it)
    decreases |items|
  {
    hide ItemTokens, WritesAttribute, HasAttribute;
    if items == [] {
      NoAttribute();
    } else {
      HasAttributeIs(f, x, Init(items));
      assert items == Init(items) + [Final(items)];
      ItemAttribute(f, x, Final(items));
      EitherAttribute(PartTokens(f, x, Init(items)), ItemTokens(f, x, Final(items)));
    }
  }

  lemma NoAttribute()
    ensures !HasAttribute([])
  {
  }

  lemma EitherAttribute(a: seq<Token>, b: seq<Token>)
    ensures HasAttribute(a + b) <==> HasAttribute(a) || HasAttribute(b)
  {
    hide Attribute;
    if HasAttribute(a) {
      var t :| t in a && Attribute(t);
      assert t in a + b;
    }
    if HasAttribute(b) {
      var t :| t in b && Attribute(t);
      assert t in a + b;
    }
  }

  lemma ItemAttribute(f: Feature, x: SubFeature, it: Item)
    ensures HasAttribute(ItemTokens(f, x, it)) <==> WritesAttribute(x, it)
  {
    FieldsAre(KwCliCmds, x.cmds);
    if it == All || it == Stb {
      assert ItemTokens(f, x, it)[0] in ItemTokens(f, x, it);
    }
    if it == Cmds && x.cmds != [] {
      assert FieldsOf(KwCliCmds, x.cmds)[0] in FieldsOf(KwCliCmds, x.cmds);
    }
    if it == Tables && x.tables != [] {
      assert TablesTokens(x.tables)[0] == Mark(KwTable);
      assert TablesTokens(x.tables)[0] in TablesTokens(x.tables);
    }
  }

  /** The tokens of a feature after its keyword say that feature. */
  lemma FeatureSays(f: Feature, layout: seq<seq<Item>>)
    requires LayoutOk(f, layout) && WellFormedFeature(f)
    ensures ReadFeature(BodyTokens(f, layout)) == f
  {
    hide PartTokens, NamedTokens, Values, Parts, ReadSubs, ReadSub, Complete, HasAttribute, AttributeFirst;
    hide WellFormedSub, Plain, WritesAttribute;
    var x, p, rest := FirstSub(f), PartTokens(f, FirstSub(f), layout[0]), NamedTokens(f, Named(f), layout[1..]);
    FreePart(f, x, layout[0], KwSubFeature);
    NamedParts(f, p, Named(f), layout[1..]);
    BodyValue(f, layout, KwFeatureName);
    BodyValue(f, layout, KwFeatureDesc);
    HasAttributeIs(f, x, layout[0]);
    if BeginsWithDummy(f) {
      PartSays(f, x, layout[0]);
      assert f.subs == [f.subs[0]] + f.subs[1..];
    } else {
      NeitherWrites(x);
      assert [] + f.subs == f.subs;
    }
  }

  lemma NeitherWrites(x: SubFeature)
    ensures !WritesAttribute(x, FName) && !WritesAttribute(x, FDesc)
  {
  }

  lemma BodyValue(f: Feature, layout: seq<seq<Item>>, k: Keyword)
    requires LayoutOk(f, layout) && (k == KwFeatureName || k == KwFeatureDesc)
    ensures LastOf(Values(BodyTokens(f, layout), k)) == if k == KwFeatureName then f.name else f.desc
  {
    hide PartTokens, NamedTokens, Values, FirstPartOk, Complete;
    var p, rest := PartTokens(f, FirstSub(f), layout[0]), NamedTokens(f, Named(f), layout[1..]);
    ValuesConcat(p, rest, k);
    PartValue(f, FirstSub(f), layout[0], k);
    NamedValue(f, Named(f), layout[1..], k);
    assert layout == [layout[0]] + layout[1..];
  }

  function FeatureTokens(f: Feature, layout: seq<seq<Item>>): seq<Token>
    requires |layout| == |Named(f)| + 1
  {
    [Mark(KwFeature)] + BodyTokens(f, layout)
  }

  predicate LayoutsOk(t: seq<Feature>, layouts: seq<seq<seq<Item>>>) {
    |t| == |layouts| && forall i :: 0 <= i < |t| ==> LayoutOk(t[i], layouts[i])
  }

  lemma LastLayout(t: seq<Feature>, layouts: seq<seq<seq<Item>>>)
    requires LayoutsOk(t, layouts) && t != []
    ensures LayoutsOk(Init(t), Init(layouts)) && LayoutOk(Final(t), Final(layouts))
  {
    hide LayoutOk;
  }

  function TreeTokens(t: seq<Feature>, layouts: seq<seq<seq<Item>>>): seq<Token>
    requires LayoutsOk(t, layouts)
    decreases |t|
  {
    if t == [] then []
    else
      LastLayout(t, layouts);
      TreeTokens(Init(t), Init(layouts)) + FeatureTokens(Final(t), Final(layouts))
  }

  lemma {:induction false} TreeSays(t: seq<Feature>, layouts: seq<seq<seq<Item>>>)
    requires LayoutsOk(t, layouts) && WellFormed(t)
    ensures var ps := Parts(TreeTokens(t, layouts), KwFeature); ReadFeatures(ps[1..]) == t
    decreases |t|
  {
    hide LayoutOk, WellFormedFeature, BodyTokens, Parts, ReadFeatures, ReadFeature;
    if t == [] {
      NoValues(KwFeature);
    } else {
      var f, l := Final(t), Final(layouts);
      assert t == Init(t) + [f] && f in t && LayoutOk(f, l);
      var a, b := TreeTokens(Init(t), Init(layouts)), BodyTokens(f, l);
      TreeSays(Init(t), Init(layouts));
      FreeBody(f, l);
      PartsMarked(a, b, KwFeature);
      assert a + [Mark(KwFeature)] + b == a + FeatureTokens(f, l);
      var ps := Parts(a, KwFeature);
      assert (ps + [b])[1..] == ps[1..] + [b];
      ReadFeaturesMore(ps[1..], b);
      FeatureSays(f, l);
    }
  }

  lemma FreeBody(f: Feature, layout: seq<seq<Item>>)
    requires |layout| == |Named(f)| + 1
    ensures Free(BodyTokens(f, layout), KwFeature)
  {
    FreePart(f, FirstSub(f), layout[0], KwFeature);
    FreeNamed(f, Named(f), layout[1..]);
  }

  // ----- every token of what is written has a place -----

  predicate SubOpen(ts: seq<Token>) {
    Mark(KwSubFeature) in Current(ts) || HasAttribute(Current(ts))
  }

  /** All tokens so far have places, inside a feature and, if open, inside a sub-feature of it. */
  predicate Placed(ts: seq<Token>, open: bool) {
    AllHavePlaces(ts) && Mark(KwFeature) in ts && (open ==> SubOpen(ts))
  }

  lemma OpenMore(ts: seq<Token>, t: Token)
    requires t != Mark(KwFeature)
    ensures SubOpen(ts + [t]) <==> SubOpen(ts) || t == Mark(KwSubFeature) || Attribute(t)
    ensures t != Mark(KwSubFeature) ==> Open(ts + [t]) == Open(ts) + [t]
  {
    hide HasAttribute, Attribute;
    CurrentMore(ts, t);
    AttributeMore(Current(ts), t);
    PartsMore(Current(ts), t, KwSubFeature);
  }

  lemma AddToken(ts: seq<Token>, t: Token, open: bool)
    requires Placed(ts, open) && HasPlace(ts, t) && t != Mark(KwFeature)
    ensures Placed(ts + [t], open || t == Mark(KwSubFeature) || Attribute(t))
  {
    hide HasPlace, AllHavePlaces, SubOpen, Attribute;
    PlacesMore(ts, t);
    OpenMore(ts, t);
  }

  lemma {:induction false} AddFields(ts: seq<Token>, k: Keyword, vs: seq<string>, open: bool)
    requires Placed(ts, open)
    requires k == KwCliCmds || (k == KwColNames && Mark(KwTable) in Open(ts))
    requires k == KwCliCmds ==> forall v :: v in vs ==> !IsShowTech(v)
    ensures Placed(ts + FieldsOf(k, vs), open || (k == KwCliCmds && vs != []))
    decreases |vs|
  {
    hide AllHavePlaces, SubOpen, IsShowTech, Open, Current, Placed;
    if vs == [] {
      assert ts + [] == ts;
    } else {
      var t := Field(k, vs[0]);
      assert vs[0] in vs && HasPlace(ts, t);
      AddToken(ts, t, open);
      OpenMore(ts, t);
      AddFields(ts + [t], k, vs[1..], open || k == KwCliCmds);
      assert ts + FieldsOf(k, vs) == (ts + [t]) + FieldsOf(k, vs[1..]);
    }
  }

  lemma InFeature(ts: seq<Token>, open: bool)
    requires Placed(ts, open)
    ensures HasPlace(ts, Mark(KwTable)) && HasPlace(ts, Mark(KwSubFeature))
  {
  }

  lemma AddTableTokens(ts: seq<Token>, t: Table, open: bool)
    requires Placed(ts, open)
    ensures Placed(ts + TableTokens(t), true)
  {
    hide AllHavePlaces, SubOpen, Open, Current, Placed, FieldsOf;
    var m := Mark(KwTable);
    InFeature(ts, open);
    AddToken(ts, m, open);
    OpenMore(ts, m);
    var u := ts + [m];
    var v := u + OptionField(KwTableName, t.name);
    if t.name.Some? {
      AddToken(u, Field(KwTableName, t.name.value), true);
      OpenMore(u, Field(KwTableName, t.name.value));
    } else {
      assert v == u;
    }
    AddFields(v, KwColNames, t.cols, true);
    assert ts + TableTokens(t) == v + FieldsOf(KwColNames, t.cols);
  }

  lemma {:induction false} AddTablesTokens(ts: seq<Token>, xs: seq<Table>, open: bool)
    requires Placed(ts, open)
    ensures Placed(ts + TablesTokens(xs), open || xs != [])
    decreases |xs|
  {
    hide Placed, TableTokens;
    if xs == [] {
      assert ts + [] == ts;
    } else {
      AddTableTokens(ts, xs[0], open);
      AddTablesTokens(ts + TableTokens(xs[0]), xs[1..], true);
      assert ts + TablesTokens(xs) == (ts + TableTokens(xs[0])) + TablesTokens(xs[1..]);
    }
  }

  lemma AddOption(ts: seq<Token>, k: Keyword, v: Option<string>, open: bool)
    requires Placed(ts, open)
    requires k == KwFeatureName || k == KwFeatureDesc || (open && (k == KwSubFeatureName || k == KwSubFeatureDesc))
    ensures Placed(ts + OptionField(k, v), open)
  {
    if v.Some? {
      SubPlace(ts, k, v.value, open);
      AddToken(ts, Field(k, v.value), open);
    } else {
      assert ts + [] == ts;
    }
  }

  lemma SubPlace(ts: seq<Token>, k: Keyword, v: string, open: bool)
    requires Placed(ts, open)
    requires k == KwFeatureName || k == KwFeatureDesc || (open && (k == KwSubFeatureName || k == KwSubFeatureDesc))
    ensures HasPlace(ts, Field(k, v))
  {
  }

  lemma AddItem(ts: seq<Token>, f: Feature, x: SubFeature, it: Item, open: bool)
    requires Placed(ts, open) && WellFormedSub(x) && ((it == SName || it == SDesc) ==> open)
    ensures Placed(ts + ItemTokens(f, x, it), open || WritesAttribute(x, it))
  {
    hide Placed, IsShowTech, KeywordOf, TablesTokens, FieldsOf;
    match it
    case FName => AddOption(ts, KwFeatureName, f.name, open);
    case FDesc => AddOption(ts, KwFeatureDesc, f.desc, open);
    case SName => AddOption(ts, KwSubFeatureName, x.name, open);
    case SDesc => AddOption(ts, KwSubFeatureDesc, x.desc, open);
    case All => AddToken(ts, ItemTokens(f, x, it)[0], open);
    case Stb => AddToken(ts, ItemTokens(f, x, it)[0], open);
    case Cmds => AddFields(ts, KwCliCmds, x.cmds, open);
    case Tables => AddTablesTokens(ts, x.tables, open);
  }

  /** Names and descriptions stand where there is a sub-feature already. */
  predicate NamesLater(x: SubFeature, items: seq<Item>, open: bool) {
    open || AttributeFirst(x, items)
  }

  lemma AttributeBefore(x: SubFeature, items: seq<Item>)
    requires items != [] && AttributeFirst(x, items)
    ensures AttributeFirst(x, Init(items))
    ensures Final(items) == SName || Final(items) == SDesc ==> exists it :: it in Init(items) && WritesAttribute(x, it)
  {
    hide WritesAttribute;
    var a := Init(items);
    forall i | 0 <= i < |a| && (a[i] == SName || a[i] == SDesc) ensures exists j ::
      0 <= j < i && WritesAttribute(x, a[j]) {
      assert items[i] == a[i];
      var j :| 0 <= j < i && WritesAttribute(x, items[j]);
      assert a[j] == items[j];
    }
    if Final(items) == SName || Final(items) == SDesc {
      var j :| 0 <= j < |items| - 1 && WritesAttribute(x, items[j]);
      assert a[j] == items[j] && a[j] in a;
    }
  }

  lemma {:induction false} AddPart(ts: seq<Token>, f: Feature, x: SubFeature, items: seq<Item>, open: bool)
    requires Placed(ts, open) && WellFormedSub(x) && NamesLater(x, items, open)
    ensures Placed(ts + PartTokens(f, x, items), open || exists it :: it in items && WritesAttribute(x, it))
    decreases |items|
  {
    hide Placed, ItemTokens, WritesAttribute, AttributeFirst, WellFormedSub;
    if items == [] {
      assert ts + [] == ts;
    } else {
      var a, it := Init(items), Final(items);
      assert items == a + [it];
      if AttributeFirst(x, items) { AttributeBefore(x, items); }
      AddPart(ts, f, x, a, open);
      var now := open || exists u :: u in a && WritesAttribute(x, u);
      AddItem(ts + PartTokens(f, x, a), f, x, it, now);
      assert ts + PartTokens(f, x, items) == (ts + PartTokens(f, x, a)) + ItemTokens(f, x, it);
    }
  }

  lemma {:induction false} AddNamed(ts: seq<Token>, f: Feature, xs: seq<SubFeature>, layout: seq<seq<Item>>)
    requires Placed(ts, false) && |xs| == |layout| && forall x :: x in xs ==> WellFormedSub(x)
    ensures Placed(ts + NamedTokens(f, xs, layout), false)
    decreases |xs|
  {
    hide Placed, PartTokens, WellFormedSub;
    if xs == [] {
      assert ts + [] == ts;
    } else {
      var a, x, p := NamedTokens(f, Init(xs), Init(layout)), Final(xs), Final(layout);
      assert xs == Init(xs) + [x] && x in xs;
      AddNamed(ts, f, Init(xs), Init(layout));
      InFeature(ts + a, false);
      AddToken(ts + a, Mark(KwSubFeature), false);
      AddPart((ts + a) + [Mark(KwSubFeature)], f, x, p, true);
      assert ts + NamedTokens(f, xs, layout) == ((ts + a) + [Mark(KwSubFeature)]) + PartTokens(f, x, p);
      NoLonger(ts + NamedTokens(f, xs, layout));
    }
  }

  lemma NoLonger(ts: seq<Token>)
    requires Placed(ts, true)
    ensures Placed(ts, false)
  {
  }

  lemma AddFeature(ts: seq<Token>, f: Feature, layout: seq<seq<Item>>)
    requires AllHavePlaces(ts) && LayoutOk(f, layout) && WellFormedFeature(f)
    ensures AllHavePlaces(ts + FeatureTokens(f, layout))
  {
    hide HasPlace, AllHavePlaces, PartTokens, NamedTokens, Placed, WellFormedSub, Complete, WritesAttribute,
      AttributeFirst;
    var m, x, p, rest :=
      Mark(KwFeature), FirstSub(f), PartTokens(f, FirstSub(f), layout[0]), NamedTokens(f, Named(f), layout[1..]);
    PlacesMore(ts, m);
    FeaturePlace(ts);
    var u := ts + [m];
    EmptyIsWellFormed();
    FirstPartNames(f, layout);
    AddPart(u, f, x, layout[0], false);
    if exists it :: it in layout[0] && WritesAttribute(x, it) { NoLonger(u + p); }
    AddNamed(u + p, f, Named(f), layout[1..]);
    assert ts + FeatureTokens(f, layout) == (u + p) + rest;
    PlacedAll((u + p) + rest);
  }

  lemma FeaturePlace(ts: seq<Token>)
    ensures HasPlace(ts, Mark(KwFeature))
    ensures AllHavePlaces(ts + [Mark(KwFeature)]) ==> Placed(ts + [Mark(KwFeature)], false)
  {
  }

  lemma PlacedAll(ts: seq<Token>)
    requires Placed(ts, false)
    ensures AllHavePlaces(ts)
  {
  }

  lemma EmptyIsWellFormed()
    ensures WellFormedSub(EMPTY_SUB.(isDummy := true))
  {
  }

  lemma FirstPartNames(f: Feature, layout: seq<seq<Item>>)
    requires LayoutOk(f, layout)
    ensures NamesLater(FirstSub(f), layout[0], false)
  {
    hide Complete, WritesAttribute;
    if !BeginsWithDummy(f) {
      forall i | 0 <= i < |layout[0]| ensures layout[0][i] != SName && layout[0][i] != SDesc {
        assert layout[0][i] in layout[0];
      }
    }
  }

  lemma {:induction false} TreePlaced(t: seq<Feature>, layouts: seq<seq<seq<Item>>>)
    requires LayoutsOk(t, layouts) && WellFormed(t)
    ensures AllHavePlaces(TreeTokens(t, layouts))
    decreases |t|
  {
    hide LayoutOk, WellFormedFeature, FeatureTokens, HasPlace;
    if t != [] {
      var f, l := Final(t), Final(layouts);
      assert t == Init(t) + [f] && f in t && LayoutOk(f, l);
      TreePlaced(Init(t), Init(layouts));
      AddFeature(TreeTokens(Init(t), Init(layouts)), f, l);
    }
  }

  // ----- the round trip -----

  lemma {:induction false} TokensOfNamed(key: Keyword, f: Feature, xs: seq<SubFeature>, layout: seq<seq<Item>>)
    requires |xs| == |layout| && Plain(f.name) && Plain(f.desc) && forall x :: x in xs ==> WellFormedSub(x)
    ensures Tokens(key, NamedEvents(f, xs, layout)) == NamedTokens(f, xs, layout)
    decreases |xs|
  {
    hide Tokens, PartEvents, PartTokens, WellFormedSub, Plain, LastKey;
    if xs == [] {
      NoTokens(key);
    } else {
      var a, x, p := NamedEvents(f, Init(xs), Init(layout)), Final(xs), Final(layout);
      assert xs == Init(xs) + [x] && x in xs;
      var b := [Word(KwSubFeature)] + PartEvents(f, x, p);
      assert NamedEvents(f, xs, layout) == a + b;
      TokensConcat(key, a, b);
      TokensOfNamed(key, f, Init(xs), Init(layout));
      TokensOfWord(LastKey(key, a), KwSubFeature, PartEvents(f, x, p));
      TokensOfPart(KwSubFeature, f, x, p);
      assert NamedTokens(f, xs, layout) ==
        NamedTokens(f, Init(xs), Init(layout)) + ([Mark(KwSubFeature)] + PartTokens(f, x, p));
    }
  }

  lemma TokensOfFeature(key: Keyword, f: Feature, layout: seq<seq<Item>>)
    requires |layout| == |Named(f)| + 1 && WellFormedFeature(f)
    ensures Tokens(key, FeatureEvents(f, layout)) == FeatureTokens(f, layout)
  {
    hide Tokens, PartEvents, PartTokens, WellFormedSub, Plain, LastKey, NamedEvents, NamedTokens;
    var x, rest := FirstSub(f), NamedEvents(f, Named(f), layout[1..]);
    var p := PartEvents(f, x, layout[0]);
    EmptyIsWellFormed();
    assert FeatureEvents(f, layout) == [Word(KwFeature)] + (p + rest);
    TokensOfWord(key, KwFeature, p + rest);
    TokensConcat(KwFeature, p, rest);
    TokensOfPart(KwFeature, f, x, layout[0]);
    TokensOfNamed(LastKey(KwFeature, p), f, Named(f), layout[1..]);
  }

  /** The events of a tree in some layout. */
  function Written(t: seq<Feature>, layouts: seq<seq<seq<Item>>>): seq<Event>
    requires LayoutsOk(t, layouts)
    decreases |t|
  {
    if t == [] then []
    else
      LastLayout(t, layouts);
      Written(Init(t), Init(layouts)) + FeatureEvents(Final(t), Final(layouts))
  }

  lemma {:induction false} TokensOfTree(key: Keyword, t: seq<Feature>, layouts: seq<seq<seq<Item>>>)
    requires LayoutsOk(t, layouts) && WellFormed(t)
    ensures Tokens(key, Written(t, layouts)) == TreeTokens(t, layouts)
    decreases |t|
  {
    hide Tokens, FeatureEvents, FeatureTokens, LayoutOk, WellFormedFeature, LastKey;
    if t == [] {
      NoTokens(key);
    } else {
      var f, l := Final(t), Final(layouts);
      assert t == Init(t) + [f] && f in t && LayoutOk(f, l);
      var a := Written(Init(t), Init(layouts));
      TokensConcat(key, a, FeatureEvents(f, l));
      TokensOfTree(key, Init(t), Init(layouts));
      TokensOfFeature(LastKey(key, a), f, l);
    }
  }

  /** A tree written down in any layout parses to that tree, whatever structure events stand between. */
  lemma {:induction false} AnyLayout(t: seq<Feature>, layouts: seq<seq<seq<Item>>>, es: seq<Event>)
    requires LayoutsOk(t, layouts) && WellFormed(t) && Meaningful(es) == Written(t, layouts)
    ensures Parse(es) == t && !Run(INITIAL, es).failed
  {
    hide LayoutsOk, WellFormed, Written, Tokens, AllHavePlaces, Read, Run, Meaningful, TreeTokens;
    RunMeaningful(INITIAL, es);
    var ws := Written(t, layouts);
    TokensOfTree(KwFeature, t, layouts);
    TreePlaced(t, layouts);
    TreeRead(t, layouts);
    RejectedExactly(ws);
    ParseIsRead(ws);
  }

  lemma TreeRead(t: seq<Feature>, layouts: seq<seq<seq<Item>>>)
    requires LayoutsOk(t, layouts) && WellFormed(t)
    ensures Read(TreeTokens(t, layouts)) == t
  {
    TreeSays(t, layouts);
  }

  const FULL := [FName, FDesc, All, Stb, Cmds, Tables, SName, SDesc]

  /** Every well-formed feature can be written down. */
  lemma SomeLayout(f: Feature) returns (layout: seq<seq<Item>>)
    requires WellFormedFeature(f)
    ensures LayoutOk(f, layout)
  {
    hide WellFormedSub;
    var first := if BeginsWithDummy(f) then FULL else [FName, FDesc];
    layout := [first] + seq(|Named(f)|, _ => FULL);
    assert FULL[0] == FName && FULL[1] == FDesc && FULL[2] == All && FULL[3] == Stb && FULL[4] == Cmds &&
      FULL[5] == Tables;
    assert FULL[6] == SName && FULL[7] == SDesc;
    assert first in layout && first[0] == FName && first[1] == FDesc;
    forall x: SubFeature ensures Complete(x, FULL) && AttributeFirst(x, FULL) && WritesAttribute(x, FULL[2]) {
    }
  }

  // ----- a file -----

  const NTP := Feature(Some("NTP"), Some("TIME"), [EMPTY_SUB.(isDummy := true, cmds := ["CMD 1", "CMD 2"])])

  const NTP_FILE := [
    Scalar("feature"), Scalar("feature_desc"), Scalar("TIME"), Scalar("feature_name"), Scalar("NTP"),
    Scalar("cli_cmds"), Scalar("CMD 1"), Scalar("CMD 2")]

  const LAG := Feature(Some("LAG"), None, [
    SubFeature(Some("SUB"), Some("TEXT"), true, true, false, ["CMD 3"], [Table(Some("TAB"), ["COL"])])])

  const LAG_FILE := [
    Scalar("feature"), Scalar("feature_name"), Scalar("LAG"),
    Scalar("sub_feature"), Scalar("sub_feature_name"), Scalar("SUB"), Scalar("sub_feature_desc"), Scalar("TEXT"),
    Scalar("support_showtech_all"), Scalar("no"), Scalar("support_showtech_feature"), Scalar("yes"),
    Scalar("cli_cmds"), Scalar("CMD 3"),
    Scalar("ovsdb"), Scalar("table"), Scalar("table_name"), Scalar("TAB"), Scalar("col_names"), Scalar("COL")]

  /** A file in the usual order parses to what it describes. */
  lemma {:induction false} FileExample()
    ensures Parse(NTP_FILE + LAG_FILE) == [NTP, LAG]
  {
    hide LayoutsOk, LayoutOk, WellFormedFeature, FeatureEvents, Parse, Run;
    var a, b := [[FDesc, FName, Cmds]], [[FName], [SName, SDesc, All, Stb, Cmds, Tables]];
    var t, ls := [NTP, LAG], [a, b];
    NtpLayout(a);
    LagLayout(b);
    assert LayoutsOk(t, ls) && WellFormed(t) by { TwoFeatures(a, b); }
    NtpEvents(a);
    LagEvents(b);
    WrittenTwo(a, b);
    NoStructure();
    AnyLayout(t, ls, NTP_FILE + LAG_FILE);
  }

  lemma TwoFeatures(a: seq<seq<Item>>, b: seq<seq<Item>>)
    requires LayoutOk(NTP, a) && LayoutOk(LAG, b) && WellFormedFeature(NTP) && WellFormedFeature(LAG)
    ensures LayoutsOk([NTP, LAG], [a, b]) && WellFormed([NTP, LAG])
  {
    hide LayoutOk, WellFormedFeature;
  }

  lemma WrittenTwo(a: seq<seq<Item>>, b: seq<seq<Item>>)
    requires LayoutOk(NTP, a) && LayoutOk(LAG, b) && LayoutsOk([NTP, LAG], [a, b])
    ensures Written([NTP, LAG], [a, b]) == FeatureEvents(NTP, a) + FeatureEvents(LAG, b)
  {
    hide LayoutOk, FeatureEvents;
    assert Init([NTP, LAG]) == [NTP] && Init([a, b]) == [a] && Init([NTP]) == [] && Init([a]) == [];
    var none: seq<Event> := [];
    assert Written([NTP], [a]) == none + FeatureEvents(NTP, a) == FeatureEvents(NTP, a);
  }

  /** Capitals begin no keyword. */
  lemma Capital(v: string)
    requires v != [] && 'A' <= v[0] <= 'Z'
    ensures KeywordOf(v) == Value
  {
    FirstLetters();
    NotAKeyword(v, 0);
  }

  lemma FirstLetters()
    ensures forall i :: 0 <= i < |KEYSTR| ==> |KEYSTR[i]| > 0 && 'a' <= KEYSTR[i][0] <= 'z'
  {
  }

  lemma NtpLayout(a: seq<seq<Item>>)
    requires a == [[FDesc, FName, Cmds]]
    ensures LayoutOk(NTP, a) && WellFormedFeature(NTP)
  {
    hide KeywordOf, IsShowTech;
    Capital("NTP");
    Capital("TIME");
    Capital("CMD 1");
    Capital("CMD 2");
    ShortIsFine("CMD 1");
    ShortIsFine("CMD 2");
    var x := NTP.subs[0];
    assert a[0][0] == FDesc && a[0][1] == FName && a[0][2] == Cmds && WritesAttribute(x, a[0][2]);
    assert a[0][2] in a[0] && FName in a[0] && FDesc in a[0] && a[0] in a && Named(NTP) == [];
    assert "CMD 1" in x.cmds && "CMD 2" in x.cmds;
  }

  lemma LagLayout(b: seq<seq<Item>>)
    requires b == [[FName], [SName, SDesc, All, Stb, Cmds, Tables]]
    ensures LayoutOk(LAG, b) && WellFormedFeature(LAG)
  {
    LagWellFormed();
    hide WellFormedFeature;
    assert b[0][0] == FName && b[1][0] == SName && b[1][1] == SDesc && b[1][2] == All && b[1][3] == Stb;
    assert b[1][4] == Cmds && b[1][5] == Tables && FName in b[0] && b[0] in b;
  }

  lemma LagWellFormed()
    ensures WellFormedFeature(LAG)
  {
    hide KeywordOf, IsShowTech;
    Capital("LAG");
    Capital("SUB");
    Capital("TEXT");
    Capital("CMD 3");
    Capital("TAB");
    Capital("COL");
    ShortIsFine("CMD 3");
  }

  lemma {:induction false} PartEventsMore(f: Feature, x: SubFeature, items: seq<Item>, it: Item)
    ensures PartEvents(f, x, items + [it]) == PartEvents(f, x, items) + ItemEvents(f, x, it)
  {
    assert Init(items + [it]) == items && Final(items + [it]) == it;
  }

  lemma NtpEvents(a: seq<seq<Item>>)
    requires a == [[FDesc, FName, Cmds]] && |a| == |Named(NTP)| + 1
    ensures FeatureEvents(NTP, a) == NTP_FILE
  {
    hide PartEvents;
    var x := NTP.subs[0];
    PartEventsMore(NTP, x, [FDesc, FName], Cmds);
    PartEventsMore(NTP, x, [FDesc], FName);
    PartEventsMore(NTP, x, [], FDesc);
    assert [] + [FDesc] == [FDesc] && [FDesc] + [FName] == [FDesc, FName] && [FDesc, FName] + [Cmds] == a[0];
    NoPart(NTP, x);
    EmitTwo("CMD 1", "CMD 2");
  }

  lemma NoPart(f: Feature, x: SubFeature)
    ensures PartEvents(f, x, []) == []
  {
  }

  lemma EmitTwo(v: string, w: string)
    ensures EmitValues([v, w]) == [Scalar(v), Scalar(w)] && EmitValues([w]) == [Scalar(w)]
  {
    assert [v, w][1..] == [w] && [w][1..] == [] && EmitValues([]) == [];
    assert EmitValues([w]) == [Scalar(w)] + EmitValues([w][1..]);
  }

  lemma LagEvents(b: seq<seq<Item>>)
    requires b == [[FName], [SName, SDesc, All, Stb, Cmds, Tables]] && |b| == |Named(LAG)| + 1
    ensures FeatureEvents(LAG, b) == LAG_FILE
  {
    hide PartEvents, NamedEvents;
    LagSub();
    NoPart(LAG, FirstSub(LAG));
    PartEventsMore(LAG, FirstSub(LAG), [], FName);
    assert [] + [FName] == b[0];
    LagNamed(b);
  }

  lemma LagNamed(b: seq<seq<Item>>)
    requires b == [[FName], [SName, SDesc, All, Stb, Cmds, Tables]]
    ensures NamedEvents(LAG, LAG.subs, b[1..]) == [Word(KwSubFeature)] + PartEvents(LAG, LAG.subs[0], b[1])
  {
    hide PartEvents;
    var l := b[1..];
    assert l == [b[1]] && Init(l) == [] && Init(LAG.subs) == [] && Final(l) == b[1];
  }

  lemma LagFields()
    ensures var x := LAG.subs[0];
      && ItemEvents(LAG, x, SName) == [Scalar("sub_feature_name"), Scalar("SUB")]
      && ItemEvents(LAG, x, SDesc) == [Scalar("sub_feature_desc"), Scalar("TEXT")]
      && ItemEvents(LAG, x, All) == [Scalar("support_showtech_all"), Scalar("no")]
      && ItemEvents(LAG, x, Stb) == [Scalar("support_showtech_feature"), Scalar("yes")]
  {
  }

  lemma LagLists()
    ensures var x := LAG.subs[0];
      && ItemEvents(LAG, x, Cmds) == [Scalar("cli_cmds"), Scalar("CMD 3")]
      && ItemEvents(LAG, x, Tables) == [Scalar("ovsdb"), Scalar("table"), Scalar("table_name"), Scalar("TAB"),
                                        Scalar("col_names"), Scalar("COL")]
  {
    var x := LAG.subs[0];
    EmitTwo("COL", "COL");
    EmitTwo("CMD 3", "CMD 3");
    assert x.tables[1..] == [] && EmitTables([]) == [] && EmitTables(x.tables) == EmitTable(x.tables[0]) + [];
  }

  lemma LagSub()
    ensures PartEvents(LAG, LAG.subs[0], [SName, SDesc, All, Stb, Cmds, Tables]) == LAG_FILE[4..]
  {
    hide PartEvents, ItemEvents;
    var x := LAG.subs[0];
    LagFields();
    LagLists();
    PartEventsMore(LAG, x, [SName, SDesc, All, Stb, Cmds], Tables);
    PartEventsMore(LAG, x, [SName, SDesc, All, Stb], Cmds);
    PartEventsMore(LAG, x, [SName, SDesc, All], Stb);
    PartEventsMore(LAG, x, [SName, SDesc], All);
    PartEventsMore(LAG, x, [SName], SDesc);
    PartEventsMore(LAG, x, [], SName);
    NoPart(LAG, x);
    SixItems();
  }

  lemma SixItems()
    ensures [] + [SName] == [SName] && [SName] + [SDesc] == [SName, SDesc]
    ensures [SName, SDesc] + [All] == [SName, SDesc, All] && [SName, SDesc, All] + [Stb] == [SName, SDesc, All, Stb]
    ensures [SName, SDesc, All, Stb] + [Cmds] == [SName, SDesc, All, Stb, Cmds]
    ensures [SName, SDesc, All, Stb, Cmds] + [Tables] == [SName, SDesc, All, Stb, Cmds, Tables]
  {
  }

  lemma NoStructure()
    ensures Meaningful(NTP_FILE + LAG_FILE) == NTP_FILE + LAG_FILE
  {
    EmitMeaningful(NTP_FILE + LAG_FILE);
  }
}
