/** The scanner that reads event definitions from a stream of YAML scalars into the event table:
    a fold driven by flags, and the filter by category that it amounts to for streams in the
    documented order. */
module EventScan {
  import opened Options
  import opened Text
  import opened EventSizes
  import opened EventValues

  datatype Event = Event(
    category: string, id: int, name: string, severity: string, keys: int, description: string)

  // ----- values -----

  predicate FitsName(s: string) { 0 < |s| < MAX_EVENT_NAME_SIZE }
  predicate FitsSeverity(s: string) { 0 < |s| < MAX_SEV_NAME_SIZE }
  predicate FitsDescription(s: string) { 0 < |s| < MAX_LOG_STR }

  // ----- the scanner -----

  /** Which value the scanner waits for. */
  datatype Waiting = Nothing | Name | Id | Severity | Keys | Template

  /** The flags and locals of the scanner. */
  datatype Scanner = Scanner(
    definitions: bool, category: bool, waiting: Waiting, found: bool, anyFound: bool, buf: string, index: nat)

  datatype Scan = Scan(table: seq<Event>, s: Scanner)

  /** Writing past the end of the table is undefined; callers keep the index below its size. */
  function Set(t: seq<Event>, i: nat, e: Event): (r: seq<Event>)
    ensures |r| == |t|
  {
    if i < |t| then t[i := e] else t
  }

  function At(t: seq<Event>, i: nat): Event {
    if i < |t| then t[i] else Event("", 0, "", "", 0, "")
  }

  /** The value of a field of the event being filled; the last one finishes the event. */
  function Assign(x: Scan, v: string): Scan {
    var t, i, e := x.table, x.s.index, At(x.table, x.s.index);
    match x.s.waiting
    case Nothing => x
    case Name => x.(s := x.s.(waiting := Nothing))
    case Id => Scan(Set(t, i, e.(id := ReadInt(v))), x.s.(waiting := Nothing))
    case Severity => Scan(if FitsSeverity(v) then Set(t, i, e.(severity := v)) else t, x.s.(waiting := Nothing))
    case Keys => Scan(Set(t, i, e.(keys := CountKeys(v))), x.s.(waiting := Nothing))
    case Template =>
      var t' := if FitsDescription(v) then Set(t, i, e.(description := v)) else t;
      Scan(Set(t', i + 1, At(t', i + 1).(name := EVENT_NAME_DELIMITER_STR)),
           x.s.(waiting := Nothing, found := false, index := i + 1))
  }

  /** A scalar as a keyword; each takes effect only after the one that opens its context. */
  function Dispatch(s: Scanner, v: string): Scanner {
    if v == "event_definitions" then s.(definitions := true)
    else if v == "event_name" && s.definitions then s.(waiting := Name)
    else if v == "event_category" && s.definitions then s.(category := true)
    else if v == "event_ID" && s.definitions then s.(waiting := Id)
    else if v == "severity" && s.category then s.(waiting := Severity)
    else if v == "keys" && s.category then s.(waiting := Keys)
    else if v == "event_description_template" && s.category then s.(waiting := Template)
    else s
  }

  function TakeName(x: Scan, v: string): Scan {
    if x.s.waiting == Name
    then x.(s := x.s.(waiting := Nothing, buf := if FitsName(v) then v else x.s.buf))
    else x
  }

  /** The category asked for starts the entry, with the name read last. */
  function TakeCategory(x: Scan, v: string, category: string): Scan {
    if x.s.category && v == category then
      var i, e := x.s.index, At(x.table, x.s.index);
      Scan(Set(x.table, i, (if FitsName(x.s.buf) then e.(name := x.s.buf) else e).(category := category)),
           x.s.(found := true, anyFound := true))
    else x
  }

  /** What is left of the scalar when it is compared with the keywords. */
  function Remains(s: Scanner, v: string): string {
    if s.found && s.waiting == Keys then FirstKey(v) else v
  }

  function OneScalar(x: Scan, v: string, category: string): Scan {
    var y := TakeCategory(TakeName(x, v), v, category);
    var z := if y.s.found then Assign(y, v) else y;
    z.(s := Dispatch(z.s, Remains(y.s, v)))
  }

  function ScanAll(x: Scan, vs: seq<string>, category: string): Scan
    decreases |vs|
  {
    if vs == [] then x else ScanAll(OneScalar(x, vs[0], category), vs[1..], category)
  }

  lemma {:induction false} ScanAppend(x: Scan, a: seq<string>, b: seq<string>, category: string)
    ensures ScanAll(x, a + b, category) == ScanAll(ScanAll(x, a, category), b, category)
    decreases |a|
  {
    if a == [] {
      assert a + b == b;
    } else {
      assert (a + b)[1..] == a[1..] + b;
      ScanAppend(OneScalar(x, a[0], category), a[1..], b, category);
    }
  }

  lemma ScanTwo(x: Scan, u: string, v: string, category: string)
    ensures ScanAll(x, [u, v], category) == OneScalar(OneScalar(x, u, category), v, category)
  {
    var y := OneScalar(x, u, category);
    assert [u, v][1..] == [v] && [v][1..] == [];
    assert ScanAll(y, [v], category) == ScanAll(OneScalar(y, v, category), [], category);
  }

  // ----- the documented stream -----

  /** One event definition; the explanatory description is optional. */
  datatype Def = Def(
    name: string, category: string, id: string, severity: string, keys: string,
    description: Option<string>, template: string)

  /** The scalars of a definition after its keys, and after its name and category. */
  function Rest(d: Def): seq<string> {
    (if d.description == None then [] else ["description", d.description.value])
    + ["event_description_template", d.template]
  }

  function Tail(d: Def): seq<string> {
    ["event_ID", d.id] + ["severity", d.severity] + ["keys", d.keys] + Rest(d)
  }

  function Fields(d: Def): seq<string> {
    ["event_name", d.name] + ["event_category", d.category] + Tail(d)
  }

  function AllFields(ds: seq<Def>): seq<string> {
    if ds == [] then [] else Fields(ds[0]) + AllFields(ds[1..])
  }

  /** The whole file: whatever comes before the definitions, and the definitions. */
  function Stream(prelude: seq<string>, ds: seq<Def>): seq<string> {
    prelude + ["event_definitions"] + AllFields(ds)
  }

  const KEYWORDS := ["event_definitions", "event_name", "event_category", "event_ID", "severity", "keys",
    "event_description_template"]

  /** A value that cannot be mistaken for a keyword or the category. */
  predicate Plain(v: string, category: string) {
    v !in KEYWORDS && v != category
  }

  predicate DefOk(d: Def, category: string) {
    && Plain(d.name, category) && Plain(d.id, category) && Plain(d.severity, category) && Plain(d.keys, category)
    && (d.description.Some? ==> Plain(d.description.value, category)) && Plain(d.template, category)
    && d.category !in KEYWORDS
    && (d.category == category ==> FitsName(d.name) && FitsSeverity(d.severity) && FitsDescription(d.template))
  }

  predicate CategoryOk(category: string) {
    category !in KEYWORDS && category != "description"
  }

  /** The table entry that a definition describes. */
  function Described(d: Def): Event {
    Event(d.category, ReadInt(d.id), d.name, d.severity, CountKeys(d.keys), d.template)
  }

  /** The scalar that follows the keys of a definition. */
  function AfterKeys(d: Def): string {
    if d.description.Some? then "description" else "event_description_template"
  }

  /** What a first key that is spelled like a keyword makes the scanner wait for. */
  function MistakenFor(d: Def): Waiting {
    var first := FirstKey(d.keys);
    if first == "event_name" then Name
    else if first == "event_ID" then Id
    else if first == "severity" then Severity
    else if first == "keys" then Keys
    else if first == "event_description_template" then Template
    else Nothing
  }

  /** The scalar that follows is then taken for a value. */
  function Disturb(w: Waiting, e: Event, v: string): Event {
    match w
    case Id => e.(id := ReadInt(v))
    case Keys => e.(keys := CountKeys(v))
    case Template => e.(description := v)
    case _ => e
  }

  /** The table entry that the scanner makes of a definition. */
  function EntryOf(d: Def): Event {
    Disturb(MistakenFor(d), Described(d), AfterKeys(d))
  }

  /** The first key does no harm. */
  predicate KeepsView(d: Def) {
    && (FirstKey(d.keys) == "event_ID" ==> ReadInt(d.id) == 0)
    && (FirstKey(d.keys) == "event_description_template" ==> d.template == AfterKeys(d))
  }

  predicate KeepsEntry(d: Def) {
    KeepsView(d) && (FirstKey(d.keys) == "keys" ==> CountKeys(d.keys) == 1)
  }

  lemma WordsAsValues(d: Def)
    ensures ReadInt(AfterKeys(d)) == 0 && CountKeys(AfterKeys(d)) == 1
    ensures FitsDescription(AfterKeys(d)) && FitsName(AfterKeys(d)) && !FitsSeverity(AfterKeys(d))
    ensures FirstKey(AfterKeys(d)) == AfterKeys(d)
  {
    var v := AfterKeys(d);
    assert v[0] == 'd' || v[0] == 'e';
    WordRead(v);
    NoComma();
    OneKey(v);
  }

  lemma NoComma()
    ensures ',' !in "description" && ',' !in "event_description_template"
  {
  }

  /** The scanner stores what a definition describes exactly when the first key is not the keyword
      of the identifier or the identifier is 0, not the word keys or it is the only key, and not the
      keyword of the template or the template is the word that follows. */
  lemma {:induction false} EntryExactly(d: Def)
    ensures EntryOf(d) == Described(d) <==> KeepsEntry(d)
  {
    hide ReadInt, CountKeys;
    WordsAsValues(d);
  }

  /** The filter: the definitions of the category, in file order. */
  function Filter(ds: seq<Def>, category: string): seq<Def> {
    if ds == [] then []
    else (if ds[0].category == category then [ds[0]] else []) + Filter(ds[1..], category)
  }

  // ----- what each field does -----

  /** Between definitions: the scanner is inside the definitions, and no event is being filled. */
  predicate Between(s: Scanner) {
    s.definitions && !s.found && s.waiting != Name
  }

  /** A value is assigned if an event is being filled, and changes nothing otherwise; what is left of
      the keys may be a keyword. */
  lemma PlainStep(x: Scan, v: string, category: string)
    requires Plain(v, category) && x.s.waiting != Name
    ensures OneScalar(x, v, category) ==
      if !x.s.found then x
      else if x.s.waiting == Keys then Assign(x, v).(s := Dispatch(Assign(x, v).s, FirstKey(v)))
      else Assign(x, v)
  {
    KeywordList(v);
  }

  lemma KeywordList(v: string)
    ensures v in KEYWORDS <==>
      v == "event_definitions" || v == "event_name" || v == "event_category" || v == "event_ID"
      || v == "severity" || v == "keys" || v == "event_description_template"
  {
  }

  /** A keyword is no value of anything. */
  lemma KeywordStep(x: Scan, k: string, category: string)
    requires CategoryOk(category) && k in KEYWORDS + ["description"]
    requires x.s.waiting != Name && (x.s.found ==> x.s.waiting == Nothing)
    ensures OneScalar(x, k, category) == x.(s := Dispatch(x.s, k))
  {
  }

  lemma NameField(x: Scan, v: string, category: string)
    requires Between(x.s) && Plain(v, category) && CategoryOk(category)
    ensures ScanAll(x, ["event_name", v], category) ==
      x.(s := x.s.(waiting := Nothing, buf := if FitsName(v) then v else x.s.buf))
  {
    ScanTwo(x, "event_name", v, category);
    KeywordStep(x, "event_name", category);
    KeywordList(v);
  }

  lemma CategoryField(x: Scan, v: string, category: string)
    requires x.s.definitions && !x.s.found && x.s.waiting == Nothing && CategoryOk(category) && v !in KEYWORDS
    ensures ScanAll(x, ["event_category", v], category) ==
      TakeCategory(x.(s := x.s.(category := true)), v, category)
  {
    ScanTwo(x, "event_category", v, category);
    KeywordStep(x, "event_category", category);
    KeywordList(v);
  }

  /** A field of an event: its keyword sets what is waited for, and its value is assigned if the
      event is being filled and stays pending if not. */
  lemma {:induction false} ValueField(x: Scan, keyword: string, v: string, w: Waiting, category: string)
    requires CategoryOk(category) && Plain(v, category) && x.s.definitions && x.s.category
    requires x.s.waiting != Name && (x.s.found ==> x.s.waiting == Nothing)
    requires || (keyword == "event_ID" && w == Id) || (keyword == "severity" && w == Severity)
             || (keyword == "keys" && w == Keys) || (keyword == "event_description_template" && w == Template)
    ensures var y := x.(s := x.s.(waiting := w));
      ScanAll(x, [keyword, v], category) ==
      if !x.s.found then y
      else if w == Keys then Assign(y, v).(s := Dispatch(Assign(y, v).s, FirstKey(v)))
      else Assign(y, v)
  {
    hide OneScalar, Assign, Plain, CategoryOk, FirstKey;
    ScanTwo(x, keyword, v, category);
    KeywordList(keyword);
    KeywordStep(x, keyword, category);
    PlainStep(x.(s := x.s.(waiting := w)), v, category);
  }

  lemma DescriptionField(x: Scan, v: string, category: string)
    requires CategoryOk(category) && Plain(v, category) && x.s.waiting != Name && (x.s.found ==> x.s.waiting == Nothing)
    ensures ScanAll(x, ["description", v], category) == x
  {
    hide OneScalar, Plain, CategoryOk;
    ScanTwo(x, "description", v, category);
    KeywordStep(x, "description", category);
    PlainStep(x, v, category);
  }

  // ----- one definition -----

  /** The fields, one after the other. */
  lemma ScanTail(x: Scan, d: Def, category: string)
    ensures
      var a := ScanAll(x, ["event_ID", d.id], category);
      var b := ScanAll(a, ["severity", d.severity], category);
      var c := ScanAll(b, ["keys", d.keys], category);
      ScanAll(x, Tail(d), category) == ScanAll(c, Rest(d), category)
  {
    hide ScanAll, Rest;
    var p, q, r := ["event_ID", d.id], ["severity", d.severity], ["keys", d.keys];
    ScanAppend(x, p + q + r, Rest(d), category);
    ScanAppend(x, p + q, r, category);
    ScanAppend(x, p, q, category);
  }

  /** The fields after the keys, for an event that is not being filled. */
  lemma SkipRest(x: Scan, d: Def, category: string)
    requires DefOk(d, category) && CategoryOk(category)
    requires x.s.definitions && x.s.category && !x.s.found && x.s.waiting != Name
    ensures ScanAll(x, Rest(d), category) == x.(s := x.s.(waiting := Template))
  {
    hide ScanAll, Plain, Assign, CategoryOk, FitsName, FitsSeverity, FitsDescription, FirstKey;
    var v := ["event_description_template", d.template];
    if d.description.Some? {
      ScanAppend(x, ["description", d.description.value], v, category);
      DescriptionField(x, d.description.value, category);
    } else {
      assert [] + v == v;
    }
    ValueField(x, "event_description_template", d.template, Template, category);
  }

  lemma ScanNothing(x: Scan, category: string)
    ensures ScanAll(x, [], category) == x
  {
  }

  /** An event of another category leaves the table alone. */
  lemma {:induction false} SkipTail(x: Scan, d: Def, category: string)
    requires DefOk(d, category) && CategoryOk(category)
    requires x.s.definitions && x.s.category && !x.s.found && x.s.waiting != Name
    ensures ScanAll(x, Tail(d), category) == x.(s := x.s.(waiting := Template))
  {
    hide ScanAll, Plain, Assign, CategoryOk, FitsName, FitsSeverity, FitsDescription;
    ScanTail(x, d, category);
    ValueField(x, "event_ID", d.id, Id, category);
    var a := x.(s := x.s.(waiting := Id));
    ValueField(a, "severity", d.severity, Severity, category);
    var b := x.(s := x.s.(waiting := Severity));
    ValueField(b, "keys", d.keys, Keys, category);
    SkipRest(x.(s := x.s.(waiting := Keys)), d, category);
  }

  /** The table with an event filled in and the delimiter behind it. */
  function Append(t: seq<Event>, i: nat, e: Event): (r: seq<Event>)
    ensures |r| == |t|
  {
    Set(Set(t, i, e), i + 1, At(t, i + 1).(name := EVENT_NAME_DELIMITER_STR))
  }

  /** The scalar after the keys is no name and no category. */
  lemma TakeWord(x: Scan, d: Def, category: string)
    requires CategoryOk(category)
    ensures var y := TakeCategory(TakeName(x, AfterKeys(d)), AfterKeys(d), category);
      y == x.(s := x.s.(waiting := if x.s.waiting == Name then Nothing else x.s.waiting, buf := y.s.buf))
  {
    KeywordList("event_description_template");
  }

  /** But it is assigned, whatever the scanner waits for. */
  lemma AssignWord(x: Scan, d: Def)
    requires x.s.index < |x.table| && x.s.waiting != Name
    ensures var y, i := Assign(x, AfterKeys(d)), x.s.index;
      var e := Disturb(x.s.waiting, x.table[i], AfterKeys(d));
      && y.table == (if x.s.waiting == Template then Append(x.table, i, e) else x.table[i := e])
      && y.s == x.s.(waiting := Nothing, found := x.s.found && x.s.waiting != Template,
                     index := if x.s.waiting == Template then i + 1 else i)
  {
    hide ReadInt, CountKeys, FitsName, FitsDescription, FitsSeverity, AfterKeys;
    WordsAsValues(d);
    assert x.table[x.s.index := x.table[x.s.index]] == x.table;
  }

  lemma DispatchWord(s: Scanner, d: Def)
    requires s.category
    ensures Dispatch(s, AfterKeys(d)) == if d.description.Some? then s else s.(waiting := Template)
  {
  }

  /** The scalar after the keys, with whatever the scanner waits for. */
  lemma NextScalar(x: Scan, d: Def, category: string)
    requires CategoryOk(category) && x.s.definitions && x.s.category && x.s.found && x.s.index < |x.table|
    ensures var y, n, i := OneScalar(x, AfterKeys(d), category), AfterKeys(d), x.s.index;
      var e := Disturb(x.s.waiting, x.table[i], n);
      && y.table == (if x.s.waiting == Template then Append(x.table, i, e) else x.table[i := e])
      && y.s == x.s.(waiting := if d.description.Some? then Nothing else Template, buf := y.s.buf,
                     found := x.s.waiting != Template, index := if x.s.waiting == Template then i + 1 else i)
  {
    hide AfterKeys, TakeName, TakeCategory, Assign, Dispatch, Append, CategoryOk, FirstKey;
    var y := TakeCategory(TakeName(x, AfterKeys(d)), AfterKeys(d), category);
    TakeWord(x, d, category);
    AssignWord(y, d);
    WordsAsValues(d);
    DispatchWord(Assign(y, AfterKeys(d)).s, d);
  }

  /** The fields after the keys. */
  lemma LastFields(x: Scan, d: Def, category: string)
    requires DefOk(d, category) && CategoryOk(category) && d.category == category
    requires x.s.definitions && x.s.category && x.s.found && x.s.index < |x.table|
    ensures var y := ScanAll(x, Rest(d), category);
      var e := Disturb(x.s.waiting, x.table[x.s.index].(description := d.template), AfterKeys(d));
      && y.table == Append(x.table, x.s.index, e)
      && y.s == x.s.(waiting := y.s.waiting, buf := y.s.buf, found := false, index := x.s.index + 1)
      && (y.s.waiting == Nothing || y.s.waiting == Template)
  {
    hide OneScalar, ScanAll, Plain, CategoryOk, FitsName, FitsSeverity, AfterKeys, Disturb, Append, Assign;
    var y := OneScalar(x, AfterKeys(d), category);
    NextScalar(x, d, category);
    RestAfterWord(x, d, category);
    if y.s.found {
      DisturbThen(x.s.waiting, x.table[x.s.index], d);
      LastValue(y.(s := y.s.(waiting := Template)), d);
      AppendOver(x.table, x.s.index, y.table[x.s.index], y.table[x.s.index].(description := d.template));
    } else {
      DisturbThen(x.s.waiting, x.table[x.s.index], d);
    }
  }

  /** After the scalar behind the keys only the template matters. */
  lemma RestAfterWord(x: Scan, d: Def, category: string)
    requires DefOk(d, category) && CategoryOk(category)
    requires x.s.definitions && x.s.category && x.s.found && x.s.index < |x.table|
    ensures var y := OneScalar(x, AfterKeys(d), category);
      var u := y.(s := y.s.(waiting := Template));
      ScanAll(x, Rest(d), category) == if y.s.found then Assign(u, d.template) else u
  {
    hide OneScalar, ScanAll, Plain, CategoryOk, FitsName, FitsSeverity, FitsDescription, Disturb, Append, Assign;
    var n := AfterKeys(d);
    var y := OneScalar(x, n, category);
    NextScalar(x, d, category);
    if d.description.Some? {
      var v := d.description.value;
      ScanThen(x, n, [v] + ["event_description_template", d.template], category);
      assert Rest(d) == [n] + ([v] + ["event_description_template", d.template]);
      ScanThen(y, v, ["event_description_template", d.template], category);
      NothingAssigned(y, v);
      PlainStep(y, v, category);
      ValueField(y, "event_description_template", d.template, Template, category);
    } else {
      assert Rest(d) == [n, d.template];
      ScanTwo(x, n, d.template, category);
      PlainStep(y, d.template, category);
    }
  }

  lemma NothingAssigned(x: Scan, v: string)
    ensures x.s.waiting == Nothing ==> Assign(x, v) == x
  {
  }

  lemma LastValue(x: Scan, d: Def)
    requires x.s.waiting == Template && FitsDescription(d.template) && x.s.index < |x.table|
    ensures Assign(x, d.template) == Scan(
      Append(x.table, x.s.index, x.table[x.s.index].(description := d.template)),
      x.s.(waiting := Nothing, found := false, index := x.s.index + 1))
  {
  }

  lemma DisturbThen(w: Waiting, e: Event, d: Def)
    ensures Disturb(w, e.(description := d.template), AfterKeys(d)) ==
      if w == Template then Disturb(w, e, AfterKeys(d)) else Disturb(w, e, AfterKeys(d)).(description := d.template)
  {
  }

  lemma ScanThen(x: Scan, v: string, vs: seq<string>, category: string)
    ensures ScanAll(x, [v] + vs, category) == ScanAll(OneScalar(x, v, category), vs, category)
  {
    assert ([v] + vs)[1..] == vs;
  }

  /** An event of the category is filled in completely. */
  lemma {:induction false} FillTail(x: Scan, d: Def, category: string)
    requires DefOk(d, category) && CategoryOk(category) && d.category == category
    requires x.s.definitions && x.s.category && x.s.found && x.s.waiting == Nothing && x.s.index < |x.table|
    requires var e := x.table[x.s.index]; e.name == d.name && e.category == category
    ensures var y := ScanAll(x, Tail(d), category);
      && y.table == Append(x.table, x.s.index, EntryOf(d))
      && y.s == x.s.(waiting := y.s.waiting, buf := y.s.buf, found := false, index := x.s.index + 1)
      && (y.s.waiting == Nothing || y.s.waiting == Template)
  {
    hide ScanAll, Plain, CategoryOk, ReadInt, CountKeys, FitsName, FitsSeverity, FitsDescription, FirstKey, Append;
    ScanTail(x, d, category);
    var i, e0 := x.s.index, x.table[x.s.index];
    ValueField(x, "event_ID", d.id, Id, category);
    var e1 := e0.(id := ReadInt(d.id));
    var a := x.(table := x.table[i := e1]);
    ValueField(a, "severity", d.severity, Severity, category);
    var e2 := e1.(severity := d.severity);
    var b := x.(table := x.table[i := e2]);
    assert a.table[i := e2] == b.table;
    ValueField(b, "keys", d.keys, Keys, category);
    var e3 := e2.(keys := CountKeys(d.keys));
    var c := Scan(x.table[i := e3], x.s.(waiting := MistakenFor(d)));
    assert b.table[i := e3] == c.table;
    LastFields(c, d, category);
    AppendOver(x.table, i, e3, EntryOf(d));
  }

  /** A whole definition. */
  lemma OneDef(x: Scan, d: Def, category: string)
    requires Between(x.s) && DefOk(d, category) && CategoryOk(category) && x.s.index < |x.table|
    ensures var y := ScanAll(x, Fields(d), category);
      && Between(y.s)
      && y.table == (if d.category == category then Append(x.table, x.s.index, EntryOf(d)) else x.table)
      && y.s.index == (if d.category == category then x.s.index + 1 else x.s.index)
      && y.s.anyFound == (x.s.anyFound || d.category == category)
  {
    hide ScanAll, Plain, CategoryOk, Append, EntryOf;
    ScanAppend(x, ["event_name", d.name] + ["event_category", d.category], Tail(d), category);
    ScanAppend(x, ["event_name", d.name], ["event_category", d.category], category);
    NameField(x, d.name, category);
    var a := x.(s := x.s.(waiting := Nothing, buf := if FitsName(d.name) then d.name else x.s.buf));
    CategoryField(a, d.category, category);
    if d.category == category {
      var i := x.s.index;
      var e := x.table[i].(name := d.name, category := category);
      var b := Scan(x.table[i := e], a.s.(category := true, found := true, anyFound := true));
      FillTail(b, d, category);
      AppendOver(x.table, i, e, EntryOf(d));
    } else {
      SkipTail(a.(s := a.s.(category := true)), d, category);
    }
  }

  lemma AppendOver(t: seq<Event>, i: nat, e: Event, f: Event)
    requires i < |t|
    ensures Append(t[i := e], i, f) == Append(t, i, f)
  {
    assert t[i := e][i := f] == t[i := f];
  }

  // ----- the whole stream -----

  function Entries(ds: seq<Def>): (es: seq<Event>)
    ensures |es| == |ds| && forall i :: 0 <= i < |es| ==> es[i] == EntryOf(ds[i])
  {
    if ds == [] then [] else [EntryOf(ds[0])] + Entries(ds[1..])
  }

  /** The table holds exactly these events, and the delimiter right behind them. */
  predicate Filled(t: seq<Event>, es: seq<Event>) {
    |es| < |t| && t[..|es|] == es && t[|es|].name == EVENT_NAME_DELIMITER_STR
  }

  lemma AppendFilled(t: seq<Event>, es: seq<Event>, e: Event)
    requires Filled(t, es) && |es| + 1 < |t|
    ensures Filled(Append(t, |es|, e), es + [e])
  {
  }

  /** Between two definitions, with these events in the table. */
  predicate Ready(x: Scan, es: seq<Event>) {
    Between(x.s) && Filled(x.table, es) && x.s.index == |es|
  }

  /** The events of one definition. */
  function News(d: Def, category: string): seq<Event> {
    if d.category == category then [EntryOf(d)] else []
  }

  lemma OneDefFilled(x: Scan, es: seq<Event>, d: Def, category: string)
    requires Ready(x, es) && CategoryOk(category) && DefOk(d, category) && |es| + |News(d, category)| < |x.table|
    ensures var y := ScanAll(x, Fields(d), category);
      && Ready(y, es + News(d, category)) && |y.table| == |x.table|
      && y.s.anyFound == (x.s.anyFound || d.category == category) && (d.category != category ==> y.table == x.table)
  {
    hide ScanAll, DefOk, CategoryOk, Fields, EntryOf, Append, Between;
    OneDef(x, d, category);
    if d.category == category {
      AppendFilled(x.table, es, EntryOf(d));
    } else {
      assert es + [] == es;
    }
  }

  lemma FilterStep(ds: seq<Def>, category: string)
    requires ds != []
    ensures Filter(ds, category) == (if ds[0].category == category then [ds[0]] else []) + Filter(ds[1..], category)
  {
  }

  lemma EntriesOne(d: Def, rest: seq<Def>)
    ensures Entries([d] + rest) == [EntryOf(d)] + Entries(rest)
  {
    hide EntryOf;
    assert ([d] + rest)[1..] == rest;
  }

  lemma EntriesStep(es: seq<Event>, ds: seq<Def>, category: string)
    requires ds != []
    ensures es + News(ds[0], category) + Entries(Filter(ds[1..], category)) == es + Entries(Filter(ds, category))
    ensures |Filter(ds, category)| == |News(ds[0], category)| + |Filter(ds[1..], category)|
  {
    hide EntryOf, Entries, Filter;
    var rest := Filter(ds[1..], category);
    FilterStep(ds, category);
    if ds[0].category == category {
      EntriesOne(ds[0], rest);
      assert es + [EntryOf(ds[0])] + Entries(rest) == es + ([EntryOf(ds[0])] + Entries(rest));
    } else {
      assert es + [] == es && [] + rest == rest;
    }
  }

  lemma {:induction false} ScanDefs(x: Scan, es: seq<Event>, ds: seq<Def>, category: string)
    requires Ready(x, es) && CategoryOk(category) && (forall d :: d in ds ==> DefOk(d, category))
    requires |es| + |Filter(ds, category)| < |x.table|
    ensures var y := ScanAll(x, AllFields(ds), category);
      && |y.table| == |x.table| && Ready(y, es + Entries(Filter(ds, category)))
      && y.s.anyFound == (x.s.anyFound || Filter(ds, category) != []) &&
        (Filter(ds, category) == [] ==> y.table == x.table)
    decreases |ds|
  {
    hide ScanAll, DefOk, CategoryOk, Fields, EntryOf, Ready;
    if ds == [] {
      ScanNothing(x, category);
      assert es + [] == es;
    } else {
      var d := ds[0];
      assert d in ds && DefOk(d, category);
      EntriesStep(es, ds, category);
      OneDefFilled(x, es, d, category);
      ScanAppend(x, Fields(d), AllFields(ds[1..]), category);
      assert forall f :: f in ds[1..] ==> f in ds;
      ScanDefs(ScanAll(x, Fields(d), category), es + News(d, category), ds[1..], category);
    }
  }

  function Start(t: seq<Event>, index: nat): Scan {
    Scan(t, Scanner(false, false, Nothing, false, false, "", index))
  }

  lemma {:induction false} ScanPrelude(x: Scan, prelude: seq<string>, category: string)
    requires x == Start(x.table, x.s.index) && "event_definitions" !in prelude
    ensures ScanAll(x, prelude, category) == x
    decreases |prelude|
  {
    if prelude != [] {
      assert prelude[0] in prelude;
      ScanPrelude(x, prelude[1..], category);
    }
  }

  /** For a stream in the documented order whose values collide with no keyword and not with the
      category, the scanner appends exactly the definitions of the category, in file order, and
      moves the delimiter behind them; it reports success exactly if there is one. */
  lemma {:induction false} ScanIsFilter(t: seq<Event>, es: seq<Event>, prelude: seq<string>, ds: seq<Def>,
      category: string)
    requires "event_definitions" !in prelude && CategoryOk(category) && (forall d :: d in ds ==> DefOk(d, category))
    requires Filled(t, es) && |es| + |Filter(ds, category)| < |t|
    ensures var y, found := ScanAll(Start(t, |es|), Stream(prelude, ds), category), Filter(ds, category);
      && |y.table| == |t| && Filled(y.table, es + Entries(found)) && y.s.index == |es| + |found|
      && (y.s.anyFound <==> found != []) && (found == [] ==> y.table == t)
  {
    hide DefOk, Filled;
    var x := Start(t, |es|);
    StreamStart(x, prelude, ds, category);
    ScanDefs(x.(s := x.s.(definitions := true)), es, ds, category);
  }

  function DescribedAll(ds: seq<Def>): (es: seq<Event>)
    ensures |es| == |ds| && forall i :: 0 <= i < |es| ==> es[i] == Described(ds[i])
  {
    if ds == [] then [] else [Described(ds[0])] + DescribedAll(ds[1..])
  }

  /** So the table holds what the definitions describe exactly if no first key of a definition of the
      category does harm. */
  lemma {:induction false} ScanExactly(t: seq<Event>, es: seq<Event>, prelude: seq<string>, ds: seq<Def>,
      category: string)
    requires "event_definitions" !in prelude && CategoryOk(category) && (forall d :: d in ds ==> DefOk(d, category))
    requires Filled(t, es) && |es| + |Filter(ds, category)| < |t|
    ensures var y, found := ScanAll(Start(t, |es|), Stream(prelude, ds), category), Filter(ds, category);
      Filled(y.table, es + DescribedAll(found)) <==> forall d :: d in found ==> KeepsEntry(d)
  {
    hide DefOk, ScanAll, EntryOf, Described, KeepsEntry, Filter;
    ScanIsFilter(t, es, prelude, ds, category);
    var found := Filter(ds, category);
    SameTable(ScanAll(Start(t, |es|), Stream(prelude, ds), category).table, es, Entries(found), DescribedAll(found));
    forall i | 0 <= i < |found| ensures Entries(found)[i] == DescribedAll(found)[i] <==> KeepsEntry(found[i]) {
      EntryExactly(found[i]);
    }
    if Entries(found) == DescribedAll(found) {
      forall d | d in found ensures KeepsEntry(d) {
        var i :| 0 <= i < |found| && found[i] == d;
        assert Entries(found)[i] == DescribedAll(found)[i];
      }
    }
  }

  lemma SameTable(t: seq<Event>, es: seq<Event>, a: seq<Event>, b: seq<Event>)
    requires Filled(t, es + a) && |a| == |b|
    ensures Filled(t, es + b) <==> a == b
  {
    assert (es + a)[|es|..] == a && (es + b)[|es|..] == b;
  }

  const DISTURBED := Def("LINK_UP", "LAG", "1001", "LOG_INFO", "event_ID,port", None, "link {port}")

  /** A documented definition whose first key is the keyword of the identifier: the event gets the
      identifier 0. */
  lemma {:induction false} FirstKeyTaken()
    ensures DefOk(DISTURBED, "LAG") && CategoryOk("LAG") && !KeepsEntry(DISTURBED)
    ensures Described(DISTURBED).id == 1001 && EntryOf(DISTURBED).id == 0
  {
    DisturbedKey();
    DisturbedId();
    WordsAsValues(DISTURBED);
    DisturbedOk();
  }

  lemma DisturbedKey()
    ensures FirstKey("event_ID,port") == "event_ID"
  {
    FirstKeyIs([], "event_ID", ",port");
    assert [] + "event_ID" + ",port" == "event_ID,port";
  }

  lemma DisturbedId()
    ensures ReadInt("1001") == 1001
  {
    NumberRead(1001, []);
    assert Dec(1001) == "1001" by { assert Dec(1) == "1" && Dec(10) == "10" && Dec(100) == "100"; }
    assert "1001" + [] == "1001";
  }

  lemma DisturbedOk()
    ensures DefOk(DISTURBED, "LAG") && CategoryOk("LAG")
  {
    KeywordList("LINK_UP");
    KeywordList("1001");
    KeywordList("LOG_INFO");
    KeywordList("event_ID,port");
    KeywordList("link {port}");
    KeywordList("LAG");
    assert "LINK_UP"[0] == 'L' && "1001"[0] == '1' && "LOG_INFO"[0] == 'L' && "link {port}"[0] == 'l' &&
      "LAG"[0] == 'L';
    assert |"event_ID,port"| == 13;
  }

  lemma StreamStart(x: Scan, prelude: seq<string>, ds: seq<Def>, category: string)
    requires x == Start(x.table, x.s.index) && "event_definitions" !in prelude
    ensures ScanAll(x, Stream(prelude, ds), category) ==
      ScanAll(x.(s := x.s.(definitions := true)), AllFields(ds), category)
  {
    var head := ["event_definitions"];
    ScanAppend(x, prelude + head, AllFields(ds), category);
    ScanAppend(x, prelude, head, category);
    ScanPrelude(x, prelude, category);
    assert ScanAll(x, head, category) == x.(s := x.s.(definitions := true)) by { assert head[1..] == []; }
  }

  // ----- what a scan leaves alone -----

  /** Behind the first n entries, u holds what t held, except for the name, category and so on of
      the entry right behind them, of which only the description is the same. */
  predicate Behind(t: seq<Event>, u: seq<Event>, n: nat) {
    && |u| == |t|
    && (forall k :: n <= k < |t| ==> u[k].description == t[k].description)
    && (forall k :: n < k < |t| ==> u[k] == t[k])
  }

  lemma AppendBehind(t: seq<Event>, u: seq<Event>, n: nat, e: Event)
    requires Behind(t, u, n)
    ensures Behind(t, Append(u, n, e), n + 1)
  {
  }

  lemma {:induction false} DefsBehind(t: seq<Event>, x: Scan, es: seq<Event>, ds: seq<Def>, category: string)
    requires Ready(x, es) && CategoryOk(category) && (forall d :: d in ds ==> DefOk(d, category))
    requires |es| + |Filter(ds, category)| < |x.table| && Behind(t, x.table, |es|)
    ensures Behind(t, ScanAll(x, AllFields(ds), category).table, |es| + |Filter(ds, category)|)
    decreases |ds|
  {
    hide ScanAll, DefOk, CategoryOk, Fields, EntryOf, Append, Behind;
    if ds == [] {
      ScanNothing(x, category);
    } else {
      var d := ds[0];
      assert d in ds && DefOk(d, category);
      EntriesStep(es, ds, category);
      OneDef(x, d, category);
      OneDefFilled(x, es, d, category);
      if d.category == category { AppendBehind(t, x.table, |es|, EntryOf(d)); }
      ScanAppend(x, Fields(d), AllFields(ds[1..]), category);
      assert forall f :: f in ds[1..] ==> f in ds;
      DefsBehind(t, ScanAll(x, Fields(d), category), es + News(d, category), ds[1..], category);
    }
  }

  /** A scan of a documented stream touches no entry behind the delimiter it leaves. */
  lemma {:induction false} ScanBehind(t: seq<Event>, u: seq<Event>, es: seq<Event>, prelude: seq<string>,
      ds: seq<Def>, category: string)
    requires "event_definitions" !in prelude && CategoryOk(category) && (forall d :: d in ds ==> DefOk(d, category))
    requires Filled(u, es) && |es| + |Filter(ds, category)| < |u| && Behind(t, u, |es|)
    ensures Behind(t, ScanAll(Start(u, |es|), Stream(prelude, ds), category).table, |es| + |Filter(ds, category)|)
  {
    hide DefOk, Filled, Behind;
    var x := Start(u, |es|);
    StreamStart(x, prelude, ds, category);
    DefsBehind(t, x.(s := x.s.(definitions := true)), es, ds, category);
  }
}
