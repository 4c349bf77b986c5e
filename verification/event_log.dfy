/** The event table of a daemon: filled category by category, each category once, closed by a
    delimiter, and searched by event name; and the Python version of the same. */
module EventLog {
  import opened Options
  import opened Sequences
  import opened Text
  import opened EventSizes
  import opened EventValues
  import opened EventScan

  // ----- the delimiter -----

  /** The first entry from position i on that bears the delimiter as its name. */
  function FindDelimiter(t: seq<Event>, i: nat): (r: Option<nat>)
    ensures r.Some? ==> r.value < |t|
    decreases |t| - i
  {
    if i >= |t| then None
    else if t[i].name == EVENT_NAME_DELIMITER_STR then Some(i)
    else FindDelimiter(t, i + 1)
  }

  /** No event is named like the delimiter. */
  predicate Named(es: seq<Event>) {
    forall i :: 0 <= i < |es| ==> es[i].name != EVENT_NAME_DELIMITER_STR
  }

  lemma {:induction false} DelimiterFrom(t: seq<Event>, es: seq<Event>, i: nat)
    requires Filled(t, es) && Named(es) && i <= |es|
    ensures FindDelimiter(t, i) == Some(|es|)
    decreases |es| - i
  {
    if i < |es| {
      assert t[..|es|][i] == t[i];
      DelimiterFrom(t, es, i + 1);
    }
  }

  // ----- initialising a category -----

  /** The table, once it is allocated, and the initialised categories. */
  datatype Log = Log(made: bool, table: seq<Event>, categories: seq<string>)

  const FRESH := Log(false, [], [])

  predicate LogOk(log: Log) {
    log.made ==> |log.table| == MAX_EVENT_TABLE_SIZE
  }

  /** A new table: whatever the memory held, with the delimiter in the first entry. */
  function Created(memory: seq<Event>): seq<Event>
    requires |memory| == MAX_EVENT_TABLE_SIZE
  {
    memory[0 := memory[0].(name := EVENT_NAME_DELIMITER_STR)]
  }

  function TableOf(log: Log, memory: seq<Event>): seq<Event>
    requires |memory| == MAX_EVENT_TABLE_SIZE
  {
    if log.made then log.table else Created(memory)
  }

  /** One initialisation: the new state and the value returned. */
  function Init(log: Log, category: string, scalars: seq<string>, memory: seq<Event>): (Log, int)
    requires |memory| == MAX_EVENT_TABLE_SIZE
  {
    if |log.categories| > MAX_CATEGORIES_PER_DAEMON then (log, -1)
    else if category in log.categories then (log, -1)
    else
      var t := TableOf(log, memory);
      match FindDelimiter(t, 0)
      case None => (Log(true, t, log.categories), -1)
      case Some(i) =>
        var y := ScanAll(Start(t, i), scalars, category);
        if y.s.anyFound then (Log(true, y.table, log.categories + [category]), 1)
        else (Log(true, y.table, log.categories), 0)
  }

  /** The scan stays within the table. */
  predicate Room(log: Log, category: string, scalars: seq<string>, memory: seq<Event>)
    requires |memory| == MAX_EVENT_TABLE_SIZE
  {
    var t := TableOf(log, memory);
    var i := FindDelimiter(t, 0);
    i.Some? ==> ScanAll(Start(t, i.value), scalars, category).s.index < |t|
  }

  lemma AssignIndex(x: Scan, v: string)
    ensures Assign(x, v).s.index == x.s.index + (if x.s.waiting == Template then 1 else 0)
  {
  }

  lemma DispatchIndex(s: Scanner, v: string)
    ensures Dispatch(s, v).index == s.index
  {
  }

  lemma TakesIndex(x: Scan, v: string, category: string)
    ensures TakeCategory(TakeName(x, v), v, category).s.index == x.s.index
  {
  }

  lemma StepIndex(x: Scan, v: string, category: string)
    ensures var y := TakeCategory(TakeName(x, v), v, category);
      OneScalar(x, v, category).s.index == x.s.index + (if y.s.found && y.s.waiting == Template then 1 else 0)
  {
    hide TakeCategory, TakeName, Assign, Dispatch, Remains;
    var y := TakeCategory(TakeName(x, v), v, category);
    TakesIndex(x, v, category);
    AssignIndex(y, v);
    DispatchIndex((if y.s.found then Assign(y, v) else y).s, Remains(y.s, v));
  }

  lemma {:induction false} IndexGrows(x: Scan, vs: seq<string>, category: string)
    ensures x.s.index <= ScanAll(x, vs, category).s.index
    decreases |vs|
  {
    hide OneScalar, TakeCategory, TakeName;
    if vs != [] {
      StepIndex(x, vs[0], category);
      IndexGrows(OneScalar(x, vs[0], category), vs[1..], category);
    }
  }

  class EventTable {
    var table: array?<Event>
    var categories: seq<string>

    function Contents(): Log
      reads this, table
    {
      if table == null then Log(false, [], categories) else Log(true, table[..], categories)
    }

    constructor ()
      ensures Contents() == FRESH
    {
      table, categories := null, [];
    }

    /** Stores the value of the field that is waited for; counting the keys cuts the scalar. */
    method AssignParsedValues(t: array<Event>, key: string, val: Waiting, fnd: bool, index: nat, ghost s: Scanner)
      returns (key': string, val': Waiting, fnd': bool, index': nat)
      requires s.waiting == val && s.found == fnd && s.index == index
      requires index < t.Length && (val == Template ==> index + 1 < t.Length)
      modifies t
      ensures Scan(t[..], s.(waiting := val', found := fnd', index := index')) == Assign(Scan(old(t[..]), s), key)
      ensures key' == if val == Keys then FirstKey(key) else key
    {
      key', val', fnd', index' := key, Nothing, fnd, index;
      match val
      case Nothing =>
      case Name =>
      case Id =>
        t[index] := t[index].(id := ReadInt(key));
      case Severity =>
        if 0 < |key| < MAX_SEV_NAME_SIZE {
          t[index] := t[index].(severity := key);
        }
      case Keys =>
        t[index] := t[index].(keys := CountKeys(key));
        key' := FirstKey(key);
      case Template =>
        if 0 < |key| < MAX_LOG_STR {
          t[index] := t[index].(description := key);
        }
        fnd', index' := false, index + 1;
        t[index + 1] := t[index + 1].(name := EVENT_NAME_DELIMITER_STR);
    }

    /** Looks for the delimiter; -1 without one. */
    method FindLastIndex(t: array<Event>) returns (i: int)
      ensures var r := FindDelimiter(t[..], 0); i == if r == None then -1 else r.value
    {
      i := 0;
      while i < t.Length
        invariant 0 <= i <= t.Length && FindDelimiter(t[..], 0) == FindDelimiter(t[..], i)
      {
        if t[i].name == EVENT_NAME_DELIMITER_STR {
          return;
        }
        i := i + 1;
      }
      return -1;
    }

    /** The name read last starts the entry. */
    method StartEntry(t: array<Event>, buf: string, category: string, index: nat)
      requires index < t.Length
      modifies t
      ensures t[..] == var was := old(t[index]);
        old(t[..])[index := (if FitsName(buf) then was.(name := buf) else was).(category := category)]
    {
      if 0 < |buf| < MAX_EVENT_NAME_SIZE {
        t[index] := t[index].(name := buf);
      }
      t[index] := t[index].(category := category);
    }

    /** A name that is waited for, or the category, in that order. */
    method Take(t: array<Event>, key: string, category: string, s: Scanner) returns (s': Scanner)
      requires s.index < t.Length
      modifies t
      ensures Scan(t[..], s') == TakeCategory(TakeName(Scan(old(t[..]), s), key), key, category)
    {
      s' := s;
      if s'.waiting == Name {
        if 0 < |key| < MAX_EVENT_NAME_SIZE {
          s' := s'.(buf := key);
        }
        s' := s'.(waiting := Nothing);
      }
      if s'.category && key == category {
        s' := s'.(found := true, anyFound := true);
        StartEntry(t, s'.buf, category, s'.index);
      }
    }

    /** One scalar of the stream. */
    method OneKey(t: array<Event>, key: string, category: string, s: Scanner) returns (s': Scanner)
      requires s.index < t.Length
      requires var y := TakeCategory(TakeName(Scan(t[..], s), key), key, category);
        y.s.found && y.s.waiting == Template ==> s.index + 1 < t.Length
      modifies t
      ensures Scan(t[..], s') == OneScalar(Scan(old(t[..]), s), key, category)
    {
      hide Assign, Dispatch, TakeName, TakeCategory;
      TakesIndex(Scan(t[..], s), key, category);
      s' := Take(t, key, category, s);
      var left := key;
      if s'.found {
        var val, fnd, index;
        left, val, fnd, index := AssignParsedValues(t, key, s'.waiting, s'.found, s'.index, s');
        s' := s'.(waiting := val, found := fnd, index := index);
      }
      s' := Keyword(left, s');
    }

    /** A keyword says which value comes next. */
    method Keyword(key: string, s: Scanner) returns (s': Scanner)
      ensures s' == Dispatch(s, key)
    {
      s' := s;
      if key == "event_definitions" {
        s' := s'.(definitions := true);
      } else if key == "event_name" && s.definitions {
        s' := s'.(waiting := Name);
      } else if key == "event_category" && s.definitions {
        s' := s'.(category := true);
      } else if key == "event_ID" && s.definitions {
        s' := s'.(waiting := Id);
      } else if key == "severity" && s.category {
        s' := s'.(waiting := Severity);
      } else if key == "keys" && s.category {
        s' := s'.(waiting := Keys);
      } else if key == "event_description_template" && s.category {
        s' := s'.(waiting := Template);
      }
    }

    /** Reads the stream of scalars for the events of a category. */
    method ParseYaml(t: array<Event>, scalars: seq<string>, category: string) returns (ret: int)
      requires var i := FindDelimiter(t[..], 0); i.Some? ==>
        ScanAll(Start(t[..], i.value), scalars, category).s.index < t.Length
      modifies t
      ensures match FindDelimiter(old(t[..]), 0)
        case None => ret == -1 && t[..] == old(t[..])
        case Some(i) =>
          var y := ScanAll(Start(old(t[..]), i), scalars, category);
          t[..] == y.table && ret == if y.s.anyFound then 1 else 0
    {
      hide ScanAll, OneScalar, TakeName, TakeCategory;
      var first := FindLastIndex(t);
      if first < 0 {
        return -1;
      }
      ghost var start := Start(t[..], first);
      var s := Scanner(false, false, Nothing, false, false, "", first);
      assert scalars[0..] == scalars;
      for k := 0 to |scalars|
        invariant ScanAll(start, scalars, category) == ScanAll(Scan(t[..], s), scalars[k..], category)
      {
        Next(Scan(t[..], s), scalars, k, category);
        InRange(Scan(t[..], s), scalars[k], scalars[k + 1..], category);
        s := OneKey(t, scalars[k], category, s);
      }
      assert scalars[|scalars|..] == [];
      ScanEnd(Scan(t[..], s), category);
      return if s.anyFound then 1 else 0;
    }

    /** Initialises a category, once; the first initialisation allocates the table. */
    method EventLogInit(category: string, scalars: seq<string>, memory: seq<Event>) returns (ret: int)
      requires |memory| == MAX_EVENT_TABLE_SIZE && LogOk(Contents())
      requires |categories| <= MAX_CATEGORIES_PER_DAEMON && category !in categories ==>
        Room(Contents(), category, scalars, memory)
      modifies this, table
      ensures (Contents(), ret) == Init(old(Contents()), category, scalars, memory)
    {
      if |categories| > MAX_CATEGORIES_PER_DAEMON {
        return -1;
      }
      var known := EventCategorySearch(category);
      if known {
        return -1;
      }
      if table == null {
        table := new Event[MAX_EVENT_TABLE_SIZE](i requires 0 <= i < |memory| => memory[i]);
        assert table[..] == memory;
        table[0] := table[0].(name := EVENT_NAME_DELIMITER_STR);
      }
      ret := ParseYaml(table, scalars, category);
      if ret > 0 {
        categories := categories + [category];
      }
    }

    /** The index of an event; -1 without a table. */
    method EventSearch(name: string) returns (i: int)
      ensures i == if table == null then -1 else Search(table[..], name, 0)
    {
      if table == null {
        return -1;
      }
      i := 0;
      while i < table.Length
        invariant 0 <= i <= table.Length && Search(table[..], name, 0) == Search(table[..], name, i)
      {
        if table[i].name == name {
          return;
        }
        if table[i].description == EVENT_NAME_DELIMITER_STR {
          break;
        }
        i := i + 1;
      }
    }

    method EventCategorySearch(category: string) returns (known: bool)
      ensures known == (category in categories)
    {
      for i := 0 to |categories|
        invariant category !in categories[..i]
      {
        if categories[i] == category {
          return true;
        }
      }
      assert categories[..|categories|] == categories;
      return false;
    }
  }

  lemma ScanEnd(x: Scan, category: string)
    ensures ScanAll(x, [], category) == x
  {
  }

  lemma Next(x: Scan, scalars: seq<string>, k: nat, category: string)
    requires k < |scalars|
    ensures ScanAll(x, scalars[k..], category) ==
      ScanAll(OneScalar(x, scalars[k], category), scalars[k + 1..], category)
  {
    assert scalars[k..][0] == scalars[k] && scalars[k..][1..] == scalars[k + 1..];
  }

  /** Where the scan ends in range, every write on the way is in range. */
  lemma InRange(x: Scan, v: string, vs: seq<string>, category: string)
    ensures var end := ScanAll(OneScalar(x, v, category), vs, category).s.index;
      var y := TakeCategory(TakeName(x, v), v, category);
      x.s.index <= end && (y.s.found && y.s.waiting == Template ==> x.s.index + 1 <= end)
  {
    hide OneScalar, TakeCategory, TakeName, ScanAll;
    StepIndex(x, v, category);
    IndexGrows(OneScalar(x, v, category), vs, category);
  }

  // ----- any sequence of initialisations -----

  /** The events file: what precedes the definitions, and the definitions. */
  datatype Doc = Doc(prelude: seq<string>, ds: seq<Def>)

  /** The file is in the documented order, no event is named like the delimiter, there are
      fewer events than table entries, and no value collides with this category or a keyword. */
  predicate DocOk(doc: Doc, category: string) {
    && "event_definitions" !in doc.prelude && CategoryOk(category) && |doc.ds| < MAX_EVENT_TABLE_SIZE
    && (forall d :: d in doc.ds ==> DefOk(d, category) && d.name != EVENT_NAME_DELIMITER_STR)
  }

  /** The events of some categories, one category after the other. */
  function EventsOf(categories: seq<string>, ds: seq<Def>): seq<Event> {
    if categories == [] then []
    else EventsOf(categories[..|categories| - 1], ds) + Entries(Filter(ds, categories[|categories| - 1]))
  }

  /** The table holds exactly the events of the initialised categories, in order, with the
      delimiter right behind them; no category is initialised twice. */
  ghost predicate Inv(log: Log, doc: Doc) {
    && Distinct(log.categories)
    && (!log.made ==> log.categories == [])
    && (log.made ==> |log.table| == MAX_EVENT_TABLE_SIZE && Filled(log.table, EventsOf(log.categories, doc.ds)))
  }

  function CountOf(ds: seq<Def>, categories: seq<string>): nat {
    if ds == [] then 0 else (if ds[0].category in categories then 1 else 0) + CountOf(ds[1..], categories)
  }

  lemma {:induction false} CountOneMore(ds: seq<Def>, cs: seq<string>, c: string)
    requires c !in cs
    ensures CountOf(ds, cs + [c]) == CountOf(ds, cs) + |Filter(ds, c)|
  {
    if ds != [] {
      CountOneMore(ds[1..], cs, c);
    }
  }

  lemma {:induction false} CountAtMost(ds: seq<Def>, cs: seq<string>)
    ensures CountOf(ds, cs) <= |ds|
  {
    if ds != [] {
      CountAtMost(ds[1..], cs);
    }
  }

  /** Distinct categories share no events. */
  lemma DistinctPrefix(cs: seq<string>)
    requires Distinct(cs) && cs != []
    ensures Distinct(cs[..|cs| - 1]) && cs[|cs| - 1] !in cs[..|cs| - 1]
  {
  }

  lemma {:induction false} EventsCount(cs: seq<string>, ds: seq<Def>)
    requires Distinct(cs)
    ensures |EventsOf(cs, ds)| == CountOf(ds, cs)
  {
    hide Entries, Filter, CountOf, Distinct;
    if cs == [] {
      NoneCounted(ds);
    } else {
      DistinctPrefix(cs);
      var init, c := cs[..|cs| - 1], cs[|cs| - 1];
      EventsCount(init, ds);
      assert cs == init + [c];
      CountOneMore(ds, init, c);
    }
  }

  lemma {:induction false} NoneCounted(ds: seq<Def>)
    ensures CountOf(ds, []) == 0
  {
    if ds != [] {
      NoneCounted(ds[1..]);
    }
  }

  lemma {:induction false} FilterFrom(ds: seq<Def>, c: string)
    ensures forall d :: d in Filter(ds, c) <==> d in ds && d.category == c
  {
    if ds != [] {
      FilterFrom(ds[1..], c);
      assert ds == [ds[0]] + ds[1..];
    }
  }

  lemma {:induction false} EventsNamed(cs: seq<string>, ds: seq<Def>)
    requires forall d :: d in ds ==> d.name != EVENT_NAME_DELIMITER_STR
    ensures Named(EventsOf(cs, ds))
  {
    hide Entries, Filter, Named;
    if cs == [] {
      NoneNamed();
    } else {
      EventsNamed(cs[..|cs| - 1], ds);
      FilterFrom(ds, cs[|cs| - 1]);
      EntriesNamed(Filter(ds, cs[|cs| - 1]));
      BothNamed(EventsOf(cs[..|cs| - 1], ds), Entries(Filter(ds, cs[|cs| - 1])));
    }
  }

  lemma NoneNamed()
    ensures Named([])
  {
  }

  lemma EntriesNamed(ds: seq<Def>)
    requires forall d :: d in ds ==> d.name != EVENT_NAME_DELIMITER_STR
    ensures Named(Entries(ds))
  {
  }

  lemma BothNamed(a: seq<Event>, b: seq<Event>)
    requires Named(a) && Named(b)
    ensures Named(a + b)
  {
  }

  lemma EventsOneMore(cs: seq<string>, c: string, ds: seq<Def>)
    ensures EventsOf(cs + [c], ds) == EventsOf(cs, ds) + Entries(Filter(ds, c))
  {
    assert (cs + [c])[..|cs|] == cs;
  }

  /** The table an initialisation starts from. */
  lemma StartsFilled(log: Log, doc: Doc, memory: seq<Event>)
    requires Inv(log, doc) && |memory| == MAX_EVENT_TABLE_SIZE
    requires forall d :: d in doc.ds ==> d.name != EVENT_NAME_DELIMITER_STR
    ensures var t, es := TableOf(log, memory), EventsOf(log.categories, doc.ds);
      |t| == MAX_EVENT_TABLE_SIZE && Filled(t, es) && FindDelimiter(t, 0) == Some(|es|)
  {
    EventsNamed(log.categories, doc.ds);
    DelimiterFrom(TableOf(log, memory), EventsOf(log.categories, doc.ds), 0);
  }

  lemma FitsAnother(cs: seq<string>, c: string, ds: seq<Def>)
    requires Distinct(cs) && c !in cs
    ensures |EventsOf(cs, ds)| + |Filter(ds, c)| <= |ds|
  {
    EventsCount(cs, ds);
    CountOneMore(ds, cs, c);
    CountAtMost(ds, cs + [c]);
  }

  /** One initialisation keeps the invariant.  A known category, or one too many, changes nothing;
      any other appends its events, which always fit, and becomes known if it has any. */
  lemma {:induction false} InitKeeps(log: Log, category: string, doc: Doc, memory: seq<Event>)
    requires Inv(log, doc) && DocOk(doc, category) && |memory| == MAX_EVENT_TABLE_SIZE
    ensures var (log', ret) := Init(log, category, Stream(doc.prelude, doc.ds), memory);
      && Inv(log', doc)
      && (if |log.categories| > MAX_CATEGORIES_PER_DAEMON || category in log.categories then log' == log && ret == -1
          else if Filter(doc.ds, category) == [] then log'.categories == log.categories && ret == 0
          else log'.categories == log.categories + [category] && ret == 1)
    ensures category !in log.categories ==> Room(log, category, Stream(doc.prelude, doc.ds), memory)
  {
    hide ScanAll, DefOk, CategoryOk, Filled, Stream, FindDelimiter, CountOf, Entries, Filter, EventsOf;
    if category !in log.categories {
      var es := EventsOf(log.categories, doc.ds);
      StartsFilled(log, doc, memory);
      FitsAnother(log.categories, category, doc.ds);
      ScanIsFilter(TableOf(log, memory), es, doc.prelude, doc.ds, category);
      EventsOneMore(log.categories, category, doc.ds);
      if Filter(doc.ds, category) == [] { SameEvents(log.categories, category, doc.ds); }
    }
  }

  lemma SameEvents(cs: seq<string>, c: string, ds: seq<Def>)
    requires Filter(ds, c) == []
    ensures EventsOf(cs, ds) + Entries(Filter(ds, c)) == EventsOf(cs, ds)
  {
  }

  /** Any sequence of initialisations. */
  function Inits(log: Log, cs: seq<string>, doc: Doc, memory: seq<Event>): Log
    requires |memory| == MAX_EVENT_TABLE_SIZE
    decreases |cs|
  {
    if cs == [] then log else Inits(Init(log, cs[0], Stream(doc.prelude, doc.ds), memory).0, cs[1..], doc, memory)
  }

  /** After any sequence of initialisations, the delimiter is right behind the events of the
      initialised categories. */
  lemma {:induction false} InitsKeep(log: Log, cs: seq<string>, doc: Doc, memory: seq<Event>)
    requires Inv(log, doc) && (forall c :: c in cs ==> DocOk(doc, c)) && |memory| == MAX_EVENT_TABLE_SIZE
    ensures Inv(Inits(log, cs, doc, memory), doc)
    decreases |cs|
  {
    hide Inv, DocOk, Init, Stream;
    if cs != [] {
      assert cs[0] in cs;
      InitKeeps(log, cs[0], doc, memory);
      InitsKeep(Init(log, cs[0], Stream(doc.prelude, doc.ds), memory).0, cs[1..], doc, memory);
    }
  }

  /** The guard admits one category too many: the category table, which has 99 slots, overflows
      exactly when 99 categories are known and another one with events is initialised. */
  lemma {:induction false} CategoryTableFits(log: Log, category: string, doc: Doc, memory: seq<Event>)
    requires Inv(log, doc) && DocOk(doc, category) && |memory| == MAX_EVENT_TABLE_SIZE
    requires |log.categories| <= MAX_CATEGORIES_PER_DAEMON
    ensures |Init(log, category, Stream(doc.prelude, doc.ds), memory).0.categories| <= MAX_CATEGORIES_PER_DAEMON <==>
      !(|log.categories| == MAX_CATEGORIES_PER_DAEMON && category !in log.categories && Filter(doc.ds, category) != [])
  {
    hide Init, Inv, DocOk, Stream;
    InitKeeps(log, category, doc, memory);
  }

  /** Categories that are new, have events and do not exceed the guard all become known. */
  lemma {:induction false} InitsAll(log: Log, cs: seq<string>, doc: Doc, memory: seq<Event>)
    requires Inv(log, doc) && |memory| == MAX_EVENT_TABLE_SIZE && Distinct(log.categories + cs)
    requires forall c :: c in cs ==> DocOk(doc, c) && Filter(doc.ds, c) != []
    requires |log.categories| + |cs| <= MAX_CATEGORIES_PER_DAEMON + 1
    ensures Inits(log, cs, doc, memory).categories == log.categories + cs
    decreases |cs|
  {
    hide Inv, DocOk, Init, Stream, Filter;
    if cs == [] {
      assert log.categories + cs == log.categories;
    } else {
      assert cs[0] in cs;
      NotIn(log.categories, cs);
      InitKeeps(log, cs[0], doc, memory);
      assert log.categories + [cs[0]] + cs[1..] == log.categories + cs;
      InitsAll(Init(log, cs[0], Stream(doc.prelude, doc.ds), memory).0, cs[1..], doc, memory);
    }
  }

  lemma NotIn(a: seq<string>, b: seq<string>)
    requires Distinct(a + b) && b != []
    ensures b[0] !in a
  {
    assert (a + b)[|a|] == b[0];
    assert forall i :: 0 <= i < |a| ==> (a + b)[i] == a[i];
  }

  // ----- a file with a hundred categories -----

  /** The k-th category is the letter C, repeated. */
  function ManyCategories(n: nat): (cs: seq<string>)
    ensures |cs| == n && forall i :: 0 <= i < n ==> |cs[i]| == i + 1 && cs[i][0] == 'C'
  {
    seq(n, i requires 0 <= i < n => seq(i + 1, _ => 'C'))
  }

  function OneOf(category: string): Def {
    Def("NAME", category, "1", "LOG_INFO", "NA", None, "TEXT")
  }

  function ManyDefs(cs: seq<string>): (ds: seq<Def>)
    ensures |ds| == |cs| && forall i :: 0 <= i < |ds| ==> ds[i] == OneOf(cs[i])
  {
    if cs == [] then [] else [OneOf(cs[0])] + ManyDefs(cs[1..])
  }

  /** A text that starts with a capital other than C is neither a keyword nor such a category. */
  lemma CapitalIsPlain(v: string, c: string)
    requires v != [] && v[0] != 'C' && v[0] != 'e' && v[0] != 's' && v[0] != 'k' && c != [] && c[0] == 'C'
    ensures Plain(v, c)
  {
    KeywordsStartLower();
  }

  lemma OneOfOk(category: string, c: string)
    requires category != [] && category[0] == 'C' && c != [] && c[0] == 'C'
    ensures DefOk(OneOf(category), c) && CategoryOk(c) && OneOf(category).name != EVENT_NAME_DELIMITER_STR
  {
    hide Plain;
    CapitalIsPlain("NAME", c);
    CapitalIsPlain("1", c);
    CapitalIsPlain("LOG_INFO", c);
    CapitalIsPlain("NA", c);
    CapitalIsPlain("TEXT", c);
    NoKeyword(category);
    NoKeyword(c);
    assert EVENT_NAME_DELIMITER_STR[0] == 'E' && "NAME"[0] == 'N';
  }

  lemma NoKeyword(c: string)
    requires c != [] && c[0] == 'C'
    ensures c !in KEYWORDS && CategoryOk(c)
  {
    KeywordsStartLower();
    assert "description"[0] == 'd';
  }

  lemma ManyDocOk(cs: seq<string>, c: string)
    requires |cs| < MAX_EVENT_TABLE_SIZE && c != [] && c[0] == 'C'
    requires forall i :: 0 <= i < |cs| ==> cs[i] != [] && cs[i][0] == 'C'
    ensures DocOk(Doc([], ManyDefs(cs)), c)
  {
    hide DefOk, CategoryOk, OneOf, ManyDefs;
    OneOfOk(c, c);
    forall d | d in ManyDefs(cs) ensures DefOk(d, c) && d.name != EVENT_NAME_DELIMITER_STR {
      var i :| 0 <= i < |cs| && ManyDefs(cs)[i] == d;
      OneOfOk(cs[i], c);
    }
  }

  lemma KeywordsStartLower()
    ensures forall k :: k in KEYWORDS ==> k != [] && (k[0] == 'e' || k[0] == 's' || k[0] == 'k')
  {
    forall k | k in KEYWORDS ensures k != [] && (k[0] == 'e' || k[0] == 's' || k[0] == 'k') {
      KeywordList(k);
    }
  }

  lemma {:induction false} InFilter(ds: seq<Def>, d: Def)
    requires d in ds
    ensures Filter(ds, d.category) != []
  {
    if ds[0] != d {
      InFilter(ds[1..], d);
    }
  }

  /** A hundred categories can be initialised, which is one more than the category table holds. */
  lemma {:induction false} HundredCategories(memory: seq<Event>)
    requires |memory| == MAX_EVENT_TABLE_SIZE
    ensures var cs := ManyCategories(100);
      (forall c :: c in cs ==> DocOk(Doc([], ManyDefs(cs)), c))
      && |Inits(FRESH, cs, Doc([], ManyDefs(cs)), memory).categories| == 100
  {
    hide DocOk, DefOk, Filter, Inits, ManyCategories, ManyDefs, OneOf;
    var cs := ManyCategories(100);
    var doc := Doc([], ManyDefs(cs));
    ManyOk(cs);
    assert FRESH.categories + cs == cs;
    InitsAll(FRESH, cs, doc, memory);
  }

  lemma ManyOk(cs: seq<string>)
    requires |cs| < MAX_EVENT_TABLE_SIZE && forall i :: 0 <= i < |cs| ==> |cs[i]| == i + 1 && cs[i][0] == 'C'
    ensures Distinct(cs)
    ensures forall c :: c in cs ==> DocOk(Doc([], ManyDefs(cs)), c) && Filter(ManyDefs(cs), c) != []
  {
    hide DocOk, DefOk, Filter, ManyDefs;
    forall c | c in cs ensures DocOk(Doc([], ManyDefs(cs)), c) && Filter(ManyDefs(cs), c) != [] {
      ManyDocOk(cs, c);
      var i :| 0 <= i < |cs| && cs[i] == c;
      assert ManyDefs(cs)[i] == OneOf(c);
      InFilter(ManyDefs(cs), OneOf(c));
    }
  }

  // ----- the Python version -----

  datatype PyEvent = PyEvent(category: string, name: string, id: int, severity: string, description: string)

  datatype PyLog = PyLog(content: seq<PyEvent>, categories: seq<string>)

  function View(e: Event): PyEvent {
    PyEvent(e.category, e.name, e.id, e.severity, e.description)
  }

  function Views(es: seq<Event>): (r: seq<PyEvent>)
    ensures |r| == |es| && forall i :: 0 <= i < |r| ==> r[i] == View(es[i])
  {
    if es == [] then [] else [View(es[0])] + Views(es[1..])
  }

  /** The definitions of the category, as the Python version stores them. */
  function PyFilter(ds: seq<Def>, category: string): seq<PyEvent> {
    if ds == [] then []
    else (if ds[0].category == category then [View(Described(ds[0]))] else []) + PyFilter(ds[1..], category)
  }

  predicate PyKnown(categories: seq<string>, category: string) {
    exists c :: c in categories && In(category, c)
  }

  function PyInit(p: PyLog, category: string, ds: seq<Def>): (PyLog, bool) {
    if PyKnown(p.categories, category) then (p, false)
    else if PyFilter(ds, category) == [] then (p, false)
    else (PyLog(p.content + PyFilter(ds, category), p.categories + [category]), true)
  }

  class PyEventLog {
    var content: seq<PyEvent>
    var categories: seq<string>

    constructor ()
      ensures content == [] && categories == []
    {
      content, categories := [], [];
    }

    /** Appends the definitions of a category that does not count as initialised. */
    method EventLogInit(category: string, ds: seq<Def>) returns (ok: bool)
      modifies this
      ensures (PyLog(content, categories), ok) == PyInit(old(PyLog(content, categories)), category, ds)
    {
      for i := 0 to |categories|
        invariant forall j :: 0 <= j < i ==> !In(category, categories[j])
      {
        if In(category, categories[i]) {
          return false;
        }
      }
      assert !PyKnown(categories, category);
      var found := false;
      assert ds[0..] == ds;
      for k := 0 to |ds|
        invariant old(content) + PyFilter(ds, category) == content + PyFilter(ds[k..], category)
        invariant found <==> |content| > |old(content)|
        invariant |content| >= |old(content)| && (!found ==> content == old(content)) && categories == old(categories)
      {
        assert ds[k..][0] == ds[k] && ds[k..][1..] == ds[k + 1..];
        var d := ds[k];
        if d.category == category {
          content := content + [PyEvent(d.category, d.name, ReadInt(d.id), d.severity, d.template)];
          assert content[|content| - 1] == View(Described(d));
          found := true;
        }
      }
      assert ds[|ds|..] == [] && content + [] == content;
      assert |content| == |old(content)| + |PyFilter(ds, category)|;
      if !found {
        return false;
      }
      categories := categories + [category];
      return true;
    }
  }

  /** No first key of a definition of the category changes what both versions store. */
  predicate Undisturbed(ds: seq<Def>, category: string) {
    forall d :: d in ds && d.category == category ==> KeepsView(d)
  }

  /** Both versions store the same of the definitions exactly if no first key does harm. */
  lemma {:induction false} FilterViews(ds: seq<Def>, c: string)
    ensures |PyFilter(ds, c)| == |Filter(ds, c)|
    ensures PyFilter(ds, c) == Views(Entries(Filter(ds, c))) <==> Undisturbed(ds, c)
  {
    hide EntryOf, Described, KeepsView, PyFilter, Filter;
    var found := Filter(ds, c);
    PyFilterIs(ds, c);
    FilterFrom(ds, c);
    forall i | 0 <= i < |found| ensures View(EntryOf(found[i])) == View(Described(found[i])) <==> KeepsView(found[i]) {
      ViewExactly(found[i]);
    }
    var a, b := Views(DescribedAll(found)), Views(Entries(found));
    if a == b {
      forall d | d in found ensures KeepsView(d) {
        var i :| 0 <= i < |found| && found[i] == d;
        assert a[i] == b[i];
      }
    }
  }

  lemma {:induction false} PyFilterIs(ds: seq<Def>, c: string)
    ensures PyFilter(ds, c) == Views(DescribedAll(Filter(ds, c)))
  {
    hide Described;
    if ds != [] {
      PyFilterIs(ds[1..], c);
      if ds[0].category == c { FirstView(ds[0], Filter(ds[1..], c)); }
    }
  }

  lemma FirstView(d: Def, rest: seq<Def>)
    ensures Views(DescribedAll([d] + rest)) == [View(Described(d))] + Views(DescribedAll(rest))
  {
    hide Described;
    assert ([d] + rest)[1..] == rest && ([Described(d)] + DescribedAll(rest))[1..] == DescribedAll(rest);
  }

  lemma ViewExactly(d: Def)
    ensures View(EntryOf(d)) == View(Described(d)) <==> KeepsView(d)
  {
    hide ReadInt, CountKeys;
    WordsAsValues(d);
  }

  /** Both versions have initialised the same categories and hold the same events. */
  predicate Same(log: Log, p: PyLog, doc: Doc) {
    p.categories == log.categories && p.content == Views(EventsOf(log.categories, doc.ds))
  }

  /** One initialisation keeps the two versions the same exactly when the Python version's
      substring test does not mistake a new category with events for a known one, and no first key of
      its definitions does harm. */
  lemma {:induction false} SameInit(log: Log, p: PyLog, category: string, doc: Doc, memory: seq<Event>)
    requires Inv(log, doc) && DocOk(doc, category) && Same(log, p, doc) && |memory| == MAX_EVENT_TABLE_SIZE
    requires |log.categories| <= MAX_CATEGORIES_PER_DAEMON
    ensures Same(Init(log, category, Stream(doc.prelude, doc.ds), memory).0, PyInit(p, category, doc.ds).0, doc) <==>
      (category in log.categories || Filter(doc.ds, category) == []
       || (!PyKnown(p.categories, category) && Undisturbed(doc.ds, category)))
  {
    hide Init, Inv, DocOk, Stream, Filter, Entries, Views, EventsOf, PyFilter, In, Undisturbed;
    InitKeeps(log, category, doc, memory);
    FilterViews(doc.ds, category);
    EventsOneMore(log.categories, category, doc.ds);
    ViewsAppend(EventsOf(log.categories, doc.ds), Entries(Filter(doc.ds, category)));
    NoViews(doc.ds, category);
    SameTail(Views(EventsOf(log.categories, doc.ds)), PyFilter(doc.ds, category),
      Views(Entries(Filter(doc.ds, category))));
    if category in log.categories {
      InItself(category);
    }
  }

  lemma SameTail(a: seq<PyEvent>, b: seq<PyEvent>, c: seq<PyEvent>)
    ensures a + b == a + c <==> b == c
  {
    assert (a + b)[|a|..] == b && (a + c)[|a|..] == c;
  }

  /** The two versions side by side, after each of a sequence of initialisations. */
  predicate SameThroughout(log: Log, p: PyLog, cs: seq<string>, doc: Doc, memory: seq<Event>)
    requires |memory| == MAX_EVENT_TABLE_SIZE
    decreases |cs|
  {
    cs == [] ||
    (var log', p' := Init(log, cs[0], Stream(doc.prelude, doc.ds), memory).0, PyInit(p, cs[0], doc.ds).0;
     Same(log', p', doc) && SameThroughout(log', p', cs[1..], doc, memory))
  }

  /** No new category with events is part of the name of one that is initialised before it, or has a
      definition whose first key does harm. */
  predicate NoMistake(known: seq<string>, cs: seq<string>, ds: seq<Def>)
    decreases |cs|
  {
    cs == [] ||
    if cs[0] in known || Filter(ds, cs[0]) == [] then NoMistake(known, cs[1..], ds)
    else !PyKnown(known, cs[0]) && Undisturbed(ds, cs[0]) && NoMistake(known + [cs[0]], cs[1..], ds)
  }

  /** Over any sequence of initialisations, within the limit on categories, the two versions stay
      the same if and only if no new category is mistaken for a known one or has a harmful first key. */
  lemma {:induction false} SameInits(log: Log, p: PyLog, cs: seq<string>, doc: Doc, memory: seq<Event>)
    requires Inv(log, doc) && Same(log, p, doc) && |memory| == MAX_EVENT_TABLE_SIZE &&
      (forall c :: c in cs ==> DocOk(doc, c))
    requires |log.categories| + |cs| <= MAX_CATEGORIES_PER_DAEMON + 1
    ensures SameThroughout(log, p, cs, doc, memory) <==> NoMistake(log.categories, cs, doc.ds)
    decreases |cs|
  {
    hide Init, PyInit, Inv, DocOk, Stream, Filter, PyKnown, EventsOf, Undisturbed;
    if cs != [] {
      assert cs[0] in cs;
      var log', p' := Init(log, cs[0], Stream(doc.prelude, doc.ds), memory).0, PyInit(p, cs[0], doc.ds).0;
      SameInit(log, p, cs[0], doc, memory);
      InitKeeps(log, cs[0], doc, memory);
      if Same(log', p', doc) {
        SameInits(log', p', cs[1..], doc, memory);
      }
    }
  }

  lemma InItself(c: string)
    ensures In(c, c)
  {
  }

  lemma NoViews(ds: seq<Def>, c: string)
    ensures Filter(ds, c) == [] <==> Views(Entries(Filter(ds, c))) == []
  {
  }

  lemma ViewsAppend(a: seq<Event>, b: seq<Event>)
    ensures Views(a + b) == Views(a) + Views(b)
  {
  }

  /** After VLANINTERFACE, the category VLAN can no longer be initialised in the Python version. */
  lemma {:induction false} ShadowedCategory(p: PyLog, ds: seq<Def>)
    requires "VLANINTERFACE" in p.categories
    ensures PyInit(p, "VLAN", ds) == (p, false)
  {
    assert "VLAN" <= "VLANINTERFACE" && In("VLAN", "VLANINTERFACE");
  }

  // ----- searching for an event -----

  /** Where the search stops: at the name, at an entry whose description is the delimiter, or at
      the end of the table. */
  function Search(t: seq<Event>, name: string, i: nat): nat
    decreases |t| - i
  {
    if i >= |t| then |t|
    else if t[i].name == name || t[i].description == EVENT_NAME_DELIMITER_STR then i
    else Search(t, name, i + 1)
  }

  lemma {:induction false} SearchIs(t: seq<Event>, name: string, i: nat)
    ensures var r := Search(t, name, i);
      && (i <= |t| ==> i <= r <= |t|)
      && (forall k :: i <= k < r && k < |t| ==> t[k].name != name && t[k].description != EVENT_NAME_DELIMITER_STR)
      && (i <= r < |t| ==> t[r].name == name || t[r].description == EVENT_NAME_DELIMITER_STR)
    decreases |t| - i
  {
    if i < |t| {
      SearchIs(t, name, i + 1);
    }
  }

  /** An initialised event is found at its first position, and is not taken for an unknown one. */
  lemma {:induction false} KnownEvent(t: seq<Event>, es: seq<Event>, j: nat)
    requires |t| == MAX_EVENT_TABLE_SIZE && Filled(t, es) && j < |es|
    requires forall k :: 0 <= k < j ==> es[k].name != es[j].name
    requires forall k :: 0 <= k < |es| ==> es[k].description != EVENT_NAME_DELIMITER_STR
    ensures Search(t, es[j].name, 0) == j && j != MAX_EVENT_TABLE_SIZE - 1
  {
    SearchIs(t, es[j].name, 0);
    assert forall k :: 0 <= k < |es| ==> t[..|es|][k] == t[k];
  }

  // ----- an unknown event in a table that was reached -----

  /** Behind its events, the table holds what the allocated memory held. */
  predicate InMemory(log: Log, doc: Doc, memory: seq<Event>) {
    log.made ==> Behind(memory, log.table, |EventsOf(log.categories, doc.ds)|)
  }

  lemma InitBehind(log: Log, category: string, doc: Doc, memory: seq<Event>)
    requires Inv(log, doc) && DocOk(doc, category) && |memory| == MAX_EVENT_TABLE_SIZE && InMemory(log, doc, memory)
    ensures InMemory(Init(log, category, Stream(doc.prelude, doc.ds), memory).0, doc, memory)
  {
    hide ScanAll, DefOk, CategoryOk, Filled, Stream, FindDelimiter, CountOf, Entries, Filter, EventsOf;
    if category !in log.categories {
      var es := EventsOf(log.categories, doc.ds);
      StartsFilled(log, doc, memory);
      FitsAnother(log.categories, category, doc.ds);
      ScanIsFilter(TableOf(log, memory), es, doc.prelude, doc.ds, category);
      assert Behind(memory, TableOf(log, memory), |es|) by { CreatedBehind(log, doc, memory); }
      hide Behind;
      ScanBehind(memory, TableOf(log, memory), es, doc.prelude, doc.ds, category);
      EventsOneMore(log.categories, category, doc.ds);
      if Filter(doc.ds, category) == [] { SameEvents(log.categories, category, doc.ds); }
    }
  }

  lemma CreatedBehind(log: Log, doc: Doc, memory: seq<Event>)
    requires |memory| == MAX_EVENT_TABLE_SIZE && Inv(log, doc) && InMemory(log, doc, memory)
    ensures Behind(memory, TableOf(log, memory), |EventsOf(log.categories, doc.ds)|)
  {
  }

  lemma {:induction false} InitsBehind(log: Log, cs: seq<string>, doc: Doc, memory: seq<Event>)
    requires Inv(log, doc) && (forall c :: c in cs ==> DocOk(doc, c)) && |memory| == MAX_EVENT_TABLE_SIZE
    requires InMemory(log, doc, memory)
    ensures Inv(Inits(log, cs, doc, memory), doc) && InMemory(Inits(log, cs, doc, memory), doc, memory)
    decreases |cs|
  {
    hide Inv, DocOk, Init, Stream, InMemory;
    if cs != [] {
      assert cs[0] in cs;
      InitKeeps(log, cs[0], doc, memory);
      InitBehind(log, cs[0], doc, memory);
      InitsBehind(Init(log, cs[0], Stream(doc.prelude, doc.ds), memory).0, cs[1..], doc, memory);
    }
  }

  /** The caller takes a missing table and the last index for an unknown event. */
  predicate Recognised(log: Log, name: string) {
    !log.made || Search(log.table, name, 0) == MAX_EVENT_TABLE_SIZE - 1
  }

  predicate Unknown(es: seq<Event>, name: string) {
    name != EVENT_NAME_DELIMITER_STR && forall k :: 0 <= k < |es| ==> es[k].name != name
  }

  /** Where a search for a name that no event bears stops: at an event whose template is the
      delimiter, and behind the events at memory that happens to hold the delimiter or the name. */
  predicate StopsAt(es: seq<Event>, memory: seq<Event>, name: string, k: nat)
    requires k < |memory|
  {
    if k < |es| then es[k].description == EVENT_NAME_DELIMITER_STR
    else memory[k].description == EVENT_NAME_DELIMITER_STR || (k > |es| && memory[k].name == name)
  }

  /** After any initialisations, an event that is not initialised is recognised as unknown exactly
      when the memory of the last entry happens to stop the search and nothing before it does.
      Otherwise an event or uninitialised entry is taken for it, or the memory behind the table. */
  lemma {:induction false} UnknownOnReached(cs: seq<string>, doc: Doc, memory: seq<Event>, name: string)
    requires (forall c :: c in cs ==> DocOk(doc, c)) && |memory| == MAX_EVENT_TABLE_SIZE
    requires Inits(FRESH, cs, doc, memory).made
    requires Unknown(EventsOf(Inits(FRESH, cs, doc, memory).categories, doc.ds), name)
    ensures var log := Inits(FRESH, cs, doc, memory);
      var es, r := EventsOf(log.categories, doc.ds), Search(log.table, name, 0);
      && (Recognised(log, name) <==>
        StopsAt(es, memory, name, MAX_EVENT_TABLE_SIZE - 1)
        && forall k :: 0 <= k < MAX_EVENT_TABLE_SIZE - 1 ==> !StopsAt(es, memory, name, k))
      && (!Recognised(log, name) ==>
        r == MAX_EVENT_TABLE_SIZE || (r < MAX_EVENT_TABLE_SIZE - 1 && StopsAt(es, memory, name, r)))
  {
    hide DocOk, Init, Search, Stream, Filled, Behind;
    var log := Inits(FRESH, cs, doc, memory);
    var es := EventsOf(log.categories, doc.ds);
    assert Inv(FRESH, doc) && InMemory(FRESH, doc, memory);
    InitsBehind(FRESH, cs, doc, memory);
    StopsAre(log.table, es, memory, name);
    SearchIs(log.table, name, 0);
  }

  /** Where a search for an unknown name stops in the table. */
  lemma StopsAre(t: seq<Event>, es: seq<Event>, memory: seq<Event>, name: string)
    requires Filled(t, es) && Behind(memory, t, |es|) && Unknown(es, name)
    ensures |t| == |memory| && forall k :: 0 <= k < |t| ==>
      (t[k].name == name || t[k].description == EVENT_NAME_DELIMITER_STR <==> StopsAt(es, memory, name, k))
  {
    assert forall k :: 0 <= k < |es| ==> t[k] == t[..|es|][k] == es[k];
  }

  /** No template is the delimiter. */
  predicate NoDelimiters(es: seq<Event>) {
    forall k :: 0 <= k < |es| ==> es[k].description != EVENT_NAME_DELIMITER_STR
  }

  /** Memory as a fresh process usually gets it. */
  function Zeroed(): (m: seq<Event>)
    ensures |m| == MAX_EVENT_TABLE_SIZE && forall k :: 0 <= k < |m| ==> m[k] == Event("", 0, "", "", 0, "")
  {
    seq(MAX_EVENT_TABLE_SIZE, _ => Event("", 0, "", "", 0, ""))
  }

  /** In zeroed memory, no unknown event is ever recognised: the search runs off the table. */
  lemma {:induction false} NeverRecognised(cs: seq<string>, doc: Doc, name: string)
    requires (forall c :: c in cs ==> DocOk(doc, c)) && Inits(FRESH, cs, doc, Zeroed()).made
    requires name != "" && Unknown(EventsOf(Inits(FRESH, cs, doc, Zeroed()).categories, doc.ds), name)
    requires NoDelimiters(EventsOf(Inits(FRESH, cs, doc, Zeroed()).categories, doc.ds))
    ensures Search(Inits(FRESH, cs, doc, Zeroed()).table, name, 0) == MAX_EVENT_TABLE_SIZE
    ensures !Recognised(Inits(FRESH, cs, doc, Zeroed()), name)
  {
    hide DocOk, Init, Search, Stream;
    UnknownOnReached(cs, doc, Zeroed(), name);
  }

  lemma SmallRun(cs: seq<string>, doc: Doc)
    requires cs == ["C"] && doc == Doc([], [OneOf("C")])
    ensures var log := Inits(FRESH, cs, doc, Zeroed());
      log.made && log.categories == cs && Search(log.table, "OTHER", 0) == MAX_EVENT_TABLE_SIZE &&
        !Recognised(log, "OTHER")
  {
    hide DocOk, DefOk, Init, Inits, Stream, Search, Zeroed, EntryOf, OneOf, Recognised, EventsOf, Filter;
    OneDoc(cs, doc);
    InitsAll(FRESH, cs, doc, Zeroed());
    InitsKeep(FRESH, cs, doc, Zeroed());
    OneEvent(doc.ds);
    NeverRecognised(cs, doc, "OTHER");
  }

  /** One such table: a single category, and a search for an event of another one. */
  lemma {:induction false} UnknownTaken()
    ensures exists cs, doc ::
      var log := Inits(FRESH, cs, doc, Zeroed());
      log.made && log.categories == ["C"] && Search(log.table, "OTHER", 0) == MAX_EVENT_TABLE_SIZE &&
        !Recognised(log, "OTHER")
  {
    hide Inits, Search, Zeroed, Recognised, OneOf;
    SmallRun(["C"], Doc([], [OneOf("C")]));
  }

  lemma OneDoc(cs: seq<string>, doc: Doc)
    requires cs == ["C"] && doc == Doc([], [OneOf("C")])
    ensures Distinct(FRESH.categories + cs) && FRESH.categories + cs == cs
    ensures forall c :: c in cs ==> DocOk(doc, c) && Filter(doc.ds, c) != []
  {
    hide DocOk, DefOk, ManyDefs, Filter, OneOf;
    assert FRESH.categories + cs == cs;
    OneDef(cs);
    ManyDocOk(cs, "C");
    OneFiltered(doc.ds);
  }

  lemma OneDef(cs: seq<string>)
    requires cs == ["C"]
    ensures ManyDefs(cs) == [OneOf("C")]
  {
    hide OneOf;
    assert cs[1..] == [];
  }

  lemma OneFiltered(ds: seq<Def>)
    requires ds == [OneOf("C")]
    ensures Filter(ds, "C") != []
  {
    InFilter(ds, OneOf("C"));
  }

  lemma OneEvent(ds: seq<Def>)
    requires ds == [OneOf("C")]
    ensures EventsOf(["C"], ds) == [EntryOf(OneOf("C"))]
    ensures Unknown(EventsOf(["C"], ds), "OTHER") && NoDelimiters(EventsOf(["C"], ds))
  {
    hide EntryOf;
    assert ["C"][..0] == [] && ds[1..] == [];
    assert Filter(ds[1..], "C") == [] && Filter(ds, "C") == ds;
    var es := Entries(ds);
    assert |es| == 1 && es[0] == EntryOf(ds[0]) && es == [es[0]];
    assert EventsOf([], ds) == [] && [] + es == es;
    OneEntry();
  }

  lemma OneEntry()
    ensures EntryOf(OneOf("C")).name != "OTHER" && EntryOf(OneOf("C")).name != EVENT_NAME_DELIMITER_STR
    ensures EntryOf(OneOf("C")).description != EVENT_NAME_DELIMITER_STR
  {
    assert "NAME"[0] == 'N' && "TEXT"[0] == 'T' && "OTHER"[0] == 'O' && EVENT_NAME_DELIMITER_STR[0] == 'E';
  }
}
