/** From the events file to the logged message: the stored number of keys decides how many arguments
    of an event are read, and so whether all of its placeholders are filled. */
module EventEndToEnd {
  import opened Options
  import opened Sequences
  import opened Text
  import opened EventSizes
  import opened EventValues
  import opened EventScan
  import opened EventLog
  import opened EventText

  // ----- the arguments that are read -----

  function Somes(kvs: seq<string>): (args: seq<Option<string>>)
    ensures |args| == |kvs| && forall i :: 0 <= i < |kvs| ==> args[i] == Some(kvs[i])
  {
    seq(|kvs|, i requires 0 <= i < |kvs| => Some(kvs[i]))
  }

  /** What is read are the first arguments, none of them NULL, up to the number of keys; fewer only if
      they end there or a NULL follows. */
  lemma {:induction false} GivenExactly(args: seq<Option<string>>, keys: int)
    ensures var r := Given(args, keys);
      && |r| <= |args| && (forall i :: 0 <= i < |r| ==> args[i] == Some(r[i]))
      && (if keys <= 0 then r == [] else |r| <= keys)
      && (|r| < keys ==> |r| == |args| || args[|r|] == None)
    decreases |args|
  {
    if keys > 0 && args != [] && args[0].Some? {
      var rest, r := Given(args[1..], keys - 1), Given(args, keys);
      GivenExactly(args[1..], keys - 1);
      assert r == [args[0].value] + rest;
      assert forall i :: 1 <= i < |r| ==> r[i] == rest[i - 1] && args[i] == args[1..][i - 1];
      assert |rest| < |args[1..]| ==> args[1..][|rest|] == args[|r|];
    }
  }

  /** As many arguments as there are keys are all read, and nothing behind them. */
  lemma {:induction false} GivenAll(kvs: seq<string>, more: seq<Option<string>>)
    ensures Given(Somes(kvs) + more, |kvs|) == kvs
  {
    var args := Somes(kvs) + more;
    var r := Given(args, |kvs|);
    GivenExactly(args, |kvs|);
    assert forall i :: 0 <= i < |kvs| ==> args[i] == Somes(kvs)[i] == Some(kvs[i]);
  }

  /** A NULL ends the arguments. */
  lemma {:induction false} GivenUpToNull(kvs: seq<string>, more: seq<Option<string>>, keys: int)
    requires |kvs| < keys
    ensures Given(Somes(kvs) + [None] + more, keys) == kvs
  {
    var args := Somes(kvs) + [None] + more;
    var r := Given(args, keys);
    GivenExactly(args, keys);
    assert args[|kvs|] == None;
    assert forall i :: 0 <= i < |kvs| ==> args[i] == Somes(kvs)[i] == Some(kvs[i]);
  }

  // ----- the stored event -----

  /** The keys of a definition, separated by commas. */
  predicate HasKeys(d: Def, ks: seq<string>) {
    d.keys == Join(ks, ',') && forall k :: k in ks ==> IsToken(k, ',')
  }

  /** An event is stored with the fields of its definition, and with as many keys as that lists. */
  lemma {:induction false} FieldsStored(d: Def, ks: seq<string>)
    requires HasKeys(d, ks) && KeepsEntry(d)
    ensures var e := EntryOf(d);
      && e.keys == |ks| && e.name == d.name && e.category == d.category && e.severity == d.severity
      && e.description == d.template && forall n: nat :: d.id == Dec(n) ==> e.id == n
  {
    forall n: nat | d.id == Dec(n) ensures ReadInt(d.id) == n {
      NumberRead(n, []);
      assert Dec(n) + [] == Dec(n);
    }
    EntryExactly(d);
    KeysOfJoin(ks);
  }

  /** Names identify events, and no template is the delimiter. */
  predicate Identified(ds: seq<Def>) {
    && (forall i, j :: 0 <= i < j < |ds| ==> ds[i].name != ds[j].name)
    && (forall d :: d in ds ==> d.template != EVENT_NAME_DELIMITER_STR)
  }

  ghost predicate Defined(e: Event, cs: seq<string>, ds: seq<Def>) {
    exists d :: d in ds && d.category in cs && e == EntryOf(d)
  }

  /** Every event of the table comes from a definition of an initialised category, and the other way
      round. */
  lemma {:induction false} EventsFrom(cs: seq<string>, ds: seq<Def>)
    ensures forall e :: e in EventsOf(cs, ds) ==> Defined(e, cs, ds)
    ensures forall d :: d in ds && d.category in cs ==> EntryOf(d) in EventsOf(cs, ds)
  {
    hide EntryOf, Filter, Defined;
    if cs != [] {
      var init, c := cs[..|cs| - 1], cs[|cs| - 1];
      EventsFrom(init, ds);
      EntriesFrom(ds, c);
      assert cs == init + [c];
      forall e | e in EventsOf(cs, ds) ensures Defined(e, cs, ds) {
        if e in EventsOf(init, ds) { MoreCategories(e, init, c, ds); } else { OneCategory(e, cs, c, ds); }
      }
    }
  }

  lemma EntriesFrom(ds: seq<Def>, c: string)
    ensures forall e :: e in Entries(Filter(ds, c)) ==> Defined(e, [c], ds)
    ensures forall d :: d in ds && d.category == c ==> EntryOf(d) in Entries(Filter(ds, c))
  {
    hide EntryOf, Filter;
    FilterFrom(ds, c);
    var last := Filter(ds, c);
    assert forall i :: 0 <= i < |last| ==> last[i] in last && Entries(last)[i] == EntryOf(last[i]);
    forall d | d in ds && d.category == c ensures EntryOf(d) in Entries(last) {
      var i :| 0 <= i < |last| && last[i] == d;
      assert Entries(last)[i] == EntryOf(d);
    }
  }

  lemma MoreCategories(e: Event, cs: seq<string>, c: string, ds: seq<Def>)
    requires Defined(e, cs, ds)
    ensures Defined(e, cs + [c], ds)
  {
    hide EntryOf;
  }

  lemma OneCategory(e: Event, cs: seq<string>, c: string, ds: seq<Def>)
    requires Defined(e, [c], ds) && c in cs
    ensures Defined(e, cs, ds)
  {
    hide EntryOf;
  }

  lemma First(es: seq<Event>, name: string) returns (j: nat)
    requires exists e :: e in es && e.name == name
    ensures j < |es| && es[j].name == name && forall k :: 0 <= k < j ==> es[k].name != name
  {
    j := 0;
    while es[j].name != name
      invariant j < |es| && forall k :: 0 <= k < j ==> es[k].name != name
      invariant exists k :: j <= k < |es| && es[k].name == name
      decreases |es| - j
    {
      j := j + 1;
    }
  }

  lemma NotTheDelimiter(d: Def)
    ensures AfterKeys(d) != EVENT_NAME_DELIMITER_STR
  {
    assert AfterKeys(d)[0] == 'd' || AfterKeys(d)[0] == 'e';
    assert EVENT_NAME_DELIMITER_STR[0] == 'E';
  }

  lemma SameName(ds: seq<Def>, d: Def, e: Def)
    requires Identified(ds) && d in ds && e in ds && d.name == e.name
    ensures d == e
  {
  }

  /** Only the entry of a definition bears its name. */
  lemma OnlyEntry(cs: seq<string>, ds: seq<Def>, d: Def, e: Event)
    requires Identified(ds) && d in ds && Defined(e, cs, ds)
    ensures e.description != EVENT_NAME_DELIMITER_STR && (e.name == d.name ==> e == EntryOf(d))
  {
    hide EntryOf;
    var x :| x in ds && x.category in cs && e == EntryOf(x);
    EntryKeeps(x);
    if e.name == d.name { SameName(ds, d, x); }
  }

  lemma FoundIn(cs: seq<string>, ds: seq<Def>, t: seq<Event>, d: Def)
    requires Identified(ds) && d in ds && d.category in cs
    requires |t| == MAX_EVENT_TABLE_SIZE && Filled(t, EventsOf(cs, ds))
    ensures var i := Search(t, d.name, 0);
      i < |t| && i != MAX_EVENT_TABLE_SIZE - 1 && t[i] == EntryOf(d)
  {
    hide Search, EntryOf, EventsOf, Identified, Defined;
    var es := EventsOf(cs, ds);
    EventsFrom(cs, ds);
    EntryKeeps(d);
    forall e | e in es ensures e.description != EVENT_NAME_DELIMITER_STR && (e.name == d.name ==> e == EntryOf(d)) {
      OnlyEntry(cs, ds, d, e);
    }
    var j := First(es, d.name);
    KnownEvent(t, es, j);
    assert t[j] == t[..|es|][j] == es[j];
  }

  /** After the initialisations, searching for an event of one of their categories finds the entry of
      its definition. */
  lemma {:induction false} EventFound(cs: seq<string>, doc: Doc, memory: seq<Event>, d: Def)
    requires Distinct(cs) && 0 < |cs| <= MAX_CATEGORIES_PER_DAEMON + 1 && |memory| == MAX_EVENT_TABLE_SIZE
    requires forall c :: c in cs ==> DocOk(doc, c) && Filter(doc.ds, c) != []
    requires Identified(doc.ds) && d in doc.ds && d.category in cs
    ensures var log := Inits(FRESH, cs, doc, memory);
      var i := Search(log.table, d.name, 0);
      log.made && i < |log.table| && log.table[i] == EntryOf(d) && !Recognised(log, d.name)
  {
    hide DocOk, Init, Stream, Search, Filter, EntryOf, Inits, EventsOf, Identified, Filled;
    var log := Inits(FRESH, cs, doc, memory);
    assert FRESH.categories + cs == cs;
    InitsAll(FRESH, cs, doc, memory);
    InitsKeep(FRESH, cs, doc, memory);
    FoundIn(cs, doc.ds, log.table, d);
  }

  lemma EntryKeeps(d: Def)
    ensures EntryOf(d).name == d.name
    ensures d.template != EVENT_NAME_DELIMITER_STR ==> EntryOf(d).description != EVENT_NAME_DELIMITER_STR
  {
    NotTheDelimiter(d);
  }

  // ----- the logged message -----

  /** The outcome of composing the message for a stored event. */
  ghost function Logged(e: Event, buffer: string, args: seq<Option<string>>): Call<(Texts, string)> {
    Composed(e.description, buffer, Given(args, e.keys))
  }

  /** Logging an event of an initialised category with a pair for each of its keys gives its template
      with all pairs substituted, when the first key occurs in the template and every intermediate
      text fits. */
  lemma {:induction false} LoggedInFull(cs: seq<string>, doc: Doc, memory: seq<Event>, d: Def, ks: seq<string>,
    ps: seq<Piece>, xs: Pairs, buffer: string, more: seq<Option<string>>)
    requires Distinct(cs) && 0 < |cs| <= MAX_CATEGORIES_PER_DAEMON + 1 && |memory| == MAX_EVENT_TABLE_SIZE
    requires forall c :: c in cs ==> DocOk(doc, c) && Filter(doc.ds, c) != []
    requires Identified(doc.ds) && d in doc.ds && d.category in cs && KeepsEntry(d)
    requires HasKeys(d, ks) && |xs| == |ks| && PairsOk(xs)
    requires Flat(ps) && d.template == Show(ps) && AllFit(ps, xs)
    requires xs != [] ==> Offset(ps, xs[0].0).Some? || buffer == d.template
    ensures var t := Inits(FRESH, cs, doc, memory).table;
      var i := Search(t, d.name, 0);
      var text := Show(SubstMap(ps, MapOf(xs)));
      i < |t| && Logged(t[i], buffer, Somes(Kvs(xs)) + more) ==
        Done((Texts(text, if xs == [] then buffer else text), AccumulateAll([], Kvs(xs))))
  {
    hide DocOk, Init, Stream, Search, Filter, EntryOf, Composed, Given, PairsOk, Flat, AllFit, KeepsEntry;
    EventFound(cs, doc, memory, d);
    FieldsStored(d, ks);
    KvsLength(xs);
    GivenAll(Kvs(xs), more);
    TemplateFits(doc, d);
    ComposedIsMessage(d.template, buffer, xs);
    MessageIsSubstitution(ps, xs, Texts(d.template, buffer), []);
  }

  lemma TemplateFits(doc: Doc, d: Def)
    requires DocOk(doc, d.category) && d in doc.ds
    ensures |d.template| < MAX_LOG_STR
  {
  }

  lemma {:induction false} KvsLength(xs: Pairs)
    ensures |Kvs(xs)| == |xs|
  {
    if xs != [] { KvsLength(xs[1..]); }
  }
}
