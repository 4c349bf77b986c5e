/** The scan for new core dumps: which files are reported, and the record of processed files,
    which is the printed list of the files present at the last scan that found a new one. */
module CoreScan {
  import opened Text

  // ----- substrings -----

  /** A text with a character in it cannot occur in one without. */
  lemma OccursChar(p: string, s: string, c: char)
    requires Occurs(p, s) && c in p
    ensures c in s
  {
    var i: nat :| OccursAt(p, s, i);
    var j :| 0 <= j < |p| && p[j] == c;
    assert s[i + j] == c;
  }

  lemma CharAt(p: string, s: string, i: nat, j: nat)
    requires OccursAt(p, s, i) && j < |p|
    ensures p[j] == s[i + j] && p[j] in p
  {
  }

  /** A text without quotes does not straddle a quote. */
  lemma OccursBesideQuote(p: string, a: string, b: string)
    requires '\'' !in p && Occurs(p, a + ['\''] + b)
    ensures Occurs(p, a) || Occurs(p, b)
  {
    hide OccursAt;
    var s := a + ['\''] + b;
    var i: nat :| OccursAt(p, s, i);
    OccursFits(p, s, i);
    if i + |p| <= |a| {
      assert [] + a + (['\''] + b) == s;
      OccursWithin(p, [], a, ['\''] + b, i);
    } else if i > |a| {
      assert a + ['\''] + b + [] == s;
      OccursWithin(p, a + ['\''], b, [], i - |a| - 1);
      assert OccursAt(p, b, i - |a| - 1);
    } else {
      CharAt(p, s, i, |a| - i);
    }
  }

  // ----- the record -----

  /** A path the printed list shows as it is: it contains a slash, and no character that printing
      would escape or quote differently. */
  predicate Clean(p: string) {
    '/' in p && Printable(p)
  }

  predicate Printable(p: string) {
    forall c :: c in p ==> ' ' <= c <= '~' && c != '\'' && c != '\\'
  }

  function Rest(list: seq<string>): string {
    if list == [] then "]" else ", " + ['\''] + (list[0] + ['\''] + Rest(list[1..]))
  }

  /** A list of paths as Python prints it. */
  function Print(list: seq<string>): string {
    if list == [] then "[]" else "[" + ['\''] + (list[0] + ['\''] + Rest(list[1..]))
  }

  /** The path is part of one of the listed paths. */
  ghost predicate PartOfOne(p: string, list: seq<string>) {
    exists q :: q in list && Occurs(p, q)
  }

  lemma {:induction false} InRest(p: string, list: seq<string>)
    requires Clean(p)
    ensures Occurs(p, Rest(list)) <==> PartOfOne(p, list)
  {
    hide Occurs;
    if list == [] {
      if Occurs(p, "]") { OccursChar(p, "]", '/'); }
    } else {
      InRest(p, list[1..]);
      var tail := Rest(list[1..]);
      InEntry(p, ", ", list[0], tail);
      assert list == [list[0]] + list[1..];
    }
  }

  /** One entry of the printed list. */
  lemma InEntry(p: string, lead: string, q: string, tail: string)
    requires Clean(p) && '/' !in lead
    ensures Occurs(p, lead + ['\''] + (q + ['\''] + tail)) <==> Occurs(p, q) || Occurs(p, tail)
  {
    hide Occurs;
    var s := lead + ['\''] + (q + ['\''] + tail);
    if Occurs(p, s) {
      OccursBesideQuote(p, lead, q + ['\''] + tail);
      if Occurs(p, lead) { OccursChar(p, lead, '/'); }
      OccursBesideQuote(p, q, tail);
    }
    if Occurs(p, q) {
      OccursPart(p, lead + ['\''], q, ['\''] + tail);
      assert s == lead + ['\''] + q + (['\''] + tail);
    }
    if Occurs(p, tail) {
      OccursPart(p, lead + ['\''] + q + ['\''], tail, []);
      assert s == lead + ['\''] + q + ['\''] + tail + [];
    }
  }

  /** The textual test on the printed list is a test of the listed paths: it holds exactly when
      the path is part of one of them. */
  lemma {:induction false} InPrint(p: string, list: seq<string>)
    requires Clean(p)
    ensures Occurs(p, Print(list)) <==> PartOfOne(p, list)
  {
    hide Occurs;
    if list == [] {
      if Occurs(p, "[]") { OccursChar(p, "[]", '/'); }
    } else {
      InRest(p, list[1..]);
      InEntry(p, "[", list[0], Rest(list[1..]));
      assert list == [list[0]] + list[1..];
    }
  }

  // ----- one scan -----

  /** The record file as its lines: none at first, then the printed list. */
  predicate Recorded(p: string, record: seq<string>) {
    exists line :: line in record && In(p, line)
  }

  /** The paths, in order, that are not in the record. */
  function News(record: seq<string>, present: seq<string>): seq<string> {
    if present == [] then []
    else (if Recorded(present[0], record) then [] else [present[0]]) + News(record, present[1..])
  }

  function NewRecord(record: seq<string>, present: seq<string>): seq<string> {
    if News(record, present) == [] then record else [Print(present)]
  }

  class Watcher {
    /** The lines of the record file, once there is one. */
    var record: seq<string>

    constructor ()
      ensures record == []
    {
      record := [];
    }

    /** Looks for the path in every line of the record. */
    method IsRecorded(p: string) returns (existing: bool)
      ensures existing == Recorded(p, record)
    {
      for k := 0 to |record|
        invariant forall j :: 0 <= j < k ==> !In(p, record[j])
      {
        if In(p, record[k]) {
          return true;
        }
      }
      return false;
    }

    /** Reports every present file that the record does not contain, and then records the
        present files if there was one. */
    method ProcessCoredumps(present: seq<string>) returns (reported: seq<string>)
      modifies this
      ensures reported == News(old(record), present) && record == NewRecord(old(record), present)
    {
      hide News, Recorded;
      reported := [];
      var found := false;
      assert present[0..] == present;
      for i := 0 to |present|
        invariant News(record, present) == reported + News(record, present[i..])
        invariant found <==> reported != []
        invariant record == old(record)
      {
        NewsStep(record, reported, present, i);
        var existing := IsRecorded(present[i]);
        if !existing {
          found := true;
          reported := reported + [present[i]];
        }
      }
      NoneNew(record);
      assert present[|present|..] == [];
      if found {
        record := [Print(present)];
      }
    }
  }

  lemma NewsStep(record: seq<string>, reported: seq<string>, present: seq<string>, i: nat)
    requires i < |present|
    ensures reported + News(record, present[i..]) ==
      (if Recorded(present[i], record) then reported else reported + [present[i]]) + News(record, present[i + 1..])
  {
    assert present[i..][0] == present[i] && present[i..][1..] == present[i + 1..];
  }

  lemma NoneNew(record: seq<string>)
    ensures News(record, []) == []
  {
  }

  lemma {:induction false} NewsAre(record: seq<string>, present: seq<string>)
    ensures forall p :: p in News(record, present) <==> p in present && !Recorded(p, record)
  {
    if present != [] {
      NewsAre(record, present[1..]);
      assert present == [present[0]] + present[1..];
    }
  }

  /** After a scan, every present file counts as recorded. */
  lemma {:induction false} AllRecorded(record: seq<string>, present: seq<string>)
    requires forall p :: p in present ==> Clean(p)
    ensures forall p :: p in present ==> Recorded(p, NewRecord(record, present))
  {
    NewsAre(record, present);
    forall p | p in present ensures Recorded(p, NewRecord(record, present)) {
      if News(record, present) == [] {
        assert p !in News(record, present);
      } else {
        OccursItself(p);
        InPrint(p, present);
        InIsOccurs(p, Print(present));
        assert Print(present) in NewRecord(record, present);
      }
    }
  }

  // ----- any sequence of scans -----

  function RecordAfter(record: seq<string>, scans: seq<seq<string>>): seq<string>
    decreases |scans|
  {
    if scans == [] then record else RecordAfter(NewRecord(record, scans[0]), scans[1..])
  }

  /** What each scan reports. */
  function Reports(record: seq<string>, scans: seq<seq<string>>): (r: seq<seq<string>>)
    ensures |r| == |scans|
    decreases |scans|
  {
    if scans == [] then [] else [News(record, scans[0])] + Reports(NewRecord(record, scans[0]), scans[1..])
  }

  /** In how many scans a file is reported. */
  function TimesReported(p: string, record: seq<string>, scans: seq<seq<string>>): nat
    decreases |scans|
  {
    if scans == [] then 0
    else (if p in News(record, scans[0]) then 1 else 0) + TimesReported(p, NewRecord(record, scans[0]), scans[1..])
  }

  /** A file that stays present is reported exactly once if it is not recorded at first, and never
      if it is. */
  lemma {:induction false} ReportedOnce(p: string, record: seq<string>, scans: seq<seq<string>>)
    requires scans != [] && forall present :: present in scans ==> p in present && forall q :: q in present ==> Clean(q)
    ensures TimesReported(p, record, scans) == if Recorded(p, record) then 0 else 1
    decreases |scans|
  {
    var next := NewRecord(record, scans[0]);
    assert scans[0] in scans;
    NewsAre(record, scans[0]);
    AllRecorded(record, scans[0]);
    if |scans| > 1 {
      ReportedOnce(p, next, scans[1..]);
    } else {
      assert scans[1..] == [];
    }
  }

  /** The scan whose list the record prints: the last one that found something new. */
  function Listed(list: seq<string>, record: seq<string>, scans: seq<seq<string>>): seq<string>
    decreases |scans|
  {
    if scans == [] then list
    else Listed(if News(record, scans[0]) == [] then list else scans[0], NewRecord(record, scans[0]), scans[1..])
  }

  /** The record file that an earlier daemon left: none, or the printed list of some scan. */
  function Left(list: seq<string>): seq<string> {
    if list == [] then [] else [Print(list)]
  }

  lemma {:induction false} RecordIsPrinted(list: seq<string>, record: seq<string>, scans: seq<seq<string>>)
    requires record == Left(list)
    ensures RecordAfter(record, scans) == Left(Listed(list, record, scans))
    decreases |scans|
  {
    if scans != [] {
      var next := if News(record, scans[0]) == [] then list else scans[0];
      assert News(record, []) == [];
      RecordIsPrinted(next, NewRecord(record, scans[0]), scans[1..]);
    }
  }

  /** After any sequence of scans from the record that an earlier daemon left, a present file is
      reported exactly when its path is not part of a path that the last productive scan listed. */
  lemma {:induction false} ReportedExactly(p: string, list: seq<string>, scans: seq<seq<string>>, present: seq<string>)
    requires Clean(p)
    ensures p in News(RecordAfter(Left(list), scans), present) <==>
      p in present && !PartOfOne(p, Listed(list, Left(list), scans))
  {
    hide Occurs;
    var record, last := RecordAfter(Left(list), scans), Listed(list, Left(list), scans);
    RecordIsPrinted(list, Left(list), scans);
    NewsAre(record, present);
    InPrint(p, last);
    InIsOccurs(p, Print(last));
    if last != [] {
      assert record == [Print(last)] && Print(last) in record;
    }
  }

  /** So the textual test decides membership exactly when the path, if it is not listed itself,
      is not part of a listed one. */
  lemma {:induction false} TestIsMembership(p: string, list: seq<string>)
    requires Clean(p)
    ensures (In(p, Print(list)) <==> p in list) <==> (p in list || !PartOfOne(p, list))
  {
    InPrint(p, list);
    InIsOccurs(p, Print(list));
    OccursItself(p);
  }

  /** A new file whose path is a proper part of a recorded one is not reported. */
  lemma {:induction false} ShadowedFile(a: string, b: string)
    requires Clean(a) && Clean(b) && Occurs(a, b) && a != b
    ensures a !in [b] && Reports([], [[b], [b, a]]) == [[b], []]
  {
    hide Occurs, Print, Clean;
    OccursItself(b);
    InPrint(a, [b]);
    InPrint(b, [b]);
    InIsOccurs(a, Print([b]));
    InIsOccurs(b, Print([b]));
    var record, scans := [Print([b])], [[b], [b, a]];
    assert Print([b]) in record && Recorded(a, record) && Recorded(b, record);
    NoNews(record, [b, a]);
    assert News([], [b]) == [b] by { assert [b][1..] == []; }
    assert scans[1..] == [[b, a]] && scans[1..][1..] == [];
    assert Reports(record, scans[1..]) == [[]];
  }

  /** A core file name of the usual form, and the same file compressed. */
  const FOLDER := "/var/lib/systemd/coredump/"
  const NAME := "core.vtysh.0.68b6.682.1459"
  const CORE := FOLDER + NAME
  const CORE_XZ := CORE + ".xz"

  /** The compressed file of the core folder hides the other one. */
  lemma {:induction false} ShadowedCore()
    ensures CORE != CORE_XZ && Reports([], [[CORE_XZ], [CORE_XZ, CORE]]) == [[CORE_XZ], []]
  {
    hide Reports, Occurs;
    CleanNames();
    assert Occurs(CORE, CORE_XZ) by { NamedAtStart(CORE, ".xz"); }
    assert |CORE_XZ| == |CORE| + 3;
    ShadowedFile(CORE, CORE_XZ);
  }

  lemma NamedAtStart(p: string, rest: string)
    ensures Occurs(p, p + rest)
  {
    assert OccursAt(p, p + rest, 0);
  }

  lemma CleanNames()
    ensures Clean(CORE) && Clean(CORE_XZ)
  {
    CleanFolder();
    assert Printable(NAME);
    assert Printable(".xz");
  }

  lemma CleanFolder()
    ensures Clean(FOLDER)
  {
    assert FOLDER[0] == '/';
  }

  lemma {:induction false} NoNews(record: seq<string>, present: seq<string>)
    requires forall p :: p in present ==> Recorded(p, record)
    ensures News(record, present) == []
  {
    if present != [] {
      assert present[0] in present;
      NoNews(record, present[1..]);
    }
  }
}
