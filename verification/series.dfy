/** Special subgroups and subgroup series located through the tags in the
    subgroups' `special_labels` (`special_search`, `series_search`,
    `series`). */
module Series {
  import opened Wrappers
  import opened Seqs
  import opened Text
  import opened Subgroups
  import opened Sorting

  // ---- special subgroups ----

  predicate Tagged(s: SubgroupRecord, tag: string) {
    tag in s.specialLabels
  }

  /** `special_search`: the label of the first subgroup, in iteration
      order, carrying the tag `<ambient>.<sp>`; `None` when there is none
      (the function falls off its end). */
  function SpecialSearch(ambient: Label, subs: Collection, sp: string): (r: Option<Label>)
    ensures r.None? <==> forall i :: 0 <= i < |subs| ==> !Tagged(subs[i], ambient + "." + sp)
    ensures r.Some? ==> exists i :: (0 <= i < |subs| && subs[i].name == r.value
      && Tagged(subs[i], ambient + "." + sp)
      && forall j :: 0 <= j < i ==> !Tagged(subs[j], ambient + "." + sp))
  {
    var tag := ambient + "." + sp;
    if subs == [] then None
    else if Tagged(subs[0], tag) then Some(subs[0].name)
    else
      var r := SpecialSearch(ambient, subs[1..], sp);
      assert forall i :: 1 <= i < |subs| ==> subs[i] == subs[1..][i - 1];
      if r.Some? then
        var i :| 0 <= i < |subs[1..]| && subs[1..][i].name == r.value
          && Tagged(subs[1..][i], tag)
          && forall j :: 0 <= j < i ==> !Tagged(subs[1..][j], tag);
        assert subs[i + 1].name == r.value && Tagged(subs[i + 1], tag);
        assert forall j :: 0 <= j < i + 1 ==> !Tagged(subs[j], tag) by {
          forall j | 0 <= j < i + 1
            ensures !Tagged(subs[j], tag)
          {
            if j > 0 {
              assert subs[j] == subs[1..][j - 1];
            }
          }
        }
        r
      else
        r
  }

  /** The Fitting subgroup, the radical and the socle are tagged F, R and S. */
  function Fitting(ambient: Label, subs: Collection): (r: Option<Label>)
    ensures r.None? <==> forall i :: 0 <= i < |subs| ==> !Tagged(subs[i], ambient + ".F")
    ensures r.Some? ==> exists i :: (0 <= i < |subs| && subs[i].name == r.value
      && Tagged(subs[i], ambient + ".F")
      && forall j :: 0 <= j < i ==> !Tagged(subs[j], ambient + ".F"))
  {
    assert ambient + "." + "F" == ambient + ".F";
    SpecialSearch(ambient, subs, "F")
  }

  function Radical(ambient: Label, subs: Collection): (r: Option<Label>)
    ensures r.None? <==> forall i :: 0 <= i < |subs| ==> !Tagged(subs[i], ambient + ".R")
    ensures r.Some? ==> exists i :: (0 <= i < |subs| && subs[i].name == r.value
      && Tagged(subs[i], ambient + ".R")
      && forall j :: 0 <= j < i ==> !Tagged(subs[j], ambient + ".R"))
  {
    assert ambient + "." + "R" == ambient + ".R";
    SpecialSearch(ambient, subs, "R")
  }

  function Socle(ambient: Label, subs: Collection): (r: Option<Label>)
    ensures r.None? <==> forall i :: 0 <= i < |subs| ==> !Tagged(subs[i], ambient + ".S")
    ensures r.Some? ==> exists i :: (0 <= i < |subs| && subs[i].name == r.value
      && Tagged(subs[i], ambient + ".S")
      && forall j :: 0 <= j < i ==> !Tagged(subs[j], ambient + ".S"))
  {
    assert ambient + "." + "S" == ambient + ".S";
    SpecialSearch(ambient, subs, "S")
  }

  // ---- series ----

  /** One character of the pattern `^<ambient>.<sp>\d+`, in which the dots
      are unescaped and so match any character but a newline. */
  predicate PatternChar(p: char, c: char) {
    if p == '.' then c != '\n' else c == p
  }

  function SeriesPattern(ambient: Label, sp: char): string {
    ambient + "." + [sp]
  }

  /** `re.match(r"^<ambient>.<sp>\d+", t)`: a prefix matching the pattern
      followed by at least one digit; anything may follow. */
  predicate SeriesTag(ambient: Label, sp: char, t: string) {
    var p := SeriesPattern(ambient, sp);
    && |t| > |p|
    && (forall i :: 0 <= i < |p| ==> PatternChar(p[i], t[i]))
    && IsDigit(t[|p|])
  }

  /** The `(label, tag)` pairs collected by `series_search`, in iteration
      order, then in the order of each subgroup's tags: the pairs are
      exactly the matching tags of the subgroups, with their labels. */
  function Matches(ambient: Label, sp: char, subs: Collection): (r: seq<(Label, string)>)
    ensures forall i :: 0 <= i < |r| ==> (SeriesTag(ambient, sp, r[i].1)
      && exists j :: 0 <= j < |subs| && subs[j].name == r[i].0 && r[i].1 in subs[j].specialLabels)
    ensures forall j, t :: (0 <= j < |subs| && 0 <= t < |subs[j].specialLabels|
      && SeriesTag(ambient, sp, subs[j].specialLabels[t])) ==> (subs[j].name, subs[j].specialLabels[t]) in r
  {
    if subs == [] then []
    else
      var h := subs[|subs| - 1];
      var front := Matches(ambient, sp, subs[..|subs| - 1]);
      assert forall j :: 0 <= j < |subs| - 1 ==> subs[..|subs| - 1][j] == subs[j];
      front + TagMatches(ambient, sp, h.name, h.specialLabels)
  }

  /** `ser_re.match` as a test on tags. */
  function IsSeriesTag(ambient: Label, sp: char): string -> bool {
    t => SeriesTag(ambient, sp, t)
  }

  /** The pairs of one subgroup: its matching tags, each occurrence once,
      in the order of `special_labels`, each with the subgroup's label. */
  function TagMatches(ambient: Label, sp: char, l: Label, tags: seq<string>): (r: seq<(Label, string)>)
    ensures |r| == |Filter(tags, IsSeriesTag(ambient, sp))|
    ensures forall i :: 0 <= i < |r| ==> r[i] == (l, Filter(tags, IsSeriesTag(ambient, sp))[i])
    ensures forall i :: 0 <= i < |r| ==> r[i].0 == l && r[i].1 in tags && SeriesTag(ambient, sp, r[i].1)
    ensures forall t :: 0 <= t < |tags| && SeriesTag(ambient, sp, tags[t]) ==> (l, tags[t]) in r
    decreases |tags|
  {
    if tags == [] then []
    else
      var rest := TagMatches(ambient, sp, l, tags[1..]);
      var p := IsSeriesTag(ambient, sp);
      assert forall t :: 1 <= t < |tags| ==> tags[t] == tags[1..][t - 1];
      assert Filter(tags, p) == (if p(tags[0]) then [tags[0]] else []) + Filter(tags[1..], p);
      (if SeriesTag(ambient, sp, tags[0]) then [(l, tags[0])] else []) + rest
  }

  /** The per-subgroup pairs of `subs`, one entry per subgroup, in
      iteration order. */
  function PerRecord(ambient: Label, sp: char, subs: Collection): (r: seq<seq<(Label, string)>>)
    ensures |r| == |subs|
    ensures forall j :: 0 <= j < |subs| ==> r[j] == TagMatches(ambient, sp, subs[j].name, subs[j].specialLabels)
  {
    seq(|subs|, j requires 0 <= j < |subs| => TagMatches(ambient, sp, subs[j].name, subs[j].specialLabels))
  }

  /** `series_search` concatenates the pairs of each subgroup in turn. */
  lemma {:induction false} MatchesPerRecord(ambient: Label, sp: char, subs: Collection)
    ensures Matches(ambient, sp, subs) == Flatten(PerRecord(ambient, sp, subs))
    decreases |subs|
  {
    if subs != [] {
      var front := subs[..|subs| - 1];
      MatchesPerRecord(ambient, sp, front);
      var ps := PerRecord(ambient, sp, subs);
      assert ps[..|ps| - 1] == PerRecord(ambient, sp, front);
    }
  }

  /** The sort key `int(tag.split(sp)[1])`; `None` stands for the
      IndexError or ValueError that would escape `sorted`. */
  function SeriesKey(tag: string, sp: char): Option<int> {
    var parts := Split(tag, sp);
    if |parts| < 2 then None else ParseInt(parts[1])
  }

  datatype SeriesError = BadSeriesKey(tag: string)

  /** The keys of all collected pairs, computed before sorting starts; the
      first pair whose key fails aborts the search. */
  function KeyAll(ms: seq<(Label, string)>, sp: char): (r: Result<seq<Keyed<Label>>, SeriesError>)
    ensures r.Err? <==> exists i :: 0 <= i < |ms| && SeriesKey(ms[i].1, sp).None?
    ensures r.Err? ==> exists i :: 0 <= i < |ms| && SeriesKey(ms[i].1, sp).None? && r.error.tag == ms[i].1
    ensures r.Ok? ==> |r.value| == |ms| && forall i :: 0 <= i < |ms| ==>
      r.value[i].item == ms[i].0 && Some(r.value[i].key) == SeriesKey(ms[i].1, sp)
  {
    if ms == [] then Ok([])
    else
      match SeriesKey(ms[0].1, sp)
      case None => Err(BadSeriesKey(ms[0].1))
      case Some(k) =>
        var rest := KeyAll(ms[1..], sp);
        assert forall i :: 1 <= i < |ms| ==> ms[i] == ms[1..][i - 1];
        if rest.Err? then
          var i :| 0 <= i < |ms[1..]| && SeriesKey(ms[1..][i].1, sp).None? && rest.error.tag == ms[1..][i].1;
          assert SeriesKey(ms[i + 1].1, sp).None?;
          Err(rest.error)
        else
          assert forall i :: 0 <= i < |ms| ==> SeriesKey(ms[i].1, sp).Some? by {
            forall i | 0 <= i < |ms|
              ensures SeriesKey(ms[i].1, sp).Some?
            {
              if i > 0 {
                assert ms[i] == ms[1..][i - 1];
              }
            }
          }
          Ok([Keyed(ms[0].0, k)] + rest.value)
  }

  /** The collected pairs with their keys, sorted stably by key. */
  function SeriesEntries(ambient: Label, sp: char, subs: Collection): (r: Result<seq<Keyed<Label>>, SeriesError>)
    ensures r.Err? <==> KeyAll(Matches(ambient, sp, subs), sp).Err?
    ensures r.Ok? ==> var keyed := KeyAll(Matches(ambient, sp, subs), sp).value;
      && SortedByKey(r.value)
      && multiset(r.value) == multiset(keyed)
      && forall k :: WithKey(r.value, k) == WithKey(keyed, k)
  {
    var keyed :- KeyAll(Matches(ambient, sp, subs), sp);
    var sorted := Sort(keyed);
    assert forall k :: WithKey(sorted, k) == WithKey(keyed, k) by {
      forall k
        ensures WithKey(sorted, k) == WithKey(keyed, k)
      {
        SortStable(keyed, k);
      }
    }
    Ok(sorted)
  }

  /** A subgroup label carrying a tag of the series. */
  predicate CarriesSeriesTag(ambient: Label, sp: char, subs: Collection, l: Label) {
    exists j, t :: 0 <= j < |subs| && 0 <= t < |subs[j].specialLabels|
      && subs[j].name == l && SeriesTag(ambient, sp, subs[j].specialLabels[t])
  }

  /** `series_search`: the labels of the tagged subgroups, one per matching
      (subgroup, tag) pair, in the order of the sorted entries. */
  function SeriesSearch(ambient: Label, sp: char, subs: Collection): (r: Result<seq<Label>, SeriesError>)
    ensures r.Err? <==> exists i :: 0 <= i < |Matches(ambient, sp, subs)| && SeriesKey(Matches(ambient, sp, subs)[i].1, sp).None?
    ensures r.Ok? ==> |r.value| == |Matches(ambient, sp, subs)|
    ensures r.Ok? ==> forall i :: 0 <= i < |r.value| ==> CarriesSeriesTag(ambient, sp, subs, r.value[i])
    ensures r.Ok? ==> forall j, t :: (0 <= j < |subs| && 0 <= t < |subs[j].specialLabels|
      && SeriesTag(ambient, sp, subs[j].specialLabels[t])) ==> subs[j].name in r.value
    ensures r.Ok? ==> SeriesEntries(ambient, sp, subs).Ok? && r.value == Items(SeriesEntries(ambient, sp, subs).value)
  {
    var es :- SeriesEntries(ambient, sp, subs);
    EntriesCarry(ambient, sp, subs);
    EntriesComplete(ambient, sp, subs);
    Ok(Items(es))
  }

  /** Every subgroup carrying a tag of the series has a sorted entry. */
  lemma EntriesComplete(ambient: Label, sp: char, subs: Collection)
    requires SeriesEntries(ambient, sp, subs).Ok?
    ensures forall j, t :: (0 <= j < |subs| && 0 <= t < |subs[j].specialLabels|
      && SeriesTag(ambient, sp, subs[j].specialLabels[t])) ==> subs[j].name in Items(SeriesEntries(ambient, sp, subs).value)
  {
    forall j, t | 0 <= j < |subs| && 0 <= t < |subs[j].specialLabels| && SeriesTag(ambient, sp, subs[j].specialLabels[t])
      ensures subs[j].name in Items(SeriesEntries(ambient, sp, subs).value)
    {
      EntryOf(ambient, sp, subs, (subs[j].name, subs[j].specialLabels[t]));
    }
  }

  /** A collected pair survives sorting as an entry with its label. */
  lemma EntryOf(ambient: Label, sp: char, subs: Collection, pair: (Label, string))
    requires SeriesEntries(ambient, sp, subs).Ok?
    requires pair in Matches(ambient, sp, subs)
    ensures pair.0 in Items(SeriesEntries(ambient, sp, subs).value)
  {
    var ms := Matches(ambient, sp, subs);
    var keyed := KeyAll(ms, sp).value;
    var m :| 0 <= m < |ms| && ms[m] == pair;
    ItemKept(keyed, SeriesEntries(ambient, sp, subs).value, m);
  }

  /** Reordering keeps every item. */
  lemma ItemKept<T>(keyed: seq<Keyed<T>>, es: seq<Keyed<T>>, m: int)
    requires multiset(es) == multiset(keyed) && 0 <= m < |keyed|
    ensures keyed[m].item in Items(es)
  {
    assert keyed[m] in multiset(es);
    var i :| 0 <= i < |es| && es[i] == keyed[m];
    assert Items(es)[i] == keyed[m].item;
  }

  /** Every sorted entry names a subgroup carrying a tag of the series. */
  lemma EntriesCarry(ambient: Label, sp: char, subs: Collection)
    requires SeriesEntries(ambient, sp, subs).Ok?
    ensures forall i :: 0 <= i < |SeriesEntries(ambient, sp, subs).value| ==>
      CarriesSeriesTag(ambient, sp, subs, SeriesEntries(ambient, sp, subs).value[i].item)
  {
    var es := SeriesEntries(ambient, sp, subs).value;
    var ms := Matches(ambient, sp, subs);
    var keyed := KeyAll(ms, sp).value;
    forall i | 0 <= i < |es|
      ensures CarriesSeriesTag(ambient, sp, subs, es[i].item)
    {
      assert es[i] in multiset(keyed);
      var m :| 0 <= m < |keyed| && keyed[m] == es[i];
      var j :| 0 <= j < |subs| && subs[j].name == ms[m].0 && ms[m].1 in subs[j].specialLabels;
      var t :| 0 <= t < |subs[j].specialLabels| && subs[j].specialLabels[t] == ms[m].1;
    }
  }

  /** The tag "4.2.F" does not belong to the chief series. */
  lemma ExampleMatches()
    ensures Matches("4.2", 'C', [Tagged3, Tagged1]) == [("4.2.1", "4.2.C3"), ("4.2.2", "4.2.C1")]
  {
    var subs := [Tagged3, Tagged1];
    assert subs[..1] == [Tagged3];
    ExampleFirst();
    ExampleTags1();
  }

  lemma ExampleFirst()
    ensures Matches("4.2", 'C', [Tagged3]) == [("4.2.1", "4.2.C3")]
  {
    assert [Tagged3][..0] == [];
    ExampleTags3();
  }

  lemma ExampleTags3()
    ensures TagMatches("4.2", 'C', Tagged3.name, Tagged3.specialLabels) == [("4.2.1", "4.2.C3")]
  {
    var a := "4.2";
    assert SeriesPattern(a, 'C') == "4.2.C";
    assert SeriesTag(a, 'C', "4.2.C3");
    assert !SeriesTag(a, 'C', "4.2.F");
    assert TagMatches(a, 'C', Tagged3.name, ["4.2.F", "4.2.C3"][1..][1..]) == [];
    assert TagMatches(a, 'C', Tagged3.name, ["4.2.F", "4.2.C3"][1..]) == [("4.2.1", "4.2.C3")];
  }

  lemma ExampleTags1()
    ensures TagMatches("4.2", 'C', Tagged1.name, Tagged1.specialLabels) == [("4.2.2", "4.2.C1")]
  {
    var a := "4.2";
    assert SeriesPattern(a, 'C') == "4.2.C";
    assert SeriesTag(a, 'C', "4.2.C1");
    assert TagMatches(a, 'C', Tagged1.name, ["4.2.C1"][1..]) == [];
  }

  /** A tag `<prefix><sp><n>` whose prefix does not contain the series
      letter has the sort key `n`. */
  lemma SeriesKeyOf(prefix: string, sp: char, n: nat)
    requires sp !in prefix && !IsDigit(sp)
    ensures SeriesKey(prefix + [sp] + NatToString(n), sp) == Some(n)
  {
    var d := NatToString(n);
    assert sp !in d by {
      assert forall k :: 0 <= k < |d| ==> IsDigit(d[k]);
    }
    SplitNoSeparator(d, sp);
    SplitAfterPiece(prefix, sp, d);
    ParseIntDigits(d);
  }

  const Tagged3 := SubgroupRecord("4.2.1", "4.2", 2, 2, true, true, true, true, 0, [], [], ["4.2.F", "4.2.C3"])
  const Tagged1 := SubgroupRecord("4.2.2", "4.2", 2, 2, true, true, true, true, 0, [], [], ["4.2.C1"])

  // ---- the table of series ----

  /** One row of `series()`: knowl, display name, subgroups, the labels
      joined by "-", and the symbol between consecutive terms. */
  datatype SeriesRow = SeriesRow(knowl: string, title: string, members: Collection, text: string, symbol: string)

  function ToUpper(c: char): char {
    if 'a' <= c <= 'z' then (c as int - 32) as char else c
  }

  function ToLower(c: char): char {
    if 'A' <= c <= 'Z' then (c as int + 32) as char else c
  }

  function LowerAll(s: string): (r: string)
    ensures |r| == |s|
    ensures forall i :: 0 <= i < |s| ==> r[i] == ToLower(s[i])
  {
    if s == [] then [] else [ToLower(s[0])] + LowerAll(s[1..])
  }

  predicate IsUpper(c: char) {
    'A' <= c <= 'Z'
  }

  predicate IsLower(c: char) {
    'a' <= c <= 'z'
  }

  /** No lower-case letter in front and no upper-case letter after it. */
  predicate Capitalized(s: string) {
    && (|s| > 0 ==> !IsLower(s[0]))
    && (forall i :: 1 <= i < |s| ==> !IsUpper(s[i]))
  }

  /** Python's `str.capitalize()` on ASCII text: the same text up to the
      case of its letters, in capitalised form. */
  function Capitalize(s: string): (r: string)
    ensures |r| == |s|
    ensures forall i :: 0 <= i < |s| ==> ToLower(r[i]) == ToLower(s[i])
    ensures Capitalized(r)
  {
    if s == [] then []
    else
      var r := [ToUpper(s[0])] + LowerAll(s[1..]);
      assert forall i :: 1 <= i < |s| ==> r[i] == ToLower(s[i]);
      r
  }

  /** Text already in capitalised form is left as it is; in particular
      capitalising twice is capitalising once. */
  lemma CapitalizeFixed(s: string)
    requires Capitalized(s)
    ensures Capitalize(s) == s
    ensures Capitalize(Capitalize(s)) == Capitalize(s)
  {
    var r := Capitalize(s);
    forall i | 0 <= i < |s|
      ensures r[i] == s[i]
    {
      if i > 0 {
        assert r[i] == LowerAll(s[1..])[i - 1];
      }
    }
  }

  /** The contract of `Capitalize` leaves no choice: any text of the same
      letters up to case, in capitalised form, is the capitalised text. */
  lemma CapitalizeUnique(s: string, t: string)
    requires |t| == |s|
    requires forall i :: 0 <= i < |s| ==> ToLower(t[i]) == ToLower(s[i])
    requires Capitalized(t)
    ensures t == Capitalize(s)
  {
    var r := Capitalize(s);
    forall i | 0 <= i < |s|
      ensures t[i] == r[i]
    {
      if i == 0 {
        SameLowerNotLower(t[0], r[0]);
      } else {
        SameLowerNotUpper(t[i], r[i]);
      }
    }
  }

  lemma SameLowerNotLower(a: char, b: char)
    requires ToLower(a) == ToLower(b) && !IsLower(a) && !IsLower(b)
    ensures a == b
  {
  }

  lemma SameLowerNotUpper(a: char, b: char)
    requires ToLower(a) == ToLower(b) && !IsUpper(a) && !IsUpper(b)
    ensures a == b
  {
  }

  lemma CapitalizeIdempotent(s: string)
    ensures Capitalize(Capitalize(s)) == Capitalize(s)
  {
    CapitalizeFixed(Capitalize(s));
  }

  function SeriesTitle(attr: string): string {
    Capitalize(ReplaceAll(attr, "_", " "))
  }

  /** The subgroup records named by `labels`. */
  function RecordsOf(subs: Collection, labels: seq<Label>): (r: Collection)
    requires forall i :: 0 <= i < |labels| ==> HasLabel(subs, labels[i])
    ensures |r| == |labels|
    ensures forall i :: 0 <= i < |r| ==> r[i].name == labels[i] && r[i] in subs
  {
    if labels == [] then [] else [Lookup(subs, labels[0]).value] + RecordsOf(subs, labels[1..])
  }

  function Reverse<T>(s: seq<T>): (r: seq<T>)
    ensures |r| == |s|
    ensures forall i :: 0 <= i < |s| ==> r[i] == s[|s| - 1 - i]
  {
    if s == [] then [] else Reverse(s[1..]) + [s[0]]
  }

  /** What a row of the series `attr` says about its labels `ls`. */
  predicate RowOf(row: SeriesRow, attr: string, ls: seq<Label>, turned: bool) {
    && row.knowl == "group." + attr
    && row.title == SeriesTitle(attr)
    && row.text == Join(ls, "-")
    && |row.members| == |ls|
    && (!turned ==> row.symbol == "\\rhd" && forall i :: 0 <= i < |ls| ==> row.members[i].name == ls[i])
    && (turned ==> row.symbol == "\\lhd" && forall i :: 0 <= i < |ls| ==> row.members[i].name == ls[|ls| - 1 - i])
  }

  /** The row of the series `attr` whose search found `ls`. */
  function Row(subs: Collection, attr: string, ls: seq<Label>): (r: SeriesRow)
    requires forall i :: 0 <= i < |ls| ==> HasLabel(subs, ls[i])
    ensures RowOf(r, attr, ls, false)
  {
    SeriesRow("group." + attr, SeriesTitle(attr), RecordsOf(subs, ls), Join(ls, "-"), "\\rhd")
  }

  /** Every label a successful search returns names a record of `subs`. */
  lemma SearchedLabels(ambient: Label, sp: char, subs: Collection)
    requires SeriesSearch(ambient, sp, subs).Ok?
    ensures forall i :: 0 <= i < |SeriesSearch(ambient, sp, subs).value| ==>
      HasLabel(subs, SeriesSearch(ambient, sp, subs).value[i])
  {
    var ls := SeriesSearch(ambient, sp, subs).value;
    forall i | 0 <= i < |ls|
      ensures HasLabel(subs, ls[i])
    {
      assert CarriesSeriesTag(ambient, sp, subs, ls[i]);
    }
  }

  /** The series attributes `series()` goes through, in order, and the
      tag letter each one is searched with. */
  const SeriesNames: seq<string> := ["derived_series", "chief_series", "lower_central_series", "upper_central_series"]
  const SeriesLetters: seq<char> := ['D', 'C', 'L', 'U']

  /** The searches for the tag letters, in order, or the first that fails. */
  function Searches(ambient: Label, subs: Collection, letters: seq<char>): (r: Result<seq<seq<Label>>, SeriesError>)
    ensures r.Err? <==> exists k :: 0 <= k < |letters| && SeriesSearch(ambient, letters[k], subs).Err?
    ensures r.Ok? ==> |r.value| == |letters|
    ensures r.Ok? ==> forall k :: 0 <= k < |letters| ==> SeriesSearch(ambient, letters[k], subs) == Ok(r.value[k])
    ensures r.Ok? ==> forall k, i :: 0 <= k < |letters| && 0 <= i < |r.value[k]| ==> HasLabel(subs, r.value[k][i])
    decreases |letters|
  {
    if letters == [] then Ok([])
    else
      var ls :- SeriesSearch(ambient, letters[0], subs);
      SearchedLabels(ambient, letters[0], subs);
      var rest := Searches(ambient, subs, letters[1..]);
      if rest.Err? then
        TailFails(ambient, subs, letters);
        Err(rest.error)
      else
        SearchesCons(ambient, subs, letters, ls, rest.value);
        Ok([ls] + rest.value)
  }

  /** A search failing among the later letters fails among all of them. */
  lemma TailFails(ambient: Label, subs: Collection, letters: seq<char>)
    requires letters != []
    requires exists k :: 0 <= k < |letters[1..]| && SeriesSearch(ambient, letters[1..][k], subs).Err?
    ensures exists k :: 0 <= k < |letters| && SeriesSearch(ambient, letters[k], subs).Err?
  {
    var k :| 0 <= k < |letters[1..]| && SeriesSearch(ambient, letters[1..][k], subs).Err?;
    assert letters[k + 1] == letters[1..][k];
  }

  /** The first search's labels in front of the later searches' labels. */
  lemma SearchesCons(ambient: Label, subs: Collection, letters: seq<char>, ls: seq<Label>, rest: seq<seq<Label>>)
    requires letters != [] && SeriesSearch(ambient, letters[0], subs) == Ok(ls)
    requires forall i :: 0 <= i < |ls| ==> HasLabel(subs, ls[i])
    requires |rest| == |letters| - 1
    requires forall k :: 0 <= k < |rest| ==> SeriesSearch(ambient, letters[1..][k], subs) == Ok(rest[k])
    requires forall k, i :: 0 <= k < |rest| && 0 <= i < |rest[k]| ==> HasLabel(subs, rest[k][i])
    ensures forall k :: 0 <= k < |letters| ==> SeriesSearch(ambient, letters[k], subs) == Ok(([ls] + rest)[k])
    ensures forall k, i :: 0 <= k < |letters| && 0 <= i < |([ls] + rest)[k]| ==> HasLabel(subs, ([ls] + rest)[k][i])
  {
    var all := [ls] + rest;
    forall k | 0 <= k < |letters|
      ensures SeriesSearch(ambient, letters[k], subs) == Ok(all[k])
      ensures forall i :: 0 <= i < |all[k]| ==> HasLabel(subs, all[k][i])
    {
      if k > 0 {
        assert all[k] == rest[k - 1] && letters[k] == letters[1..][k - 1];
      }
    }
  }

  /** The list comprehension of `series()`: one row per attribute. */
  function Rows(subs: Collection, names: seq<string>, lss: seq<seq<Label>>): (r: seq<SeriesRow>)
    requires |names| == |lss|
    requires forall k, i :: 0 <= k < |lss| && 0 <= i < |lss[k]| ==> HasLabel(subs, lss[k][i])
    ensures |r| == |names|
    ensures forall k :: 0 <= k < |names| ==> RowOf(r[k], names[k], lss[k], false)
  {
    seq(|names|, k requires 0 <= k < |names| => Row(subs, names[k], lss[k]))
  }

  /** `series()`: the derived, chief, lower central and upper central
      series, searched with the letters D, C, L and U. Only the upper
      central row is turned around: its subgroups are listed in reverse and
      its symbol is `\lhd`, while its joined label text keeps the search
      order. */
  function SeriesTable(ambient: Label, subs: Collection): (r: Result<seq<SeriesRow>, SeriesError>)
    ensures r.Err? <==> exists k :: 0 <= k < 4 && SeriesSearch(ambient, SeriesLetters[k], subs).Err?
    ensures r.Ok? ==> |r.value| == 4
    ensures r.Ok? ==> forall k :: 0 <= k < 4 ==>
      SeriesSearch(ambient, SeriesLetters[k], subs).Ok? && RowOf(r.value[k], SeriesNames[k], SeriesSearch(ambient, SeriesLetters[k], subs).value, k == 3)
  {
    var lss :- Searches(ambient, subs, SeriesLetters);
    var rows := Rows(subs, SeriesNames, lss);
    var r := rows[..3] + [Turned(rows[3])];
    TableRows(lss, rows, r);
    Ok(r)
  }

  /** Turning the last of the four rows leaves the others as they are. */
  lemma TableRows(lss: seq<seq<Label>>, rows: seq<SeriesRow>, r: seq<SeriesRow>)
    requires |lss| == |rows| == 4
    requires forall k :: 0 <= k < 4 ==> RowOf(rows[k], SeriesNames[k], lss[k], false)
    requires r == rows[..3] + [Turned(rows[3])]
    ensures |r| == 4
    ensures forall k :: 0 <= k < 4 ==> RowOf(r[k], SeriesNames[k], lss[k], k == 3)
  {
    TurnedRow(rows[3], SeriesNames[3], lss[3]);
    forall k | 0 <= k < 4
      ensures RowOf(r[k], SeriesNames[k], lss[k], k == 3)
    {
      if k < 3 {
        assert r[k] == rows[k];
      }
    }
  }

  /** The upper central row: members reversed, symbol `\lhd`. */
  function Turned(row: SeriesRow): SeriesRow {
    row.(members := Reverse(row.members), symbol := "\\lhd")
  }

  /** Turning a row lists its labels from the other end. */
  lemma TurnedRow(row: SeriesRow, attr: string, ls: seq<Label>)
    requires RowOf(row, attr, ls, false)
    ensures RowOf(Turned(row), attr, ls, true)
  {
    var t := Turned(row);
    forall i | 0 <= i < |ls|
      ensures t.members[i].name == ls[|ls| - 1 - i]
    {
      assert t.members[i] == row.members[|ls| - 1 - i];
    }
  }
}
