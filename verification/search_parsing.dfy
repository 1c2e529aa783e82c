/** The search-box parsers for integer fields (`parse_ints`, `parse_list`):
    the input is cleaned, checked against the list syntax, turned into a
    query value, and merged into the query. A flashed error message is an
    `Err` result: the caller keeps its query as it was. */
module SearchParsing {
  import opened Wrappers
  import opened Text

  /** A query value: an integer, a range `{'$gte': a, '$lte': b}` with
      either bound possibly absent, an alternative `$or` of clauses, or a
      list of integers. */
  datatype Value =
    | IntV(n: int)
    | RangeV(gte: Option<int>, lte: Option<int>)
    | OrV(clauses: seq<map<string, Value>>)
    | ListV(items: seq<int>)

  type Query = map<string, Value>

  datatype ParseError =
    | Invalid(input: string)     // the flashed "not a valid input" message
    | NotAnInteger(text: string) // `int()` raising ValueError
    | NotClauses                 // `$or` merging applied to something that is not a list of clauses

  // ---- clean_input ----

  /** The characters `[\s<>]` that `clean_input` deletes. */
  predicate Dropped(c: char) {
    IsSpace(c) || c == '<' || c == '>'
  }

  /** `clean_input`: every whitespace character and angle bracket removed,
      everything else kept in order. */
  function CleanInput(s: string): (r: string)
    ensures forall i :: 0 <= i < |r| ==> !Dropped(r[i])
    ensures |r| <= |s|
  {
    if s == [] then []
    else (if Dropped(s[0]) then [] else [s[0]]) + CleanInput(s[1..])
  }

  /** Cleaning keeps every occurrence of a character it does not delete. */
  lemma {:induction false} CleanCounts(s: string, c: char)
    requires !Dropped(c)
    ensures multiset(CleanInput(s))[c] == multiset(s)[c]
    decreases |s|
  {
    if s != [] {
      CleanCounts(s[1..], c);
      assert s == [s[0]] + s[1..];
    }
  }

  /** Cleaning works character by character, so it keeps the order of the
      characters it keeps. */
  lemma {:induction false} CleanAppend(a: string, b: string)
    ensures CleanInput(a + b) == CleanInput(a) + CleanInput(b)
    decreases |a|
  {
    if a == [] {
      assert a + b == b;
    } else {
      assert (a + b)[0] == a[0];
      assert (a + b)[1..] == a[1..] + b;
      assert CleanInput(a + b) == (if Dropped(a[0]) then [] else [a[0]]) + CleanInput(a[1..] + b);
      CleanAppend(a[1..], b);
    }
  }

  /** Clean text is left alone. */
  lemma {:induction false} CleanKeeps(s: string)
    requires forall i :: 0 <= i < |s| ==> !Dropped(s[i])
    ensures CleanInput(s) == s
    decreases |s|
  {
    if s != [] {
      CleanKeeps(s[1..]);
      assert [s[0]] + s[1..] == s;
    }
  }

  /** Cleaning twice is cleaning once. */
  lemma CleanIdempotent(s: string)
    ensures CleanInput(CleanInput(s)) == CleanInput(s)
  {
    CleanKeeps(CleanInput(s));
  }

  // ---- LIST_RE ----

  /** One item of `LIST_RE`: `\d+` or `\d+-(\d+)?`. */
  predicate ItemRe(p: string) {
    var d := DigitRun(p);
    |d| > 0 && (|d| == |p| || (p[|d|] == '-' && AllDigits(p[|d| + 1..])))
  }

  /** `LIST_RE.match(s)`: items separated by commas. */
  predicate ListRe(s: string) {
    forall i :: 0 <= i < |Split(s, ',')| ==> ItemRe(Split(s, ',')[i])
  }

  // ---- parse_range2 ----

  /** `s.index(c, i)`, `None` when `c` does not occur from `i` on. */
  function FindFrom(s: string, c: char, i: nat): (r: Option<nat>)
    ensures r.Some? ==> i <= r.value < |s| && s[r.value] == c && forall k :: i <= k < r.value ==> s[k] != c
    ensures r.None? ==> forall k :: i <= k < |s| ==> s[k] != c
    decreases |s| - i
  {
    if i >= |s| then None
    else if s[i] == c then Some(i)
    else FindFrom(s, c, i + 1)
  }

  /** `int(s)` as an error result. */
  function ToInt(s: string): (r: Result<int, ParseError>)
    ensures r.Ok? <==> ParseInt(s).Some?
    ensures r.Ok? ==> r.value == ParseInt(s).value
    ensures r.Err? ==> r.error == NotAnInteger(s)
  {
    match ParseInt(s)
    case Some(n) => Ok(n)
    case None => Err(NotAnInteger(s))
  }

  /** A bound of a range: absent when its text is empty. */
  function Bound(s: string): (r: Result<Option<int>, ParseError>)
    ensures s == "" ==> r == Ok(None)
    ensures s != "" ==> (r.Ok? <==> ParseInt(s).Some?)
    ensures s != "" && r.Ok? ==> r.value == Some(ParseInt(s).value)
  {
    if s == "" then Ok(None)
    else
      var n :- ToInt(s);
      Ok(Some(n))
  }

  /** `parse_range2` on a text without commas: a range when a minus sign
      follows the first character, split at that sign, otherwise one
      integer. */
  function ParseItem(arg: string): (r: Result<Value, ParseError>)
    ensures r.Ok? && r.value.RangeV? ==> FindFrom(arg, '-', 1).Some?
    ensures r.Ok? && !r.value.RangeV? ==> FindFrom(arg, '-', 1).None? && ParseInt(arg).Some? && r.value == IntV(ParseInt(arg).value)
  {
    match FindFrom(arg, '-', 1)
    case Some(ix) =>
      var gte :- Bound(arg[..ix]);
      var lte :- Bound(arg[ix + 1..]);
      Ok(RangeV(gte, lte))
    case None =>
      var n :- ToInt(arg);
      Ok(IntV(n))
  }

  /** The items of a comma list, parsed in order; the first failure wins. */
  function ParseItems(pieces: seq<string>): (r: Result<seq<Value>, ParseError>)
    ensures r.Err? <==> exists i :: 0 <= i < |pieces| && ParseItem(pieces[i]).Err?
    ensures r.Ok? ==> |r.value| == |pieces| && forall i :: 0 <= i < |pieces| ==> r.value[i] == ParseItem(pieces[i]).value
  {
    if pieces == [] then Ok([])
    else
      var v :- ParseItem(pieces[0]);
      var vs :- ParseItems(pieces[1..]);
      assert forall i :: 1 <= i < |pieces| ==> pieces[1..][i - 1] == pieces[i];
      Ok([v] + vs)
  }

  /** `[{key: v} for v in vs]`. */
  function Singletons(key: string, vs: seq<Value>): (cs: seq<map<string, Value>>)
    ensures |cs| == |vs|
    ensures forall i :: 0 <= i < |vs| ==> cs[i] == map[key := vs[i]]
  {
    seq(|vs|, i requires 0 <= i < |vs| => map[key := vs[i]])
  }

  /** `parse_range2(arg, key)` with `int` as the singleton parser: spaces
      removed, then a comma list becomes `['$or', [{key: v1}, ...]]` with
      one clause per item in input order, and anything else
      `[key, value]`. */
  function ParseRange2(arg: string, key: string): (r: Result<(string, Value), ParseError>)
    ensures ',' in RemoveChar(arg, ' ') ==> (r.Err? <==> ParseItems(Split(RemoveChar(arg, ' '), ',')).Err?)
    ensures ',' in RemoveChar(arg, ' ') && r.Ok? ==> (
      var pieces := Split(RemoveChar(arg, ' '), ',');
      r.value.0 == "$or" && r.value.1.OrV? && |r.value.1.clauses| == |pieces|
      && forall i :: 0 <= i < |pieces| ==> r.value.1.clauses[i] == map[key := ParseItem(pieces[i]).value])
    ensures ',' !in RemoveChar(arg, ' ') ==> (r.Err? <==> ParseItem(RemoveChar(arg, ' ')).Err?)
    ensures ',' !in RemoveChar(arg, ' ') && r.Ok? ==> r.value == (key, ParseItem(RemoveChar(arg, ' ')).value)
  {
    var a := RemoveChar(arg, ' ');
    if ',' in a then
      var vs :- ParseItems(Split(a, ','));
      Ok(("$or", OrV(Singletons(key, vs))))
    else
      var v :- ParseItem(a);
      Ok((key, v))
  }

  // ---- the accepted syntax, rendered and parsed back ----

  /** One item of the list syntax: `n`, `a-b` or `a-`. */
  datatype Item = Single(n: nat) | Span(lo: nat, hi: Option<nat>)

  function RenderItem(it: Item): string {
    match it
    case Single(n) => NatToString(n)
    case Span(lo, hi) => NatToString(lo) + "-" + (if hi.Some? then NatToString(hi.value) else "")
  }

  /** The value an item denotes: an integer, or a range with a lower
      bound and possibly an upper one. */
  function ItemValue(it: Item): Value {
    match it
    case Single(n) => IntV(n)
    case Span(lo, hi) => RangeV(Some(lo), if hi.Some? then Some(hi.value) else None)
  }

  function RenderItems(items: seq<Item>): (ps: seq<string>)
    ensures |ps| == |items|
    ensures forall i :: 0 <= i < |items| ==> ps[i] == RenderItem(items[i])
  {
    seq(|items|, i requires 0 <= i < |items| => RenderItem(items[i]))
  }

  /** Items written out with commas, as a user types them. */
  function Render(items: seq<Item>): string {
    Join(RenderItems(items), ",")
  }

  function ItemValues(items: seq<Item>): (vs: seq<Value>)
    ensures |vs| == |items|
    ensures forall i :: 0 <= i < |items| ==> vs[i] == ItemValue(items[i])
  {
    seq(|items|, i requires 0 <= i < |items| => ItemValue(items[i]))
  }

  /** The characters the list syntax is made of. */
  predicate ListChar(c: char) {
    IsDigit(c) || c == '-' || c == ','
  }

  predicate ListChars(s: string) {
    forall i :: 0 <= i < |s| ==> ListChar(s[i])
  }

  lemma {:induction false} JoinListChars(ps: seq<string>)
    requires forall i :: 0 <= i < |ps| ==> ListChars(ps[i])
    ensures ListChars(Join(ps, ","))
    decreases |ps|
  {
    if |ps| > 1 {
      JoinListChars(ps[1..]);
      var rest := Join(ps[1..], ",");
      assert Join(ps, ",") == ps[0] + "," + rest;
      assert forall i :: 0 <= i < |ps[0]| ==> Join(ps, ",")[i] == ps[0][i];
      assert forall i :: |ps[0]| < i < |Join(ps, ",")| ==> Join(ps, ",")[i] == rest[i - |ps[0]| - 1];
    }
  }

  /** `s.index(c, i)` finds the first occurrence from `i` on. */
  lemma {:induction false} FindFromAt(s: string, c: char, i: nat, j: nat)
    requires i <= j < |s| && s[j] == c
    requires forall k :: i <= k < j ==> s[k] != c
    ensures FindFrom(s, c, i) == Some(j)
    decreases j - i
  {
    if i < j {
      FindFromAt(s, c, i + 1, j);
    }
  }

  /** A range item splits at the minus sign after its first number. */
  lemma SpanSplits(d: string, e: string)
    requires |d| > 0 && AllDigits(d)
    ensures var s := d + "-" + e; FindFrom(s, '-', 1) == Some(|d|) && s[..|d|] == d && s[|d| + 1..] == e
  {
    var s := d + "-" + e;
    FindFromAt(s, '-', 1, |d|);
    assert s[..|d|] == d;
    assert s[|d| + 1..] == e;
  }

  /** Each rendered item is accepted by the item syntax, uses only list
      characters, and parses back to the value it denotes. */
  lemma ItemRoundTrip(it: Item)
    ensures ItemRe(RenderItem(it)) && ListChars(RenderItem(it)) && ',' !in RenderItem(it)
    ensures ParseItem(RenderItem(it)) == Ok(ItemValue(it))
  {
    match it
    case Single(n) =>
      SingleRoundTrip(NatToString(n));
    case Span(lo, hi) =>
      var d := NatToString(lo);
      var e := if hi.Some? then NatToString(hi.value) else "";
      SpanChars(d, e);
      SpanParses(d, e);
      ParseIntDigits(d);
      if hi.Some? {
        ParseIntDigits(e);
      }
  }

  lemma SingleRoundTrip(d: string)
    requires |d| > 0 && AllDigits(d)
    ensures ItemRe(d) && ListChars(d) && ',' !in d
    ensures ParseItem(d) == Ok(IntV(DigitsToNat(d)))
  {
    DigitRunOf(d, []);
    assert d + [] == d;
    ParseIntDigits(d);
    assert FindFrom(d, '-', 1).None?;
  }

  /** `a-b` and `a-` are made of list characters and match the item syntax. */
  lemma SpanChars(d: string, e: string)
    requires |d| > 0 && AllDigits(d) && AllDigits(e)
    ensures ItemRe(d + "-" + e) && ListChars(d + "-" + e) && ',' !in d + "-" + e
  {
    var s := d + "-" + e;
    assert s == d + ("-" + e);
    DigitRunOf(d, "-" + e);
    assert s[|d| + 1..] == e;
    forall i | 0 <= i < |s|
      ensures ListChar(s[i])
    {
      if i < |d| {
        assert s[i] == d[i];
      } else if i > |d| {
        assert s[i] == e[i - |d| - 1];
      }
    }
  }

  /** `a-b` and `a-` split into the bounds `a` and `b` (or none). */
  lemma SpanParses(d: string, e: string)
    requires |d| > 0 && AllDigits(d)
    ensures ParseItem(d + "-" + e) == (
      var lo :- Bound(d);
      var hi :- Bound(e);
      Ok(RangeV(lo, hi)))
  {
    SpanSplits(d, e);
  }

  /** Rendered items are accepted by `LIST_RE`, and `parse_range2` gives
      back their values: one item as `[key, value]`, several as one `$or`
      clause `{key: value}` per item, in order. */
  lemma ParseRange2RoundTrip(items: seq<Item>, key: string)
    requires |items| > 0
    ensures ListRe(Render(items)) && ListChars(Render(items))
    ensures |items| == 1 ==> ParseRange2(Render(items), key) == Ok((key, ItemValue(items[0])))
    ensures |items| > 1 ==> ParseRange2(Render(items), key) == Ok(("$or", OrV(Singletons(key, ItemValues(items)))))
  {
    RenderPieces(items);
    if |items| == 1 {
      assert Render(items) == RenderItems(items)[0];
    } else {
      ParseRange2Several(items, key);
    }
  }

  lemma ParseRange2Several(items: seq<Item>, key: string)
    requires |items| > 1
    ensures ParseRange2(Render(items), key) == Ok(("$or", OrV(Singletons(key, ItemValues(items)))))
  {
    RenderPieces(items);
    var ps := RenderItems(items);
    var s := Render(items);
    assert s == ps[0] + "," + Join(ps[1..], ",");
    assert s[|ps[0]|] == ',';
    assert ',' in RemoveChar(s, ' ');
    assert ParseItems(ps).Ok?;
    var r := ParseRange2(s, key);
    assert r.Ok?;
    var cs := r.value.1.clauses;
    assert cs == Singletons(key, ItemValues(items)) by {
      assert |cs| == |items|;
      forall i | 0 <= i < |items|
        ensures cs[i] == map[key := ItemValue(items[i])]
      {
      }
    }
  }

  /** The rendered text splits back into the rendered items, each of which
      parses to its value, and holds no space. */
  lemma RenderPieces(items: seq<Item>)
    requires |items| > 0
    ensures var ps := RenderItems(items);
      && Split(Render(items), ',') == ps
      && (forall i :: 0 <= i < |ps| ==> ItemRe(ps[i]) && ParseItem(ps[i]) == Ok(ItemValue(items[i])))
      && ListRe(Render(items)) && ListChars(Render(items))
      && RemoveChar(Render(items), ' ') == Render(items)
  {
    var ps := RenderItems(items);
    var s := Render(items);
    forall i | 0 <= i < |ps|
      ensures ItemRe(ps[i]) && ListChars(ps[i]) && ',' !in ps[i] && ParseItem(ps[i]) == Ok(ItemValue(items[i]))
    {
      ItemRoundTrip(items[i]);
    }
    SplitJoinPieces(ps, ',');
    JoinListChars(ps);
    assert ' ' !in s by {
      assert forall i :: 0 <= i < |s| ==> ListChar(s[i]);
    }
    RemoveCharAbsent(s, ' ');
  }

  /** An item accepted by the syntax always parses. */
  lemma ItemReParses(p: string)
    requires ItemRe(p)
    ensures ParseItem(p).Ok?
    ensures ListChars(p)
  {
    var d := DigitRun(p);
    if |d| == |p| {
      assert p == d;
      SingleRoundTrip(p);
    } else {
      var e := p[|d| + 1..];
      assert p == d + "-" + e by {
        assert p[..|d|] == d;
      }
      SpanChars(d, e);
      SpanParses(d, e);
      ParseIntDigits(d);
      if e != "" {
        ParseIntDigits(e);
      }
    }
  }

  /** Whatever `LIST_RE` accepts, `parse_range2` parses without raising,
      and it is made of list characters only. */
  lemma ListReParses(s: string, key: string)
    requires ListRe(s)
    ensures ParseRange2(s, key).Ok?
    ensures ListChars(s)
  {
    var ps := Split(s, ',');
    forall i | 0 <= i < |ps|
      ensures ParseItem(ps[i]).Ok? && ListChars(ps[i])
    {
      ItemReParses(ps[i]);
    }
    SplitJoin(s, ',');
    JoinListChars(ps);
    assert ' ' !in s by {
      assert forall i :: 0 <= i < |s| ==> ListChar(s[i]);
    }
    RemoveCharAbsent(s, ' ');
    if ',' !in s {
      SplitNoSeparator(s, ',');
      assert ps[0] == s;
    }
  }

  // ---- collapse_ors ----

  /** The clauses of `collapse_ors`: each old clause updated by each new
      one (new keys win), the new clause varying slowest. */
  function Cross(xs: seq<map<string, Value>>, ys: seq<map<string, Value>>): (r: seq<map<string, Value>>)
    ensures |r| == |xs| * |ys|
    decreases |ys|
  {
    if ys == [] then []
    else
      var front := Cross(xs, ys[..|ys| - 1]);
      assert |xs| * (|ys| - 1) + |xs| == |xs| * |ys|;
      front + seq(|xs|, i requires 0 <= i < |xs| => xs[i] + ys[|ys| - 1])
  }

  lemma MulStep(a: nat, b: nat, j: nat, i: nat)
    requires j < b && i < a
    ensures j * a + i < b * a
  {
    assert (j + 1) * a <= b * a;
  }

  /** Entry `j * |xs| + i` of the merged list is old clause `i` updated by
      new clause `j`. */
  lemma {:induction false} CrossAt(xs: seq<map<string, Value>>, ys: seq<map<string, Value>>, i: nat, j: nat)
    requires i < |xs| && j < |ys|
    ensures j * |xs| + i < |Cross(xs, ys)|
    ensures Cross(xs, ys)[j * |xs| + i] == xs[i] + ys[j]
    decreases |ys|
  {
    MulStep(|xs|, |ys|, j, i);
    var front := Cross(xs, ys[..|ys| - 1]);
    if j < |ys| - 1 {
      MulStep(|xs|, |ys| - 1, j, i);
      CrossAt(xs, ys[..|ys| - 1], i, j);
    } else {
      assert j * |xs| == |front|;
    }
  }

  /** Every merged clause is some old clause updated by some new clause. */
  lemma {:induction false} CrossElement(xs: seq<map<string, Value>>, ys: seq<map<string, Value>>, k: nat)
    requires k < |Cross(xs, ys)|
    ensures exists i, j :: 0 <= i < |xs| && 0 <= j < |ys| && Cross(xs, ys)[k] == xs[i] + ys[j]
    decreases |ys|
  {
    var front := Cross(xs, ys[..|ys| - 1]);
    if k < |front| {
      CrossElement(xs, ys[..|ys| - 1], k);
      var i, j :| 0 <= i < |xs| && 0 <= j < |ys| - 1 && front[k] == xs[i] + ys[..|ys| - 1][j];
      assert Cross(xs, ys)[k] == xs[i] + ys[j];
    } else {
      var i := k - |front|;
      assert Cross(xs, ys)[k] == xs[i] + ys[|ys| - 1];
    }
  }

  /** `collapse_ors(parsed, query)`: `parsed` is stored under its key,
      except that a second `$or` is multiplied out against the one already
      in the query, so that both alternatives must hold. */
  function CollapseOrs(parsed: (string, Value), query: Query): (r: Result<Query, ParseError>)
    ensures r.Ok? ==> r.value.Keys == query.Keys + {parsed.0}
    ensures r.Ok? ==> forall k :: k in query && k != parsed.0 ==> r.value[k] == query[k]
    ensures !(parsed.0 == "$or" && "$or" in query) ==> r.Ok? && r.value[parsed.0] == parsed.1
    ensures parsed.0 == "$or" && "$or" in query ==> (r.Ok? <==> parsed.1.OrV? && query["$or"].OrV?)
    ensures parsed.0 == "$or" && "$or" in query && r.Ok? ==>
      r.value["$or"] == OrV(Cross(query["$or"].clauses, parsed.1.clauses))
  {
    if parsed.0 == "$or" && "$or" in query then
      if parsed.1.OrV? && query["$or"].OrV? then
        Ok(query["$or" := OrV(Cross(query["$or"].clauses, parsed.1.clauses))])
      else Err(NotClauses)
    else Ok(query[parsed.0 := parsed.1])
  }

  /** A clause holds when each of its conditions does. */
  predicate Holds(c: map<string, Value>, ok: (string, Value) -> bool) {
    forall k :: k in c ==> ok(k, c[k])
  }

  predicate AnyHolds(cs: seq<map<string, Value>>, ok: (string, Value) -> bool) {
    exists i :: 0 <= i < |cs| && Holds(cs[i], ok)
  }

  /** Merging two clauses with disjoint fields is their conjunction. */
  lemma HoldsUnion(x: map<string, Value>, y: map<string, Value>, ok: (string, Value) -> bool)
    requires x.Keys !! y.Keys
    ensures Holds(x + y, ok) <==> Holds(x, ok) && Holds(y, ok)
  {
    if Holds(x + y, ok) {
      forall k | k in x
        ensures ok(k, x[k])
      {
        assert k !in y;
        assert k in x + y && (x + y)[k] == x[k];
      }
      forall k | k in y
        ensures ok(k, y[k])
      {
        assert k in x + y && (x + y)[k] == y[k];
      }
    }
    if Holds(x, ok) && Holds(y, ok) {
      forall k | k in x + y
        ensures ok(k, (x + y)[k])
      {
        if k in y {
          assert (x + y)[k] == y[k];
        } else {
          assert (x + y)[k] == x[k];
        }
      }
    }
  }

  /** When old and new clauses constrain different fields, the merged `$or`
      holds exactly when one old clause and one new clause hold. */
  lemma {:induction false} CrossIsConjunction(xs: seq<map<string, Value>>, ys: seq<map<string, Value>>, ok: (string, Value) -> bool)
    requires forall i, j :: 0 <= i < |xs| && 0 <= j < |ys| ==> xs[i].Keys !! ys[j].Keys
    ensures AnyHolds(Cross(xs, ys), ok) <==> AnyHolds(xs, ok) && AnyHolds(ys, ok)
  {
    if AnyHolds(Cross(xs, ys), ok) {
      CrossHoldsSplits(xs, ys, ok);
    }
    if AnyHolds(xs, ok) && AnyHolds(ys, ok) {
      var i :| 0 <= i < |xs| && Holds(xs[i], ok);
      var j :| 0 <= j < |ys| && Holds(ys[j], ok);
      CrossHoldsJoins(xs, ys, ok, i, j);
    }
  }

  lemma {:induction false} CrossHoldsSplits(xs: seq<map<string, Value>>, ys: seq<map<string, Value>>, ok: (string, Value) -> bool)
    requires forall i, j :: 0 <= i < |xs| && 0 <= j < |ys| ==> xs[i].Keys !! ys[j].Keys
    requires AnyHolds(Cross(xs, ys), ok)
    ensures AnyHolds(xs, ok) && AnyHolds(ys, ok)
  {
    var r := Cross(xs, ys);
    var k :| 0 <= k < |r| && Holds(r[k], ok);
    CrossElement(xs, ys, k);
    var i, j :| 0 <= i < |xs| && 0 <= j < |ys| && r[k] == xs[i] + ys[j];
    HoldsUnion(xs[i], ys[j], ok);
    assert Holds(xs[i], ok) && Holds(ys[j], ok);
  }

  lemma {:induction false} CrossHoldsJoins(xs: seq<map<string, Value>>, ys: seq<map<string, Value>>, ok: (string, Value) -> bool, i: nat, j: nat)
    requires i < |xs| && j < |ys| && xs[i].Keys !! ys[j].Keys
    requires Holds(xs[i], ok) && Holds(ys[j], ok)
    ensures AnyHolds(Cross(xs, ys), ok)
  {
    var k := CrossIndex(xs, ys, i, j);
    HoldsUnion(xs[i], ys[j], ok);
    assert Holds(Cross(xs, ys)[k], ok);
  }

  /** Where old clause `i` updated by new clause `j` sits in the merged list. */
  lemma CrossIndex(xs: seq<map<string, Value>>, ys: seq<map<string, Value>>, i: nat, j: nat) returns (k: nat)
    requires i < |xs| && j < |ys|
    ensures k < |Cross(xs, ys)| && Cross(xs, ys)[k] == xs[i] + ys[j]
  {
    CrossAt(xs, ys, i, j);
    k := j * |xs| + i;
  }

  // ---- parse_ints ----

  /** The text `parse_ints` checks: cleaned, `..` written as `-`, spaces dropped. */
  function Cleaned(inp: string): string {
    RemoveChar(ReplaceAll(CleanInput(inp), "..", "-"), ' ')
  }

  /** `parse_ints(inp, query, field)`: an empty input leaves the query as
      it is, an input outside `LIST_RE` is reported and leaves it as it is,
      and anything else is parsed and merged in. */
  function ParseInts(inp: string, query: Query, field: string): (r: Result<Query, ParseError>)
    ensures inp == "" ==> r == Ok(query)
    ensures inp != "" && !ListRe(Cleaned(inp)) ==> r == Err(Invalid(inp))
    ensures r.Err? ==> r.error == Invalid(inp) || r.error == NotClauses
    ensures r.Err? && r.error == NotClauses ==> "$or" in query && (field == "$or" || !query["$or"].OrV?)
    ensures inp != "" && ListRe(Cleaned(inp)) && "$or" !in query ==> r.Ok?
    ensures r.Ok? && inp != "" ==> (
      var key := if ',' in Cleaned(inp) then "$or" else field;
      && r.value.Keys == query.Keys + {key}
      && forall k :: k in query && k != key ==> r.value[k] == query[k])
  {
    if inp == "" then Ok(query)
    else
      var cleaned := Cleaned(inp);
      if !ListRe(cleaned) then Err(Invalid(inp))
      else
        ListReParses(cleaned, field);
        RemoveCharAbsent(cleaned, ' ');
        CollapseOrs(ParseRange2(cleaned, field).value, query)
  }

  /** Typed-in items are read back: a single item is stored under the
      field, and a list becomes an `$or` of one clause per item. */
  lemma ParseIntsRoundTrip(items: seq<Item>, query: Query, field: string)
    requires |items| > 0
    requires field != "$or" && "$or" !in query
    ensures |items| == 1 ==> ParseInts(Render(items), query, field) == Ok(query[field := ItemValue(items[0])])
    ensures |items| > 1 ==> ParseInts(Render(items), query, field) == Ok(query["$or" := OrV(Singletons(field, ItemValues(items)))])
  {
    var s := Render(items);
    ParseRange2RoundTrip(items, field);
    CleanedListChars(s);
    assert s != "" by {
      assert ItemRe(Split(s, ',')[0]);
    }
  }

  /** List text passes the clean-up untouched. */
  lemma CleanedListChars(s: string)
    requires ListChars(s)
    ensures Cleaned(s) == s
  {
    CleanKeeps(s);
    assert '.' !in s;
    ReplaceAllSkips(s, [], "..", "-");
    assert s + [] == s;
    assert ' ' !in s;
    RemoveCharAbsent(s, ' ');
  }

  /** Two dots between numbers mean the same range as a minus sign. */
  lemma {:induction false} DotsRange(a: nat, b: nat)
    ensures Cleaned(NatToString(a) + ".." + NatToString(b)) == Render([Span(a, Some(b))])
  {
    var d, e := NatToString(a), NatToString(b);
    DigitsPass(d);
    DigitsPass(e);
    CleanAppend(d, "..");
    CleanAppend(d + "..", e);
    CleanKeeps("..");
    assert CleanInput(d + ".." + e) == d + ".." + e;
    DotsReplaced(d, e);
    var t := d + "-" + e;
    SpanChars(d, e);
    assert ' ' !in t by {
      assert forall i :: 0 <= i < |t| ==> ListChar(t[i]);
    }
    RemoveCharAbsent(t, ' ');
    assert Render([Span(a, Some(b))]) == t;
  }

  /** Digits pass the clean-up untouched and hold no dot. */
  lemma {:induction false} DigitsPass(d: string)
    requires AllDigits(d)
    ensures CleanInput(d) == d && '.' !in d
  {
    CleanKeeps(d);
  }

  lemma DotsReplaced(d: string, e: string)
    requires '.' !in d && '.' !in e
    ensures ReplaceAll(d + ".." + e, "..", "-") == d + "-" + e
  {
    assert d + ".." + e == d + (".." + e);
    ReplaceAllSkips(d, ".." + e, "..", "-");
    assert (".." + e)[2..] == e;
    ReplaceAllSkips(e, [], "..", "-");
    assert e + [] == e;
  }

  // ---- parse_list ----

  /** `s[1:-1]`. */
  function Inner(s: string): (r: string)
    ensures |s| >= 2 ==> |r| == |s| - 2 && forall i :: 0 <= i < |r| ==> r[i] == s[i + 1]
    ensures |s| < 2 ==> r == ""
  {
    if |s| >= 2 then s[1..|s| - 1] else ""
  }

  /** The text `parse_list` reads: spaces and the outer brackets dropped,
      but only from inputs longer than two characters. */
  function Trimmed(inp: string): (r: string)
    ensures |inp| <= 2 ==> r == inp
    ensures |inp| > 2 ==> ' ' !in r && |r| == if |RemoveChar(inp, ' ')| >= 2 then |RemoveChar(inp, ' ')| - 2 else 0
    ensures |inp| > 2 && |RemoveChar(inp, ' ')| >= 2 ==> forall i :: 0 <= i < |r| ==> r[i] == RemoveChar(inp, ' ')[i + 1]
  {
    if |inp| > 2 then
      var t := RemoveChar(inp, ' ');
      var r := Inner(t);
      assert forall i :: 0 <= i < |r| ==> r[i] in t;
      r
    else inp
  }

  /** `[int(a) for a in pieces]`; the first failure wins. */
  function ParseAll(pieces: seq<string>): (r: Result<seq<int>, ParseError>)
    ensures r.Ok? <==> forall i :: 0 <= i < |pieces| ==> ParseInt(pieces[i]).Some?
    ensures r.Ok? ==> |r.value| == |pieces| && forall i :: 0 <= i < |pieces| ==> r.value[i] == ParseInt(pieces[i]).value
    ensures r.Err? ==> exists i :: 0 <= i < |pieces| && ParseInt(pieces[i]).None? && r.error == NotAnInteger(pieces[i])
  {
    if pieces == [] then Ok([])
    else
      var n :- ToInt(pieces[0]);
      var ns :- ParseAll(pieces[1..]);
      assert forall i :: 1 <= i < |pieces| ==> pieces[1..][i - 1] == pieces[i];
      Ok([n] + ns)
  }

  /** `parse_list(inp, query, field, test)`: the comma-separated integers
      between the brackets, passed through `test` when there is one, are
      stored under the field; an empty list leaves the query as it is, and
      text without any digit is reported. */
  function ParseList(inp: string, query: Query, field: string, test: Option<seq<int> -> Value>): (r: Result<Query, ParseError>)
    ensures Trimmed(inp) == "" ==> r == Ok(query)
    ensures Trimmed(inp) != "" && !HasDigit(Trimmed(inp)) ==> r == Err(Invalid(Trimmed(inp)))
    ensures r.Err? ==> r.error.Invalid? || ParseAll(Split(Trimmed(inp), ',')).Err?
    ensures Trimmed(inp) != "" && HasDigit(Trimmed(inp)) ==> (r.Ok? <==> ParseAll(Split(Trimmed(inp), ',')).Ok?)
    ensures r.Ok? && Trimmed(inp) != "" ==> (
      && r.value.Keys == query.Keys + {field}
      && (forall k :: k in query && k != field ==> r.value[k] == query[k])
      && ParseAll(Split(Trimmed(inp), ',')).Ok?
      && (test.None? ==> r.value[field] == ListV(ParseAll(Split(Trimmed(inp), ',')).value))
      && (test.Some? ==> r.value[field] == test.value(ParseAll(Split(Trimmed(inp), ',')).value)))
  {
    var s := Trimmed(inp);
    if s == "" then Ok(query)
    else if HasDigit(s) then
      var out :- ParseAll(Split(s, ','));
      Ok(query[field := if test.Some? then test.value(out) else ListV(out)])
    else Err(Invalid(s))
  }

  /** A bracketed list of numbers is read back as those numbers. */
  lemma ParseListRoundTrip(xs: seq<nat>, query: Query, field: string)
    requires |xs| > 0
    ensures ParseList("[" + Join(Numerals(xs), ",") + "]", query, field, None) == Ok(query[field := ListV(xs)])
  {
    var ps := Numerals(xs);
    var body := Join(ps, ",");
    BracketedBody(xs);
    forall i | 0 <= i < |ps|
      ensures ParseInt(ps[i]) == Some(xs[i] as int)
    {
      ParseIntDigits(ps[i]);
    }
    var out := ParseAll(ps).value;
    assert out == xs;
  }

  /** The brackets and nothing else are trimmed from a bracketed list, and
      what is left splits back into the numerals. */
  lemma BracketedBody(xs: seq<nat>)
    requires |xs| > 0
    ensures var body := Join(Numerals(xs), ",");
      Trimmed("[" + body + "]") == body && HasDigit(body) && Split(body, ',') == Numerals(xs)
  {
    var ps := Numerals(xs);
    var body := Join(ps, ",");
    var inp := "[" + body + "]";
    forall i | 0 <= i < |ps|
      ensures ListChars(ps[i]) && ',' !in ps[i]
    {
    }
    JoinListChars(ps);
    assert ' ' !in inp by {
      assert forall i :: 0 <= i < |body| ==> ListChar(body[i]);
      assert forall i :: 0 < i < |inp| - 1 ==> inp[i] == body[i - 1];
    }
    RemoveCharAbsent(inp, ' ');
    if |ps| > 1 {
      assert body == ps[0] + "," + Join(ps[1..], ",");
    }
    assert body[0] == ps[0][0];
    assert IsDigit(body[0]);
    assert inp[1..|inp| - 1] == body;
    SplitJoinPieces(ps, ',');
  }

  function Numerals(xs: seq<nat>): (ps: seq<string>)
    ensures |ps| == |xs|
    ensures forall i :: 0 <= i < |xs| ==> ps[i] == NatToString(xs[i])
  {
    seq(|xs|, i requires 0 <= i < |xs| => NatToString(xs[i]))
  }

  /** Inputs of at most two characters are read as they are: one or two
      digits are a one-element list. */
  lemma {:induction false} ParseListShort(inp: string, query: Query, field: string)
    requires 0 < |inp| <= 2 && AllDigits(inp)
    ensures ParseList(inp, query, field, None) == Ok(query[field := ListV([DigitsToNat(inp)])])
  {
    assert Trimmed(inp) == inp;
    assert HasDigit(inp) by {
      assert IsDigit(inp[0]);
    }
    ParseIntDigits(inp);
    assert ',' !in inp;
    SplitNoSeparator(inp, ',');
    assert [inp][0] == inp;
    var out := ParseAll([inp]);
    assert out.Ok?;
    assert out.value == [DigitsToNat(inp) as int] by {
      assert |out.value| == 1 && out.value[0] == DigitsToNat(inp);
    }
  }

  /** The empty brackets `[]` are too short to be trimmed, hold no digit,
      and are reported, while `[ ]` is trimmed to nothing and accepted. */
  lemma ParseListEmpty(query: Query, field: string)
    ensures ParseList("[]", query, field, None) == Err(Invalid("[]"))
    ensures ParseList("[ ]", query, field, None) == Ok(query)
  {
    assert Trimmed("[]") == "[]";
    assert !HasDigit("[]") by {
      assert !IsDigit("[]"[0]) && !IsDigit("[]"[1]);
    }
    assert RemoveChar("[ ]", ' ') == "[]" by {
      assert "[ ]" == "[" + " " + "]";
      RemoveCharAppend("[" + " ", "]", ' ');
      RemoveCharAppend("[", " ", ' ');
    }
  }
}
