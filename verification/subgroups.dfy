/** Subgroup records of one ambient group (`WebAbstractSubgroup`) and the
    views over the collection that need no ordering beyond iteration order:
    product decompositions, the CSS class of a subgroup, and the ambient
    label recovered from a subgroup label. */
module Subgroups {
  import opened Wrappers
  import opened Text
  import opened Seqs

  type Label = string

  /** One row of the subgroup table, with the fields this model reads. */
  datatype SubgroupRecord = SubgroupRecord(
    name: Label,                 // the subgroup label `N.c.i`
    ambient: Label,
    subgroupOrder: nat,
    quotientOrder: nat,
    normal: bool,
    characteristic: bool,
    split: bool,
    direct: bool,
    sylow: nat,                  // the prime p when this is a Sylow p-subgroup, else 0
    contains: seq<Label>,        // the maximal subgroups of this one
    containedIn: seq<Label>,     // the minimal overgroups of this one
    specialLabels: seq<string>)  // tags such as "<ambient>.F" or "<ambient>.C3"

  /** The `subgroups` dictionary of a group, in its iteration order; the
      dictionary is keyed by each record's own label. */
  type Collection = seq<SubgroupRecord>

  function LabelsOf(subs: Collection): (ls: seq<Label>)
    ensures |ls| == |subs|
    ensures forall i :: 0 <= i < |subs| ==> ls[i] == subs[i].name
  {
    if subs == [] then [] else [subs[0].name] + LabelsOf(subs[1..])
  }

  /** Dictionary keys are distinct. */
  predicate DistinctLabels(subs: Collection) {
    forall i, j :: 0 <= i < j < |subs| ==> subs[i].name != subs[j].name
  }

  predicate HasLabel(subs: Collection, l: Label) {
    exists i :: 0 <= i < |subs| && subs[i].name == l
  }

  /** `subs[l]`, `None` standing for the KeyError. */
  function Lookup(subs: Collection, l: Label): (r: Option<SubgroupRecord>)
    ensures r.Some? <==> HasLabel(subs, l)
    ensures r.Some? ==> r.value.name == l && r.value in subs
    ensures DistinctLabels(subs) ==>
      forall i :: 0 <= i < |subs| && subs[i].name == l ==> r == Some(subs[i])
  {
    if subs == [] then None
    else if subs[0].name == l then Some(subs[0])
    else
      var r := Lookup(subs[1..], l);
      assert forall i :: 1 <= i < |subs| ==> subs[i] == subs[1..][i - 1];
      r
  }

  // ---- product decompositions ----

  predicate IsDirectFactor(s: SubgroupRecord) {
    s.normal && s.direct && s.subgroupOrder != 1 && s.quotientOrder != 1
  }

  predicate IsSemidirectFactor(s: SubgroupRecord) {
    s.normal && s.split && !s.direct
  }

  predicate IsNonsplitFactor(s: SubgroupRecord) {
    s.normal && !s.split
  }

  /** `direct_products`: the nontrivial normal subgroups with a direct
      complement, in iteration order. */
  function DirectProducts(subs: Collection): (r: Collection)
    ensures forall i :: 0 <= i < |r| ==> r[i] in subs && IsDirectFactor(r[i])
    ensures forall i :: 0 <= i < |subs| && IsDirectFactor(subs[i]) ==> subs[i] in r
    ensures forall x :: multiset(r)[x] == if IsDirectFactor(x) then multiset(subs)[x] else 0
  {
    FilterMultiset(subs, IsDirectFactor);
    Filter(subs, IsDirectFactor)
  }

  /** `semidirect_products`: normal subgroups with a complement that is not direct. */
  function SemidirectProducts(subs: Collection): (r: Collection)
    ensures forall i :: 0 <= i < |r| ==> r[i] in subs && IsSemidirectFactor(r[i])
    ensures forall i :: 0 <= i < |subs| && IsSemidirectFactor(subs[i]) ==> subs[i] in r
    ensures forall x :: multiset(r)[x] == if IsSemidirectFactor(x) then multiset(subs)[x] else 0
  {
    FilterMultiset(subs, IsSemidirectFactor);
    Filter(subs, IsSemidirectFactor)
  }

  /** `nonsplit_products`: normal subgroups with no complement. */
  function NonsplitProducts(subs: Collection): (r: Collection)
    ensures forall i :: 0 <= i < |r| ==> r[i] in subs && IsNonsplitFactor(r[i])
    ensures forall i :: 0 <= i < |subs| && IsNonsplitFactor(subs[i]) ==> subs[i] in r
    ensures forall x :: multiset(r)[x] == if IsNonsplitFactor(x) then multiset(subs)[x] else 0
  {
    FilterMultiset(subs, IsNonsplitFactor);
    Filter(subs, IsNonsplitFactor)
  }

  /** `most_product_expressions`: the length of the longest of the three lists. */
  function MostProductExpressions(subs: Collection): (r: nat)
    ensures r >= |DirectProducts(subs)|
    ensures r >= |SemidirectProducts(subs)|
    ensures r >= |NonsplitProducts(subs)|
    ensures r == |DirectProducts(subs)| || r == |SemidirectProducts(subs)| || r == |NonsplitProducts(subs)|
    ensures r <= |subs|
  {
    var d := |DirectProducts(subs)|;
    var s := |SemidirectProducts(subs)|;
    var n := |NonsplitProducts(subs)|;
    if d >= s && d >= n then d else if s >= n then s else n
  }

  /** When every direct record is also split, each record lands in at
      most one of the three lists, so together they hold at most as many
      records as the collection. */
  lemma {:induction false} ProductCounts(subs: Collection)
    requires forall i :: 0 <= i < |subs| ==> (subs[i].direct ==> subs[i].split)
    ensures |DirectProducts(subs)| + |SemidirectProducts(subs)| + |NonsplitProducts(subs)| <= |subs|
    decreases |subs|
  {
    if subs != [] {
      var rest := subs[1..];
      assert forall i :: 0 <= i < |rest| ==> rest[i] == subs[i + 1];
      ProductCounts(rest);
      var h := subs[0];
      assert |DirectProducts(subs)| == (if IsDirectFactor(h) then 1 else 0) + |DirectProducts(rest)|;
      assert |SemidirectProducts(subs)| == (if IsSemidirectFactor(h) then 1 else 0) + |SemidirectProducts(rest)|;
      assert |NonsplitProducts(subs)| == (if IsNonsplitFactor(h) then 1 else 0) + |NonsplitProducts(rest)|;
    }
  }

  /** The three lists never share a record whose flags are consistent
      (a direct factor is also split); semidirect and nonsplit factors
      never overlap at all. */
  lemma ProductListsDisjoint(subs: Collection, x: SubgroupRecord)
    requires x.direct ==> x.split
    ensures !(x in DirectProducts(subs) && x in SemidirectProducts(subs))
    ensures !(x in DirectProducts(subs) && x in NonsplitProducts(subs))
    ensures !(x in SemidirectProducts(subs) && x in NonsplitProducts(subs))
  {
    if x in DirectProducts(subs) {
      var i :| 0 <= i < |DirectProducts(subs)| && DirectProducts(subs)[i] == x;
    }
    if x in SemidirectProducts(subs) {
      var i :| 0 <= i < |SemidirectProducts(subs)| && SemidirectProducts(subs)[i] == x;
    }
  }

  // ---- display class ----

  /** `spanclass`: the CSS classes of a subgroup; characteristic wins over
      normal, since every characteristic subgroup is normal. */
  function SpanClass(s: SubgroupRecord): (r: string)
    ensures "subgp" <= r
    ensures s.characteristic <==> r == "subgp chargp"
    ensures !s.characteristic && s.normal <==> r == "subgp normgp"
    ensures !s.characteristic && !s.normal <==> r == "subgp"
  {
    var r := "subgp";
    if s.characteristic then r + " chargp"
    else if s.normal then
      assert (r + " normgp")[6] != "subgp chargp"[6];
      r + " normgp"
    else r
  }

  // ---- ambient label of a subgroup label ----

  predicate AllLowerAlnum(s: string) {
    forall i :: 0 <= i < |s| ==> IsLowerAlnum(s[i])
  }

  /** The shape `\d+\.[a-z0-9]+` of a group label. */
  predicate GroupLabelParts(n: string, c: string) {
    |n| > 0 && AllDigits(n) && |c| > 0 && AllLowerAlnum(c)
  }

  /** The substitution `^(\d+\.[a-z0-9]+)\.\d+$` -> `\1` of `from_label`:
      a label `N.c.i` becomes `N.c`; a label of any other shape is kept.
      As in Python, `$` also matches just before a final newline, which the
      substitution leaves in place. */
  function AmbientOf(s: string): (r: string)
    ensures r != s ==> exists n, c :: GroupLabelParts(n, c) && (r == n + "." + c || r == n + "." + c + "\n")
  {
    var nl := |s| > 0 && s[|s| - 1] == '\n';
    var core := if nl then s[..|s| - 1] else s;
    var parts := Split(core, '.');
    if |parts| == 3 && GroupLabelParts(parts[0], parts[1]) && |parts[2]| > 0 && AllDigits(parts[2]) then
      parts[0] + "." + parts[1] + (if nl then "\n" else "")
    else s
  }

  /** A subgroup label is its ambient label, a dot and an index: the
      substitution recovers the ambient label. */
  lemma AmbientOfSubgroupLabel(n: string, c: string, i: nat)
    requires GroupLabelParts(n, c)
    ensures AmbientOf(n + "." + c + "." + NatToString(i)) == n + "." + c
  {
    var idx := NatToString(i);
    var s := n + "." + c + "." + idx;
    NoDot(n);
    NoDot(c);
    NoDot(idx);
    assert s[|s| - 1] == idx[|idx| - 1];
    assert s == n + ['.'] + (c + ['.'] + idx);
    SplitNoSeparator(idx, '.');
    SplitAfterPiece(c, '.', idx);
    SplitAfterPiece(n, '.', c + ['.'] + idx);
    assert Split(s, '.') == [n, c, idx];
  }

  /** The shape `\d+\.[a-z0-9]+\.\d+` of a subgroup label `N.c.i`. */
  predicate SubgroupLabelParts(n: string, c: string, i: string) {
    GroupLabelParts(n, c) && |i| > 0 && AllDigits(i)
  }

  /** `t`, followed by a newline when `nl` holds. */
  function WithNewline(t: string, nl: bool): string {
    if nl then t + "\n" else t
  }

  /** The text `from_label` rewrites: a subgroup label, perhaps followed
      by one final newline. */
  ghost predicate SubgroupLabelText(s: string) {
    exists n, c, i, nl :: SubgroupLabelParts(n, c, i) && s == WithNewline(n + "." + c + "." + i, nl)
  }

  /** The substitution turns `N.c.i` into `N.c`, keeping a final newline. */
  lemma AmbientOfParts(n: string, c: string, i: string, nl: bool)
    requires SubgroupLabelParts(n, c, i)
    ensures AmbientOf(WithNewline(n + "." + c + "." + i, nl)) == WithNewline(n + "." + c, nl)
  {
    var t := n + "." + c + "." + i;
    var s := WithNewline(t, nl);
    NoDot(n);
    NoDot(c);
    NoDot(i);
    assert t[|t| - 1] == i[|i| - 1];
    if nl {
      assert s[..|s| - 1] == t;
    }
    assert t == n + ['.'] + (c + ['.'] + i);
    SplitNoSeparator(i, '.');
    SplitAfterPiece(c, '.', i);
    SplitAfterPiece(n, '.', c + ['.'] + i);
    assert Split(t, '.') == [n, c, i];
  }

  /** `from_label` changes a label exactly when it is a subgroup label,
      perhaps followed by one final newline. */
  lemma AmbientOfShape(s: string)
    ensures AmbientOf(s) != s <==> SubgroupLabelText(s)
  {
    if AmbientOf(s) != s {
      AmbientOfChanged(s);
    }
    if SubgroupLabelText(s) {
      var n, c, i, nl :| SubgroupLabelParts(n, c, i) && s == WithNewline(n + "." + c + "." + i, nl);
      AmbientOfParts(n, c, i, nl);
      assert |WithNewline(n + "." + c, nl)| < |s|;
    }
  }

  /** Only a subgroup label is changed by the substitution. */
  lemma AmbientOfChanged(s: string)
    requires AmbientOf(s) != s
    ensures SubgroupLabelText(s)
  {
    var nl := |s| > 0 && s[|s| - 1] == '\n';
    var core := if nl then s[..|s| - 1] else s;
    var parts := Split(core, '.');
    assert |parts| == 3 && SubgroupLabelParts(parts[0], parts[1], parts[2]);
    NewlineCore(s);
    ThreePartsText(s, core, nl);
  }

  /** A text is its part before an optional final newline, followed by
      that newline. */
  lemma NewlineCore(s: string)
    ensures var nl := |s| > 0 && s[|s| - 1] == '\n';
            s == WithNewline(if nl then s[..|s| - 1] else s, nl)
  {
    if |s| > 0 && s[|s| - 1] == '\n' {
      assert s == s[..|s| - 1] + [s[|s| - 1]];
    }
  }

  /** A text whose core splits into the three parts of a subgroup label is
      a subgroup label text. */
  lemma ThreePartsText(s: string, core: string, nl: bool)
    requires s == WithNewline(core, nl) && |Split(core, '.')| == 3
    requires SubgroupLabelParts(Split(core, '.')[0], Split(core, '.')[1], Split(core, '.')[2])
    ensures SubgroupLabelText(s)
  {
    var parts := Split(core, '.');
    SplitThree(core, '.');
    assert core == parts[0] + "." + parts[1] + "." + parts[2];
  }

  /** A string splitting into three pieces is the pieces joined by the
      separator. */
  lemma SplitThree(s: string, c: char)
    requires |Split(s, c)| == 3
    ensures s == Split(s, c)[0] + [c] + Split(s, c)[1] + [c] + Split(s, c)[2]
  {
    var ps := Split(s, c);
    SplitJoin(s, c);
    assert ps[1..][1..] == [ps[2]];
    assert Join(ps[1..], [c]) == ps[1] + [c] + ps[2];
  }

  lemma NoDot(s: string)
    requires AllLowerAlnum(s) || AllDigits(s)
    ensures '.' !in s
  {
  }

  /** A label with no dot is not a subgroup label and is returned as is. */
  lemma AmbientOfUndotted(s: string)
    requires '.' !in s
    ensures AmbientOf(s) == s
  {
    var nl := |s| > 0 && s[|s| - 1] == '\n';
    var core := if nl then s[..|s| - 1] else s;
    assert '.' !in core;
    SplitNoSeparator(core, '.');
  }

  // ---- label order ----

  /** Python's `<=` on strings: code point by code point. */
  predicate LexLe(a: string, b: string)
    decreases |a|
  {
    a == [] || (b != [] && (a[0] < b[0] || (a[0] == b[0] && LexLe(a[1..], b[1..]))))
  }

  lemma {:induction false} LexLeTotal(a: string, b: string)
    ensures LexLe(a, b) || LexLe(b, a)
    decreases |a|
  {
    if a != [] && b != [] && a[0] == b[0] {
      LexLeTotal(a[1..], b[1..]);
    }
  }

  lemma {:induction false} LexLeTransitive(a: string, b: string, c: string)
    requires LexLe(a, b) && LexLe(b, c)
    ensures LexLe(a, c)
    decreases |a|
  {
    if a != [] && a[0] == b[0] && b[0] == c[0] {
      LexLeTransitive(a[1..], b[1..], c[1..]);
    }
  }

  lemma {:induction false} LexLeAntisymmetric(a: string, b: string)
    requires LexLe(a, b) && LexLe(b, a)
    ensures a == b
    decreases |a|
  {
    if a != [] {
      LexLeAntisymmetric(a[1..], b[1..]);
      assert a == [a[0]] + a[1..];
      assert b == [b[0]] + b[1..];
    }
  }

  /** Python's `max` over labels: the first label no other label exceeds. */
  function MaxLabel(ls: seq<Label>): (r: Label)
    requires |ls| > 0
    ensures r in ls
    ensures forall i :: 0 <= i < |ls| ==> LexLe(ls[i], r)
  {
    MaxFrom(ls[0], ls[1..])
  }

  function MaxFrom(best: Label, rest: seq<Label>): (r: Label)
    ensures r == best || r in rest
    ensures LexLe(best, r)
    ensures forall i :: 0 <= i < |rest| ==> LexLe(rest[i], r)
    decreases |rest|
  {
    if rest == [] then
      LexLeTotal(best, best);
      best
    else
      var next := if LexLe(rest[0], best) then best else rest[0];
      LexLeTotal(rest[0], best);
      var r := MaxFrom(next, rest[1..]);
      assert forall i :: 1 <= i < |rest| ==> rest[i] == rest[1..][i - 1];
      if LexLe(rest[0], best) then
        LexLeTransitive(rest[0], best, r);
        r
      else
        LexLeTransitive(best, rest[0], r);
        r
  }
}
