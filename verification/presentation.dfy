/** The presentation of a pc group as shown on its page (`presentation`):
    the exponent blocks that merge the eliminated pc generators into the
    displayed ones, the order in which the relators are listed, and the
    final text. The relations themselves are read from GAP, so the power
    relations and conjugation relations arrive here already classified,
    with each right-hand side given as the word GAP prints for its image
    under the rewriting homomorphism. */
module Presentation {
  import opened Wrappers
  import opened Text
  import opened RelatorText
  import opened Seqs

  datatype PresentationError =
    | MissingPower(gen: nat)                     // no value given for the i-th power
    | GeneratorCount(found: nat, expected: nat)  // number of blocks against `ngens`
    | NotImplemented                             // an element representation with no presentation

  /** A power relation `f_i^e = rhs`; `rhs` is `None` for the identity and
      otherwise the printed word of its image under the rewriting
      homomorphism. */
  datatype PowerRelation = PowerRelation(exp: int, rhs: Option<seq<Token>>)

  /** An entry `Fgens[gen]**exp` of the rewriting list. */
  datatype Power = Power(gen: nat, exp: int)

  /** The three lists the block loop builds: `rewrite`, the closing index
      of each block (whose `power_rhs` becomes `genpow_rhs`), and
      `genpow_exp`. */
  datatype Blocks = Blocks(rewrite: seq<Power>, ends: seq<nat>, exps: seq<int>)

  // ---- exponent blocks ----

  /** Step `i` closes a block: it is the last pc generator, or the next one
      is a displayed generator. */
  predicate Closes(i: nat, n: nat, used: seq<nat>) {
    i == n || i + 1 in used
  }

  /** The indices among `1..i` that close a block, ascending. */
  function Ends(n: nat, used: seq<nat>, i: nat): (es: seq<nat>)
    ensures forall x :: x in es <==> 1 <= x <= i && Closes(x, n, used)
    ensures forall k, l :: 0 <= k < l < |es| ==> es[k] < es[l]
    ensures |es| <= i
  {
    if i == 0 then []
    else
      var es := Ends(n, used, i - 1);
      assert forall k :: 0 <= k < |es| ==> es[k] in es;
      es + (if Closes(i, n, used) then [i] else [])
  }

  predicate HasPowers(powers: map<nat, PowerRelation>, a: int, b: int) {
    forall j :: a <= j <= b ==> j in powers
  }

  /** The product of the exponents `power_exp[a] * ... * power_exp[b]`. */
  function Prod(powers: map<nat, PowerRelation>, a: int, b: int): int
    requires HasPowers(powers, a, b)
    decreases b - a
  {
    if b < a then 1 else Prod(powers, a, b - 1) * powers[b].exp
  }

  /** The first index of the block after those closed at `es`. */
  function Start(es: seq<nat>): nat {
    if es == [] then 1 else es[|es| - 1] + 1
  }

  function Product(xs: seq<int>): int {
    if xs == [] then 1 else Product(xs[..|xs| - 1]) * xs[|xs| - 1]
  }

  /** Each block's exponent is the product of the exponents of its pc
      generators. */
  predicate BlockExps(powers: map<nat, PowerRelation>, es: seq<nat>, exps: seq<int>) {
    |exps| == |es|
    && forall k :: 0 <= k < |es| ==>
         (1 <= Start(es[..k]) && HasPowers(powers, Start(es[..k]), es[k])
          && exps[k] == Prod(powers, Start(es[..k]), es[k]))
  }

  /** The blocks once the loop has run to the end: a block closes at every
      index that `Closes`, each block's exponent is the product over its
      indices, and the block exponents multiply to the product of all the
      exponents. */
  predicate Done(powers: map<nat, PowerRelation>, n: nat, used: seq<nat>, b: Blocks) {
    HasPowers(powers, 1, n)
    && b.ends == Ends(n, used, n)
    && BlockExps(powers, b.ends, b.exps)
    && Product(b.exps) == Prod(powers, 1, n)
    && |b.rewrite| == n
  }

  /** The loop `for i in range(1, m+1)` of `presentation`, with the number
      `n` of pc generators as a parameter: it fails at the first index with
      no power relation. */
  method BlockLoop(n: nat, powers: map<nat, PowerRelation>, used: seq<nat>)
    returns (r: Result<Blocks, PresentationError>)
    ensures r.Err? <==> !HasPowers(powers, 1, n)
    ensures r.Err? ==> (r.error.MissingPower? && 1 <= r.error.gen <= n
      && r.error.gen !in powers && HasPowers(powers, 1, r.error.gen - 1))
    ensures r.Ok? ==> Done(powers, n, used, r.value)
  {
    var st :- ScanLoop(n, powers, used);
    ScanToScanned(powers, n, used, n + 1);
    LoopEnd(powers, n, used, st.ends, st.exps, st.curpow, st.rewrite);
    return Ok(Blocks(st.rewrite, st.ends, st.exps));
  }

  /** The loop itself: its variables after the last index, or the first
      index with no power relation. */
  method ScanLoop(n: nat, powers: map<nat, PowerRelation>, used: seq<nat>)
    returns (r: Result<Scan, PresentationError>)
    ensures r.Err? <==> !HasPowers(powers, 1, n)
    ensures r.Err? ==> (r.error.MissingPower? && 1 <= r.error.gen <= n
      && r.error.gen !in powers && HasPowers(powers, 1, r.error.gen - 1))
    ensures r.Ok? ==> HasPowers(powers, 1, n) && r.value == ScanTo(powers, n, used, n + 1)
  {
    var rewrite: seq<Power> := [];
    var curpow := 1;
    var genenum := 0;
    var ends: seq<nat> := [];
    var exps: seq<int> := [];
    var i := 1;
    while i <= n
      invariant 1 <= i <= n + 1 && HasPowers(powers, 1, i - 1)
      invariant Scan(rewrite, genenum, ends, exps, curpow) == ScanTo(powers, n, used, i)
    {
      if i !in powers {
        MissingAt(powers, n, i);
        return Err(MissingPower(i));
      }
      ghost var st := Scan(rewrite, genenum, ends, exps, curpow);
      rewrite := rewrite + [Power(genenum, curpow)];
      var e := powers[i].exp;
      if Closes(i, n, used) {
        exps := exps + [curpow * e];
        ends := ends + [i];
        genenum := genenum + 1;
        curpow := 1;
      } else {
        curpow := curpow * e;
      }
      assert Scan(rewrite, genenum, ends, exps, curpow) == Advance(powers, n, used, i, st);
      i := i + 1;
    }
    return Ok(Scan(rewrite, genenum, ends, exps, curpow));
  }

  /** The loop variables `rewrite`, `genenum`, the closing indices, the
      block exponents and `curpow`. */
  datatype Scan = Scan(rewrite: seq<Power>, genenum: nat, ends: seq<nat>, exps: seq<int>, curpow: int)

  /** The loop variables on entry to step `i`. */
  function ScanTo(powers: map<nat, PowerRelation>, n: nat, used: seq<nat>, i: nat): Scan
    requires 1 <= i && HasPowers(powers, 1, i - 1)
    decreases i
  {
    if i == 1 then Scan([], 0, [], [], 1)
    else Advance(powers, n, used, i - 1, ScanTo(powers, n, used, i - 1))
  }

  /** Step `i` of the loop: record the rewriting power, then close the
      block at `i` or multiply `curpow` by the exponent of `i`. */
  function Advance(powers: map<nat, PowerRelation>, n: nat, used: seq<nat>, i: nat, st: Scan): Scan
    requires i in powers
  {
    var rewrite := st.rewrite + [Power(st.genenum, st.curpow)];
    var e := powers[i].exp;
    if Closes(i, n, used) then Scan(rewrite, st.genenum + 1, st.ends + [i], st.exps + [st.curpow * e], 1)
    else Scan(rewrite, st.genenum, st.ends, st.exps, st.curpow * e)
  }

  /** What the loop variables say on entry to step `i`. */
  predicate ScanOk(powers: map<nat, PowerRelation>, n: nat, used: seq<nat>, i: nat, st: Scan) {
    Scanned(powers, n, used, i, st.ends, st.exps, st.curpow) && st.genenum == |st.ends| && |st.rewrite| == i - 1
  }

  /** The loop variables on entry to step `i` describe the blocks of the
      indices before `i`. */
  lemma {:induction false} ScanToScanned(powers: map<nat, PowerRelation>, n: nat, used: seq<nat>, i: nat)
    requires 1 <= i <= n + 1 && HasPowers(powers, 1, i - 1)
    ensures ScanOk(powers, n, used, i, ScanTo(powers, n, used, i))
    decreases i
  {
    if i == 1 {
      assert Prod(powers, 1, 0) == 1;
    } else {
      ScanToScanned(powers, n, used, i - 1);
      AdvanceOk(powers, n, used, i - 1, ScanTo(powers, n, used, i - 1));
    }
  }

  /** One step of the loop keeps its invariant. */
  lemma AdvanceOk(powers: map<nat, PowerRelation>, n: nat, used: seq<nat>, i: nat, st: Scan)
    requires i <= n && i in powers && ScanOk(powers, n, used, i, st)
    ensures ScanOk(powers, n, used, i + 1, Advance(powers, n, used, i, st))
  {
    if Closes(i, n, used) {
      CloseStep(powers, n, used, i, st.ends, st.exps, st.curpow);
    } else {
      OpenStep(powers, n, used, i, st.ends, st.exps, st.curpow);
    }
  }

  lemma MissingAt(powers: map<nat, PowerRelation>, n: nat, i: nat)
    requires 1 <= i <= n && i !in powers
    ensures !HasPowers(powers, 1, n)
  {
  }

  /** After the last index the open block is empty. */
  lemma LoopEnd(powers: map<nat, PowerRelation>, n: nat, used: seq<nat>, ends: seq<nat>, exps: seq<int>, curpow: int, rewrite: seq<Power>)
    requires Scanned(powers, n, used, n + 1, ends, exps, curpow) && |rewrite| == n
    ensures curpow == 1 && Done(powers, n, used, Blocks(rewrite, ends, exps))
  {
    if n > 0 {
      assert n in ends;
      assert Start(ends) == n + 1;
    }
  }

  /** The block loop followed by the check of the block count against
      `ngens`. */
  method ExponentBlocks(n: nat, powers: map<nat, PowerRelation>, used: seq<nat>, ngens: nat)
    returns (r: Result<Blocks, PresentationError>)
    ensures r.Err? && r.error.MissingPower? <==> !HasPowers(powers, 1, n)
    ensures r.Err? && r.error.MissingPower? ==>
      1 <= r.error.gen <= n && r.error.gen !in powers && HasPowers(powers, 1, r.error.gen - 1)
    ensures r.Err? && !r.error.MissingPower? <==> HasPowers(powers, 1, n) && |Ends(n, used, n)| != ngens
    ensures r.Err? && !r.error.MissingPower? ==> r.error == GeneratorCount(|Ends(n, used, n)|, ngens)
    ensures r.Ok? ==> Done(powers, n, used, r.value) && |r.value.exps| == ngens
  {
    var b :- BlockLoop(n, powers, used);
    if |b.exps| != ngens {
      return Err(GeneratorCount(|b.exps|, ngens));
    }
    return Ok(b);
  }

  /** The state of the block loop before step `i`: indices `1..i-1` have
      power relations, the blocks closed so far are those `Ends` names,
      `curpow` is the product over the open block, and the closed and open
      blocks together multiply to the product over `1..i-1`. */
  predicate Scanned(powers: map<nat, PowerRelation>, n: nat, used: seq<nat>, i: nat, ends: seq<nat>, exps: seq<int>, curpow: int) {
    ScannedTo(powers, n, used, i, ends) && Multiplied(powers, i, ends, exps, curpow)
  }

  /** The indices before `i` have power relations and the blocks closed
      among them are those `Ends` names. */
  predicate ScannedTo(powers: map<nat, PowerRelation>, n: nat, used: seq<nat>, i: nat, ends: seq<nat>) {
    1 <= i <= n + 1
    && HasPowers(powers, 1, i - 1)
    && ends == Ends(n, used, i - 1)
    && 1 <= Start(ends) <= i
  }

  /** The closed blocks carry their products, `curpow` is the product over
      the open block, and together they multiply to the product over
      `1..i-1`. */
  predicate Multiplied(powers: map<nat, PowerRelation>, i: nat, ends: seq<nat>, exps: seq<int>, curpow: int)
    requires HasPowers(powers, 1, i - 1) && 1 <= Start(ends) <= i
  {
    BlockExps(powers, ends, exps)
    && curpow == Prod(powers, Start(ends), i - 1)
    && Product(exps) * curpow == Prod(powers, 1, i - 1)
  }

  lemma OpenStep(powers: map<nat, PowerRelation>, n: nat, used: seq<nat>, i: nat, ends: seq<nat>, exps: seq<int>, curpow: int)
    requires Scanned(powers, n, used, i, ends, exps, curpow)
    requires i <= n && i in powers && !Closes(i, n, used)
    ensures Scanned(powers, n, used, i + 1, ends, exps, curpow * powers[i].exp)
  {
    var e := powers[i].exp;
    assert HasPowers(powers, 1, i);
    Assoc(Product(exps), curpow, e);
  }

  lemma CloseStep(powers: map<nat, PowerRelation>, n: nat, used: seq<nat>, i: nat, ends: seq<nat>, exps: seq<int>, curpow: int)
    requires Scanned(powers, n, used, i, ends, exps, curpow)
    requires i <= n && i in powers && Closes(i, n, used)
    ensures Scanned(powers, n, used, i + 1, ends + [i], exps + [curpow * powers[i].exp], 1)
  {
    var e := powers[i].exp;
    var es := ends + [i];
    var xs := exps + [curpow * e];
    assert HasPowers(powers, 1, i);
    assert es == Ends(n, used, i);
    BlockClose(powers, ends, exps, i);
    assert BlockExps(powers, es, xs);
    assert Start(es) == i + 1;
    assert Prod(powers, i + 1, i) == 1;
    assert xs[..|exps|] == exps;
    assert Product(xs) == Product(exps) * (curpow * e);
    Assoc(Product(exps), curpow, e);
    assert Product(xs) == Prod(powers, 1, i);
  }

  lemma Assoc(a: int, b: int, c: int)
    ensures a * (b * c) == (a * b) * c
  {
  }

  /** Closing a block at `i` extends the block exponents by the product
      from the block's start to `i`. */
  lemma BlockClose(powers: map<nat, PowerRelation>, ends: seq<nat>, exps: seq<int>, i: nat)
    requires BlockExps(powers, ends, exps)
    requires 1 <= Start(ends) <= i && HasPowers(powers, 1, i)
    ensures BlockExps(powers, ends + [i], exps + [Prod(powers, Start(ends), i)])
  {
    var es := ends + [i];
    assert es[..|ends|] == ends;
    forall k | 0 <= k < |ends|
      ensures es[..k] == ends[..k]
    {
    }
  }

  // ---- the relator list ----

  /** The power relation of each displayed generator: the block exponent
      with the right-hand side of the block's last pc generator. */
  function BlockPowers(powers: map<nat, PowerRelation>, b: Blocks): (ps: seq<PowerRelation>)
    requires |b.ends| == |b.exps|
    requires forall k :: 0 <= k < |b.ends| ==> b.ends[k] in powers
    ensures |ps| == |b.exps|
    ensures forall k :: 0 <= k < |ps| ==> ps[k] == PowerRelation(b.exps[k], powers[b.ends[k]].rhs)
  {
    seq(|b.exps|, k requires 0 <= k < |b.exps| => PowerRelation(b.exps[k], powers[b.ends[k]].rhs))
  }

  /** `"%s^%s" % (chr(97+k), e)`, followed by `"=" + rhs` for a relative power. */
  function PowerText(k: nat, p: PowerRelation): string
    requires k < LetterLimit
  {
    [Letter(k)] + "^" + IntToString(p.exp) + (if p.rhs.Some? then "=" + Render(p.rhs.value) else "")
  }

  /** The generators whose power relation is pure (`pure`) or relative
      (`!pure`), ascending: the keys of `pure_powers` or `rel_powers` in
      sorted order. */
  function PowerKeys(ps: seq<PowerRelation>, pure: bool): (ks: seq<nat>)
    ensures forall j :: 0 <= j < |ks| ==> ks[j] < |ps| && ps[ks[j]].rhs.None? == pure
    ensures forall k :: 0 <= k < |ps| && ps[k].rhs.None? == pure ==> k in ks
    ensures forall i, j :: 0 <= i < j < |ks| ==> ks[i] < ks[j]
  {
    if ps == [] then []
    else
      var front := ps[..|ps| - 1];
      var k := |ps| - 1;
      var ks := PowerKeys(front, pure);
      assert forall j :: 0 <= j < |front| ==> front[j] == ps[j];
      assert forall j :: 0 <= j < |ks| ==> ks[j] < k;
      ks + (if ps[k].rhs.None? == pure then [k] else [])
  }

  /** Every displayed generator has exactly one power relator, pure or relative. */
  lemma {:induction false} PowerKeysPartition(ps: seq<PowerRelation>)
    ensures |PowerKeys(ps, true)| + |PowerKeys(ps, false)| == |ps|
    decreases |ps|
  {
    if ps != [] {
      PowerKeysPartition(ps[..|ps| - 1]);
    }
  }

  /** The power relators of one kind, by ascending generator. */
  function PowerTexts(ps: seq<PowerRelation>, pure: bool): (r: seq<string>)
    requires |ps| <= LetterLimit
    ensures |r| == |PowerKeys(ps, pure)|
  {
    var ks := PowerKeys(ps, pure);
    seq(|ks|, j requires 0 <= j < |ks| => PowerText(ks[j], ps[ks[j]]))
  }

  /** A conjugation relation `gen^conjugator = image`, keyed by
      `(gen, conjugator)`; `image` is the printed word of the right-hand
      side's image under the rewriting homomorphism. */
  datatype Conj = Conj(gen: nat, conjugator: nat, image: seq<Token>)

  /** Python's order on the key tuples. */
  predicate ConjLe(p: Conj, q: Conj) {
    p.gen < q.gen || (p.gen == q.gen && p.conjugator <= q.conjugator)
  }

  predicate ConjSorted(cs: seq<Conj>) {
    forall i, j :: 0 <= i < j < |cs| ==> ConjLe(cs[i], cs[j])
  }

  function InsertConj(t: seq<Conj>, c: Conj): (r: seq<Conj>)
    requires ConjSorted(t)
    ensures ConjSorted(r)
    ensures multiset(r) == multiset(t) + multiset{c}
    decreases |t|
  {
    if t == [] || ConjLe(t[|t| - 1], c) then t + [c]
    else
      var p := t[..|t| - 1];
      var last := t[|t| - 1];
      Snoc(t);
      var q := InsertConj(p, c);
      ConjBelow(p, c, last, q);
      ConjSortedSnoc(q, last);
      q + [last]
  }

  /** Every relation of `q` comes before `last`, which follows `p` in a
      sorted list and comes after `c`. */
  lemma ConjBelow(p: seq<Conj>, c: Conj, last: Conj, q: seq<Conj>)
    requires ConjSorted(p + [last]) && !ConjLe(last, c)
    requires multiset(q) == multiset(p) + multiset{c}
    ensures forall i :: 0 <= i < |q| ==> ConjLe(q[i], last)
  {
    forall i | 0 <= i < |q|
      ensures ConjLe(q[i], last)
    {
      assert q[i] in multiset(q);
      if q[i] != c {
        assert q[i] in multiset(p);
        var j :| 0 <= j < |p| && p[j] == q[i];
        assert (p + [last])[j] == p[j];
        assert (p + [last])[|p|] == last;
      }
    }
  }

  lemma ConjSortedSnoc(q: seq<Conj>, last: Conj)
    requires ConjSorted(q)
    requires forall i :: 0 <= i < |q| ==> ConjLe(q[i], last)
    ensures ConjSorted(q + [last])
  {
  }

  /** `sorted(conj)`: the relations in ascending key order. */
  function SortConj(cs: seq<Conj>): (r: seq<Conj>)
    ensures ConjSorted(r)
    ensures multiset(r) == multiset(cs)
  {
    if cs == [] then []
    else
      assert cs == cs[..|cs| - 1] + [cs[|cs| - 1]];
      InsertConj(SortConj(cs[..|cs| - 1]), cs[|cs| - 1])
  }

  /** Both generators of a conjugation relation are displayed. */
  predicate Shown(c: Conj, used: seq<nat>) {
    c.gen in used && c.conjugator in used
  }

  /** The text of a conjugation relation, the generators renamed by their
      positions among the displayed generators. */
  function ConjText(c: Conj, used: seq<nat>): string
    requires Shown(c, used) && |used| <= LetterLimit
  {
    [Letter(IndexOf(used, c.gen))] + "^" + [Letter(IndexOf(used, c.conjugator))] + "=" + Render(c.image)
  }

  /** `Shown` as a test on relations. */
  function ShownBy(used: seq<nat>): Conj -> bool {
    c => Shown(c, used)
  }

  /** The relations between displayed generators, in the given order. */
  function Kept(cs: seq<Conj>, used: seq<nat>): (r: seq<Conj>)
    ensures forall i :: 0 <= i < |r| ==> r[i] in cs && Shown(r[i], used)
    ensures forall i :: 0 <= i < |cs| && Shown(cs[i], used) ==> cs[i] in r
  {
    if cs == [] then []
    else
      var front := cs[..|cs| - 1];
      var c := cs[|cs| - 1];
      assert forall j :: 0 <= j < |front| ==> front[j] == cs[j];
      Kept(front, used) + (if Shown(c, used) then [c] else [])
  }

  /** `Kept` is the list comprehension filtering `cs`: it keeps the shown
      relations, in order, and nothing else. */
  lemma {:induction false} KeptFilter(cs: seq<Conj>, used: seq<nat>)
    ensures Kept(cs, used) == Filter(cs, ShownBy(used))
    decreases |cs|
  {
    if cs != [] {
      var front := cs[..|cs| - 1];
      var c := cs[|cs| - 1];
      KeptFilter(front, used);
      assert cs == front + [c];
      FilterSnoc(front, c, ShownBy(used));
    }
  }

  /** `Kept` keeps every occurrence of a shown relation. */
  lemma KeptCount(cs: seq<Conj>, used: seq<nat>)
    ensures forall x :: multiset(Kept(cs, used))[x] == if Shown(x, used) then multiset(cs)[x] else 0
  {
    KeptFilter(cs, used);
    FilterMultiset(cs, ShownBy(used));
  }

  /** Keeping some relations of a sorted list keeps it sorted. */
  lemma {:induction false} KeptSorted(cs: seq<Conj>, used: seq<nat>)
    requires ConjSorted(cs)
    ensures ConjSorted(Kept(cs, used))
    decreases |cs|
  {
    if cs != [] {
      var front := cs[..|cs| - 1];
      var c := cs[|cs| - 1];
      KeptSorted(front, used);
      var k := Kept(front, used);
      forall i | 0 <= i < |k|
        ensures ConjLe(k[i], c)
      {
        var m :| 0 <= m < |front| && front[m] == k[i];
        assert cs[m] == front[m];
      }
      if Shown(c, used) {
        assert Kept(cs, used) == k + [c];
        ConjSortedSnoc(k, c);
      } else {
        assert Kept(cs, used) == k;
      }
    }
  }

  /** The conjugation relators follow the relations' keys in ascending
      order, and every relation between displayed generators is among them. */
  lemma ConjOrder(conj: seq<Conj>, used: seq<nat>)
    ensures ConjSorted(Kept(SortConj(conj), used))
    ensures forall c :: c in conj && Shown(c, used) ==> c in Kept(SortConj(conj), used)
  {
    var sorted := SortConj(conj);
    KeptSorted(sorted, used);
    forall c | c in conj && Shown(c, used)
      ensures c in Kept(sorted, used)
    {
      assert c in multiset(sorted);
      var i :| 0 <= i < |sorted| && sorted[i] == c;
    }
  }

  /** The conjugation relators: the relations between displayed generators,
      in ascending key order. */
  function ConjTexts(conj: seq<Conj>, used: seq<nat>): (r: seq<string>)
    requires |used| <= LetterLimit
    ensures |r| == |Kept(SortConj(conj), used)|
  {
    var ks := Kept(SortConj(conj), used);
    seq(|ks|, j requires 0 <= j < |ks| => ConjText(ks[j], used))
  }

  /** The relator list: the pure powers chained into one relator
      `a^e=b^f=...=1` when there are any, then the relative powers, then the
      conjugation relations in key order. */
  function Relators(ps: seq<PowerRelation>, conj: seq<Conj>, used: seq<nat>): (r: seq<string>)
    requires |ps| <= LetterLimit && |used| <= LetterLimit
    ensures var pure := PowerTexts(ps, true);
      (pure != [] ==> |r| > 0 && r[0] == Join(pure, "=") + "=1")
      && |r| == (if pure == [] then 0 else 1) + |PowerTexts(ps, false)| + |ConjTexts(conj, used)|
  {
    var pure := PowerTexts(ps, true);
    (if pure == [] then [] else [Join(pure, "=") + "=1"])
      + PowerTexts(ps, false)
      + ConjTexts(conj, used)
  }

  /** `', '.join(chr(97+i) for i in range(ngens))`. */
  function GenList(ngens: nat): string
    requires ngens <= LetterLimit
  {
    Join(seq(ngens, i requires 0 <= i < ngens => [Letter(i)]), ", ")
  }

  /** The generator list is the first `ngens` letters separated by a comma
      and a space. */
  lemma GenListLetters(ngens: nat)
    requires ngens <= LetterLimit
    ensures |GenList(ngens)| == if ngens == 0 then 0 else 3 * ngens - 2
    ensures forall k :: 0 <= k < |GenList(ngens)| ==>
      GenList(ngens)[k] == if k % 3 == 0 then Letter(k / 3) else if k % 3 == 1 then ',' else ' '
  {
    var parts := seq(ngens, i requires 0 <= i < ngens => [Letter(i)]);
    JoinSingles(parts);
  }

  lemma EndsHavePowers(powers: map<nat, PowerRelation>, n: nat, used: seq<nat>, b: Blocks)
    requires Done(powers, n, used, b)
    ensures |b.ends| == |b.exps|
    ensures forall k :: 0 <= k < |b.ends| ==> b.ends[k] in powers
  {
    forall k | 0 <= k < |b.ends|
      ensures b.ends[k] in powers
    {
      assert b.ends[k] in Ends(n, used, n);
    }
  }

  // ---- the relators as printed words ----

  /** A power relator as a word: the letter, its exponent, and `=` with
      the image for a relative power. */
  function PowerTokens(k: nat, p: PowerRelation): seq<Token>
    requires k < LetterLimit
  {
    [Chr(Letter(k)), Pow(p.exp)] + (if p.rhs.Some? then [Text("=")] + p.rhs.value else [])
  }

  /** A conjugation relator as a word: a letter, a caret before the
      conjugator's letter, and `=` with the image. */
  function ConjTokens(c: Conj, used: seq<nat>): seq<Token>
    requires Shown(c, used) && |used| <= LetterLimit
  {
    [Chr(Letter(IndexOf(used, c.gen))), Caret(Letter(IndexOf(used, c.conjugator))), Text("=")] + c.image
  }

  function PowerWords(ps: seq<PowerRelation>, pure: bool): (r: seq<seq<Token>>)
    requires |ps| <= LetterLimit
    ensures |r| == |PowerKeys(ps, pure)|
    ensures forall j :: 0 <= j < |r| ==> r[j] == PowerTokens(PowerKeys(ps, pure)[j], ps[PowerKeys(ps, pure)[j]])
  {
    var ks := PowerKeys(ps, pure);
    seq(|ks|, j requires 0 <= j < |ks| => PowerTokens(ks[j], ps[ks[j]]))
  }

  function ConjWords(conj: seq<Conj>, used: seq<nat>): (r: seq<seq<Token>>)
    requires |used| <= LetterLimit
    ensures |r| == |Kept(SortConj(conj), used)|
    ensures forall j :: 0 <= j < |r| ==> r[j] == ConjTokens(Kept(SortConj(conj), used)[j], used)
  {
    var ks := Kept(SortConj(conj), used);
    seq(|ks|, j requires 0 <= j < |ks| => ConjTokens(ks[j], used))
  }

  /** The relator list as words, built the way `Relators` builds the texts. */
  function RelatorWords(ps: seq<PowerRelation>, conj: seq<Conj>, used: seq<nat>): seq<seq<Token>>
    requires |ps| <= LetterLimit && |used| <= LetterLimit
  {
    Chain(PowerWords(ps, true))
      + PowerWords(ps, false)
      + ConjWords(conj, used)
  }

  /** The whole relator part, `', '.join(relators)`, as one word. */
  function RelatorTokens(ps: seq<PowerRelation>, conj: seq<Conj>, used: seq<nat>): seq<Token>
    requires |ps| <= LetterLimit && |used| <= LetterLimit
  {
    JoinTokens(RelatorWords(ps, conj, used), ", ")
  }

  /** Every right-hand side is a handled word over the first `n` generators. */
  predicate PowersOk(ps: seq<PowerRelation>, n: nat) {
    forall k :: 0 <= k < |ps| && ps[k].rhs.Some? ==> WordOk(ps[k].rhs.value, n)
  }

  predicate ConjsOk(conj: seq<Conj>, n: nat) {
    forall i :: 0 <= i < |conj| ==> WordOk(conj[i].image, n)
  }

  /** Every image GAP prints for the presentation is a handled word over
      the displayed generators. */
  predicate ImagesOk(powers: map<nat, PowerRelation>, conj: seq<Conj>, n: nat) {
    && (forall j :: j in powers && powers[j].rhs.Some? ==> WordOk(powers[j].rhs.value, n))
    && ConjsOk(conj, n)
  }

  /** A power relator's word prints as its text. */
  lemma PowerTokensText(k: nat, p: PowerRelation)
    requires k < LetterLimit
    ensures Render(PowerTokens(k, p)) == PowerText(k, p)
  {
    var head := [Chr(Letter(k)), Pow(p.exp)];
    var h := [Letter(k)] + "^" + IntToString(p.exp);
    PowerHeadText(k, p.exp);
    if p.rhs.Some? {
      var tail := [Text("=")] + p.rhs.value;
      RenderAppend(head, tail);
      RenderAppend([Text("=")], p.rhs.value);
      RenderOne(Text("="));
      assert Render(PowerTokens(k, p)) == h + ("=" + Render(p.rhs.value));
    } else {
      assert PowerTokens(k, p) == head;
    }
  }

  /** The letter and exponent of a power relator print as `x^e`. */
  lemma PowerHeadText(k: nat, e: int)
    requires k < LetterLimit
    ensures Render([Chr(Letter(k)), Pow(e)]) == [Letter(k)] + "^" + IntToString(e)
  {
    assert [Chr(Letter(k)), Pow(e)] == [Chr(Letter(k))] + [Pow(e)];
    RenderAppend([Chr(Letter(k))], [Pow(e)]);
    RenderOne(Chr(Letter(k)));
    RenderOne(Pow(e));
  }

  /** A power relator's word is handled by the clean-up when its image is. */
  lemma PowerTokensOk(k: nat, p: PowerRelation, n: nat)
    requires k < LetterLimit
    requires p.rhs.Some? ==> WordOk(p.rhs.value, n)
    ensures WordOk(PowerTokens(k, p), n)
  {
    var head := [Chr(Letter(k)), Pow(p.exp)];
    assert head[1..] == [Pow(p.exp)];
    assert WordOk(head, n);
    if p.rhs.Some? {
      var eq := [Text("=")];
      assert eq[1..] == [];
      assert WordOk(eq, n);
      WordAppend(eq, p.rhs.value, n);
      WordAppend(head, eq + p.rhs.value, n);
    } else {
      assert PowerTokens(k, p) == head;
    }
  }

  /** A conjugation relator's word prints as its text. */
  lemma ConjTokensText(c: Conj, used: seq<nat>)
    requires Shown(c, used) && |used| <= LetterLimit
    ensures Render(ConjTokens(c, used)) == ConjText(c, used)
  {
    RenderCaret(Letter(IndexOf(used, c.gen)), Letter(IndexOf(used, c.conjugator)), c.image);
  }

  /** A conjugation relator's word is handled by the clean-up when its
      image is. */
  lemma ConjTokensOk(c: Conj, used: seq<nat>, n: nat)
    requires Shown(c, used) && |used| <= LetterLimit
    requires WordOk(c.image, n)
    ensures WordOk(ConjTokens(c, used), n)
  {
    var x := Letter(IndexOf(used, c.gen));
    var y := Letter(IndexOf(used, c.conjugator));
    var head := [Chr(x), Caret(y), Text("=")];
    var eq := [Text("=")];
    assert eq[1..] == [] && WellFormed(eq);
    assert ([Caret(y)] + eq)[1..] == eq && WellFormed([Caret(y)] + eq);
    assert head[1..] == [Caret(y)] + eq;
    assert WordOk(head, n);
    WordAppend(head, c.image, n);
  }

  /** Printing the relator words gives the relator texts. */
  lemma RelatorWordsText(ps: seq<PowerRelation>, conj: seq<Conj>, used: seq<nat>)
    requires |ps| <= LetterLimit && |used| <= LetterLimit
    ensures Renders(RelatorWords(ps, conj, used)) == Relators(ps, conj, used)
  {
    var chain := Chain(PowerWords(ps, true));
    PowerWordsText(ps, false);
    ConjWordsText(conj, used);
    ChainText(ps);
    assert RelatorWords(ps, conj, used) == chain + PowerWords(ps, false) + ConjWords(conj, used);
    RendersAppend(chain, PowerWords(ps, false));
    RendersAppend(chain + PowerWords(ps, false), ConjWords(conj, used));
  }

  /** The pure powers chained into one relator, when there are any. */
  function Chain(pure: seq<seq<Token>>): (r: seq<seq<Token>>)
  {
    if pure == [] then [] else [JoinTokens(pure, "=") + [Text("=1")]]
  }

  lemma ChainText(ps: seq<PowerRelation>)
    requires |ps| <= LetterLimit
    ensures var pt := PowerTexts(ps, true);
      Renders(Chain(PowerWords(ps, true))) == if pt == [] then [] else [Join(pt, "=") + "=1"]
  {
    var pw := PowerWords(ps, true);
    PowerWordsText(ps, true);
    if pw != [] {
      RenderJoin(pw, "=");
      RenderAppend(JoinTokens(pw, "="), [Text("=1")]);
      RenderOne(Text("=1"));
    }
  }

  lemma ChainOk(pure: seq<seq<Token>>, n: nat)
    requires AllWordsOk(pure, n)
    ensures AllWordsOk(Chain(pure), n)
  {
    if pure != [] {
      WordJoin(pure, "=", n);
      var one := [Text("=1")];
      assert one[1..] == [];
      assert WordOk(one, n);
      WordAppend(JoinTokens(pure, "="), one, n);
      assert Chain(pure)[0] == JoinTokens(pure, "=") + one;
    }
  }

  lemma RendersAppend(a: seq<seq<Token>>, b: seq<seq<Token>>)
    ensures Renders(a + b) == Renders(a) + Renders(b)
  {
    assert forall i :: 0 <= i < |a + b| ==> (a + b)[i] == if i < |a| then a[i] else b[i - |a|];
  }

  lemma PowerWordsText(ps: seq<PowerRelation>, pure: bool)
    requires |ps| <= LetterLimit
    ensures Renders(PowerWords(ps, pure)) == PowerTexts(ps, pure)
  {
    var ks := PowerKeys(ps, pure);
    forall j | 0 <= j < |ks|
      ensures Render(PowerWords(ps, pure)[j]) == PowerTexts(ps, pure)[j]
    {
      PowerTokensText(ks[j], ps[ks[j]]);
    }
  }

  lemma ConjWordsText(conj: seq<Conj>, used: seq<nat>)
    requires |used| <= LetterLimit
    ensures Renders(ConjWords(conj, used)) == ConjTexts(conj, used)
  {
    var ks := Kept(SortConj(conj), used);
    forall j | 0 <= j < |ks|
      ensures Render(ConjWords(conj, used)[j]) == ConjTexts(conj, used)[j]
    {
      ConjTokensText(ks[j], used);
    }
  }

  /** The relator part is printed from the relator words. */
  lemma RelatorTokensText(ps: seq<PowerRelation>, conj: seq<Conj>, used: seq<nat>)
    requires |ps| <= LetterLimit && |used| <= LetterLimit
    ensures Render(RelatorTokens(ps, conj, used)) == Join(Relators(ps, conj, used), ", ")
  {
    RelatorWordsText(ps, conj, used);
    RenderJoin(RelatorWords(ps, conj, used), ", ");
  }

  /** When every image is a handled word over the first `n` generators,
      so is the whole relator part. */
  lemma RelatorTokensOk(ps: seq<PowerRelation>, conj: seq<Conj>, used: seq<nat>, n: nat)
    requires |ps| <= LetterLimit && |used| <= LetterLimit
    requires PowersOk(ps, n) && ConjsOk(conj, n)
    ensures WordOk(RelatorTokens(ps, conj, used), n)
  {
    RelatorWordsOk(ps, conj, used, n);
    WordJoin(RelatorWords(ps, conj, used), ", ", n);
  }

  lemma RelatorWordsOk(ps: seq<PowerRelation>, conj: seq<Conj>, used: seq<nat>, n: nat)
    requires |ps| <= LetterLimit && |used| <= LetterLimit
    requires PowersOk(ps, n) && ConjsOk(conj, n)
    ensures AllWordsOk(RelatorWords(ps, conj, used), n)
  {
    var pure := PowerWords(ps, true);
    var rel := PowerWords(ps, false);
    var cw := ConjWords(conj, used);
    PowerWordsOk(ps, true, n);
    ChainOk(pure, n);
    PowerWordsOk(ps, false, n);
    ConjWordsOk(conj, used, n);
    AllWordsAppend(Chain(pure), rel, n);
    AllWordsAppend(Chain(pure) + rel, cw, n);
  }

  lemma PowerWordsOk(ps: seq<PowerRelation>, pure: bool, n: nat)
    requires |ps| <= LetterLimit && PowersOk(ps, n)
    ensures AllWordsOk(PowerWords(ps, pure), n)
  {
    var ks := PowerKeys(ps, pure);
    forall j | 0 <= j < |ks|
      ensures WordOk(PowerWords(ps, pure)[j], n)
    {
      PowerTokensOk(ks[j], ps[ks[j]], n);
    }
  }

  lemma ConjWordsOk(conj: seq<Conj>, used: seq<nat>, n: nat)
    requires |used| <= LetterLimit && ConjsOk(conj, n)
    ensures AllWordsOk(ConjWords(conj, used), n)
  {
    var ks := Kept(SortConj(conj), used);
    forall j | 0 <= j < |ks|
      ensures WordOk(ConjWords(conj, used)[j], n)
    {
      assert ks[j] in SortConj(conj);
      assert ks[j] in multiset(conj);
      var i :| 0 <= i < |conj| && conj[i] == ks[j];
      ConjTokensOk(ks[j], used, n);
    }
  }

  /** The text of a pc presentation built from finished blocks. */
  function PcText(powers: map<nat, PowerRelation>, n: nat, used: seq<nat>, conj: seq<Conj>, ngens: nat, b: Blocks): string
    requires ngens <= LetterLimit && |used| <= LetterLimit
    requires Done(powers, n, used, b) && |b.exps| == ngens
  {
    EndsHavePowers(powers, n, used, b);
    var rels := Relators(BlockPowers(powers, b), conj, used);
    "\\langle " + GenList(ngens) + " \\mid " + Normalise(Join(rels, ", "), ngens) + " \\rangle"
  }

  /** Every closing generator's right-hand side is a handled word when
      every image is. */
  lemma BlockPowersOk(powers: map<nat, PowerRelation>, conj: seq<Conj>, b: Blocks, n: nat)
    requires |b.ends| == |b.exps|
    requires forall k :: 0 <= k < |b.ends| ==> b.ends[k] in powers
    requires ImagesOk(powers, conj, n)
    ensures PowersOk(BlockPowers(powers, b), n)
  {
    var ps := BlockPowers(powers, b);
    forall k | 0 <= k < |ps| && ps[k].rhs.Some?
      ensures WordOk(ps[k].rhs.value, n)
    {
      assert ps[k].rhs == powers[b.ends[k]].rhs;
    }
  }

  /** The relator part as the reader sees it: every generator written as
      its letter, exponents braced when negative or of two or more digits,
      and no stars. */
  function RelatorDisplay(ps: seq<PowerRelation>, conj: seq<Conj>, used: seq<nat>, n: nat): string
    requires n <= LetterLimit && |ps| <= LetterLimit && |used| <= LetterLimit
    requires PowersOk(ps, n) && ConjsOk(conj, n)
  {
    RelatorTokensOk(ps, conj, used, n);
    var ts := RelatorTokens(ps, conj, used);
    assert GensAtMost(ts, LetterLimit);
    Display(ts)
  }

  /** The string clean-up of the joined relator texts is the display of
      the relator words. */
  lemma RelatorsDisplay(ps: seq<PowerRelation>, conj: seq<Conj>, used: seq<nat>, n: nat)
    requires n <= LetterLimit && |ps| <= LetterLimit && |used| <= LetterLimit
    requires PowersOk(ps, n) && ConjsOk(conj, n)
    ensures Normalise(Join(Relators(ps, conj, used), ", "), n) == RelatorDisplay(ps, conj, used, n)
  {
    RelatorTokensText(ps, conj, used);
    RelatorTokensOk(ps, conj, used, n);
    NormaliseTokens(RelatorTokens(ps, conj, used), n);
  }

  /** What the reader sees of a pc presentation: the letters of the
      displayed generators, then the displayed relators. */
  function PcDisplay(powers: map<nat, PowerRelation>, n: nat, used: seq<nat>, conj: seq<Conj>, ngens: nat, b: Blocks): string
    requires ngens <= LetterLimit && |used| <= LetterLimit
    requires Done(powers, n, used, b) && |b.exps| == ngens
    requires ImagesOk(powers, conj, ngens)
  {
    EndsHavePowers(powers, n, used, b);
    BlockPowersOk(powers, conj, b, ngens);
    "\\langle " + GenList(ngens) + " \\mid " + RelatorDisplay(BlockPowers(powers, b), conj, used, ngens) + " \\rangle"
  }

  /** The string clean-up of `presentation` produces exactly the display
      of the relator words, provided GAP prints every image as a handled
      word over the displayed generators. */
  lemma PcTextDisplay(powers: map<nat, PowerRelation>, n: nat, used: seq<nat>, conj: seq<Conj>, ngens: nat, b: Blocks)
    requires ngens <= LetterLimit && |used| <= LetterLimit
    requires Done(powers, n, used, b) && |b.exps| == ngens
    requires ImagesOk(powers, conj, ngens)
    ensures PcText(powers, n, used, conj, ngens, b) == PcDisplay(powers, n, used, conj, ngens, b)
  {
    EndsHavePowers(powers, n, used, b);
    BlockPowersOk(powers, conj, b, ngens);
    RelatorsDisplay(BlockPowers(powers, b), conj, used, ngens);
  }

  /** `presentation`: for pc groups the generators and the cleaned-up
      relators, for permutation groups the generators alone (rendered
      elsewhere), and an error for every other representation. */
  method PresentationText(eltRepType: int, ngens: nat, n: nat, powers: map<nat, PowerRelation>,
                          used: seq<nat>, conj: seq<Conj>, permGens: seq<string>)
    returns (r: Result<string, PresentationError>)
    requires ngens <= LetterLimit && |used| <= LetterLimit
    ensures r == Err(NotImplemented) <==> eltRepType > 0
    ensures eltRepType < 0 ==> r == Ok("\\langle " + Join(permGens, ", ") + " \\rangle")
    ensures eltRepType == 0 ==> (r.Ok? <==> HasPowers(powers, 1, n) && |Ends(n, used, n)| == ngens)
    ensures eltRepType == 0 && r.Err? ==> (r.error.MissingPower? || r.error.GeneratorCount?)
    ensures eltRepType == 0 && r.Ok? ==>
      (exists b :: Done(powers, n, used, b) && |b.exps| == ngens && r.value == PcText(powers, n, used, conj, ngens, b))
    ensures eltRepType == 0 && r.Ok? && ImagesOk(powers, conj, ngens) ==>
      (exists b :: Done(powers, n, used, b) && |b.exps| == ngens && r.value == PcDisplay(powers, n, used, conj, ngens, b))
  {
    if eltRepType == 0 {
      var b :- ExponentBlocks(n, powers, used, ngens);
      if ImagesOk(powers, conj, ngens) {
        PcTextDisplay(powers, n, used, conj, ngens, b);
      }
      r := Ok(PcText(powers, n, used, conj, ngens, b));
    } else if eltRepType < 0 {
      r := Ok("\\langle " + Join(permGens, ", ") + " \\rangle");
    } else {
      r := Err(NotImplemented);
    }
  }
}
