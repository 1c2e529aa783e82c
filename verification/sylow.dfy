/** `sylow_subgroups`: one Sylow subgroup per prime of the group order,
    read from the subgroup records. The prime factorisation of the order is
    an input: pairs `(p, e)` with the primes ascending, as `factor` yields
    them. */
module Sylow {
  import opened Subgroups

  /** The dictionary `syl_dict`: each record with `sylow > 0` is stored
      under its prime, a later record overwriting an earlier one. */
  function SylowDict(subs: Collection): (d: map<nat, SubgroupRecord>)
    ensures forall p :: p in d ==> p > 0 && LastWith(subs, p, d[p])
    ensures forall i :: 0 <= i < |subs| && subs[i].sylow > 0 ==> subs[i].sylow in d
  {
    if subs == [] then map[]
    else
      var front := subs[..|subs| - 1];
      var x := subs[|subs| - 1];
      assert subs == front + [x];
      var d := SylowDict(front);
      forall p | p in d && p != x.sylow
        ensures LastWith(subs, p, d[p])
      {
        LastWithExtend(front, x, p, d[p]);
      }
      assert x.sylow > 0 ==> LastWith(subs, x.sylow, x) by {
        if x.sylow > 0 {
          var k := |subs| - 1;
          assert subs[k] == x;
        }
      }
      assert forall i :: 0 <= i < |front| ==> front[i] == subs[i];
      if x.sylow > 0 then d[x.sylow := x] else d
  }

  lemma LastWithExtend(front: Collection, x: SubgroupRecord, p: nat, s: SubgroupRecord)
    requires LastWith(front, p, s) && x.sylow != p
    ensures LastWith(front + [x], p, s)
  {
    var k :| 0 <= k < |front| && front[k] == s && s.sylow == p
      && forall j :: k < j < |front| ==> front[j].sylow != p;
    var subs := front + [x];
    assert subs[k] == s;
    assert forall j :: k < j < |subs| ==> subs[j].sylow != p;
  }

  /** `s` is the last record of `subs` whose `sylow` is `p`. */
  predicate LastWith(subs: Collection, p: nat, s: SubgroupRecord) {
    exists k :: 0 <= k < |subs| && subs[k] == s && s.sylow == p
      && forall j :: k < j < |subs| ==> subs[j].sylow != p
  }

  /** The primes of a factorisation, in its order. */
  function Primes(fact: seq<(nat, nat)>): (ps: seq<nat>)
    ensures |ps| == |fact|
    ensures forall i :: 0 <= i < |fact| ==> ps[i] == fact[i].0
  {
    if fact == [] then [] else [fact[0].0] + Primes(fact[1..])
  }

  predicate Ascending(ps: seq<nat>) {
    forall i, j :: 0 <= i < j < |ps| ==> ps[i] < ps[j]
  }

  /** One pair `(p, P)` of the result. */
  datatype SylowEntry = SylowEntry(prime: nat, sub: SubgroupRecord)

  /** The pairs `(p, P)`, in the order of the factorisation, for the primes
      `p` that some record names as its Sylow prime; `P` is the last such
      record. */
  function SylowSubgroups(subs: Collection, fact: seq<(nat, nat)>): (r: seq<SylowEntry>)
    ensures |r| <= |fact|
    ensures forall i :: 0 <= i < |r| ==> r[i].prime > 0 && r[i].prime in Primes(fact) && LastWith(subs, r[i].prime, r[i].sub)
    ensures forall i, j :: 0 <= i < |fact| && 0 <= j < |subs| && subs[j].sylow == fact[i].0 > 0 ==>
      exists k :: 0 <= k < |r| && r[k].prime == fact[i].0
  {
    var ps := Primes(fact);
    var r := Collect(SylowDict(subs), ps);
    assert forall i :: 0 <= i < |fact| ==> fact[i].0 == ps[i];
    r
  }

  /** The loop over the factorisation, keeping the primes the dictionary holds. */
  function Collect(d: map<nat, SubgroupRecord>, ps: seq<nat>): (r: seq<SylowEntry>)
    ensures |r| <= |ps|
    ensures forall i :: 0 <= i < |r| ==> r[i].prime in d && r[i].sub == d[r[i].prime] && r[i].prime in ps
    ensures forall i :: 0 <= i < |ps| && ps[i] in d ==> exists k :: 0 <= k < |r| && r[k].prime == ps[i]
  {
    if ps == [] then []
    else
      var front := ps[..|ps| - 1];
      var p := ps[|ps| - 1];
      var rest := Collect(d, front);
      assert forall i :: 0 <= i < |front| ==> front[i] == ps[i];
      var r := rest + (if p in d then [SylowEntry(p, d[p])] else []);
      assert forall i :: 0 <= i < |ps| && ps[i] in d ==> exists k :: 0 <= k < |r| && r[k].prime == ps[i] by {
        forall i | 0 <= i < |ps| && ps[i] in d
          ensures exists k :: 0 <= k < |r| && r[k].prime == ps[i]
        {
          if i < |front| {
            var k :| 0 <= k < |rest| && rest[k].prime == front[i];
            assert r[k] == rest[k];
          } else {
            assert r[|rest|].prime == p;
          }
        }
      }
      r
  }

  /** A listed prime has a record naming it: presence in the list is exactly
      presence of a record with that Sylow prime. */
  lemma SylowListed(subs: Collection, fact: seq<(nat, nat)>, p: nat)
    requires p in Primes(fact)
    ensures (exists k :: 0 <= k < |SylowSubgroups(subs, fact)| && SylowSubgroups(subs, fact)[k].prime == p)
      <==> p > 0 && exists j :: 0 <= j < |subs| && subs[j].sylow == p
  {
    var r := SylowSubgroups(subs, fact);
    if exists k :: 0 <= k < |r| && r[k].prime == p {
      var k :| 0 <= k < |r| && r[k].prime == p;
      assert LastWith(subs, p, r[k].sub);
    }
  }

  /** No prime appears twice, and the primes go up. */
  predicate EntriesAscending(r: seq<SylowEntry>) {
    forall i, j :: 0 <= i < j < |r| ==> r[i].prime < r[j].prime
  }

  /** With the primes ascending, the kept primes are strictly ascending, so
      none appears twice. */
  lemma {:induction false} CollectAscending(d: map<nat, SubgroupRecord>, ps: seq<nat>)
    requires Ascending(ps)
    ensures EntriesAscending(Collect(d, ps))
    decreases |ps|
  {
    if ps != [] {
      var front := ps[..|ps| - 1];
      var p := ps[|ps| - 1];
      assert Ascending(front);
      CollectAscending(d, front);
      var rest := Collect(d, front);
      var tail := if p in d then [SylowEntry(p, d[p])] else [];
      assert Collect(d, ps) == rest + tail;
      forall k | 0 <= k < |rest|
        ensures rest[k].prime < p
      {
        var m :| 0 <= m < |front| && front[m] == rest[k].prime;
        assert ps[m] == front[m];
      }
      AppendAscending(rest, tail, p);
    }
  }

  lemma AppendAscending(rest: seq<SylowEntry>, tail: seq<SylowEntry>, p: nat)
    requires EntriesAscending(rest)
    requires forall k :: 0 <= k < |rest| ==> rest[k].prime < p
    requires |tail| <= 1 && (tail != [] ==> tail[0].prime == p)
    ensures EntriesAscending(rest + tail)
  {
  }

  /** `sylow_subgroups` lists each prime at most once, ascending. */
  lemma SylowAscending(subs: Collection, fact: seq<(nat, nat)>)
    requires Ascending(Primes(fact))
    ensures EntriesAscending(SylowSubgroups(subs, fact))
  {
    assert SylowSubgroups(subs, fact) == Collect(SylowDict(subs), Primes(fact));
    CollectAscending(SylowDict(subs), Primes(fact));
  }

  /** A record with `sylow == 0` is never listed and changes nothing. */
  lemma IgnoresZero(subs: Collection, x: SubgroupRecord, fact: seq<(nat, nat)>)
    requires x.sylow == 0
    ensures SylowSubgroups(subs + [x], fact) == SylowSubgroups(subs, fact)
  {
    assert (subs + [x])[..|subs|] == subs;
  }

  /** A later record with the same prime replaces the earlier one. */
  lemma LastWins(subs: Collection, x: SubgroupRecord, fact: seq<(nat, nat)>)
    requires x.sylow > 0
    ensures forall i :: 0 <= i < |SylowSubgroups(subs + [x], fact)| && SylowSubgroups(subs + [x], fact)[i].prime == x.sylow ==>
      SylowSubgroups(subs + [x], fact)[i].sub == x
  {
    assert (subs + [x])[..|subs|] == subs;
  }
}
