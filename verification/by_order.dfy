/** `subgroup_layer_by_order`: the subgroups grouped by order, smallest
    order first, each group in iteration order, with one edge from every
    listed minimal overgroup to the subgroup. */
module ByOrder {
  import opened Subgroups
  import opened Lattice
  import opened Seqs

  predicate Increasing(os: seq<nat>) {
    forall i, j :: 0 <= i < j < |os| ==> os[i] < os[j]
  }

  /** Adds `x` to the increasing `t` unless it is already there. */
  function InsertOrder(t: seq<nat>, x: nat): (r: seq<nat>)
    requires Increasing(t)
    ensures Increasing(r)
    ensures forall y :: y in r <==> y in t || y == x
    decreases |t|
  {
    if t == [] then [x]
    else if x < t[0] then [x] + t
    else if x == t[0] then t
    else
      var rest := InsertOrder(t[1..], x);
      forall y | y in rest
        ensures y > t[0]
      {
        if y != x {
          var j :| 0 <= j < |t[1..]| && t[1..][j] == y;
          assert t[j + 1] == y;
        }
      }
      ConsIncreasing(t[0], rest);
      assert t == [t[0]] + t[1..];
      [t[0]] + rest
  }

  lemma ConsIncreasing(h: nat, rest: seq<nat>)
    requires Increasing(rest)
    requires forall y :: y in rest ==> y > h
    ensures Increasing([h] + rest)
  {
    forall i, j | 0 <= i < j < |[h] + rest|
      ensures ([h] + rest)[i] < ([h] + rest)[j]
    {
      assert ([h] + rest)[j] == rest[j - 1];
      if i > 0 {
        assert ([h] + rest)[i] == rest[i - 1];
      } else {
        assert rest[j - 1] in rest;
      }
    }
  }

  predicate HasOrder(subs: Collection, o: nat) {
    exists i :: 0 <= i < |subs| && subs[i].subgroupOrder == o
  }

  /** `sorted(set(sub.subgroup_order for sub in subs))`: the orders that
      occur, each once, ascending. */
  function SortedOrders(subs: Collection): (os: seq<nat>)
    ensures Increasing(os)
    ensures forall o :: o in os <==> HasOrder(subs, o)
  {
    if subs == [] then []
    else
      var front := subs[..|subs| - 1];
      assert forall i :: 0 <= i < |front| ==> front[i] == subs[i];
      InsertOrder(SortedOrders(front), subs[|subs| - 1].subgroupOrder)
  }

  /** `layers[o]` once the loop is done: the records of order `o`, in
      iteration order. */
  function OfOrder(subs: Collection, o: nat): (r: Collection)
    ensures forall x :: x in r ==> x in subs && x.subgroupOrder == o
    ensures forall i :: 0 <= i < |subs| && subs[i].subgroupOrder == o ==> subs[i] in r
    ensures |r| <= |subs|
  {
    if subs == [] then []
    else
      var front := subs[..|subs| - 1];
      var last := subs[|subs| - 1];
      assert forall i :: 0 <= i < |front| ==> front[i] == subs[i];
      OfOrder(front, o) + (if last.subgroupOrder == o then [last] else [])
  }

  /** The edges `[k, sub.label]` for `k` in `sub.contained_in`, for each
      record in iteration order. */
  function OverEdges(subs: Collection): (es: seq<Edge>)
    ensures forall e :: e in es ==> exists i, m :: (0 <= i < |subs| && 0 <= m < |subs[i].containedIn|
      && e == Edge(subs[i].containedIn[m], subs[i].name))
    ensures forall i, m :: 0 <= i < |subs| && 0 <= m < |subs[i].containedIn| ==> Edge(subs[i].containedIn[m], subs[i].name) in es
  {
    if subs == [] then []
    else
      var g := subs[|subs| - 1];
      var front := subs[..|subs| - 1];
      var es := OverEdges(front) + EdgesAbove(g);
      assert forall i :: 0 <= i < |front| ==> front[i] == subs[i];
      es
  }

  /** The test of the comprehension behind `layers[o]`. */
  function OfOrderTest(o: nat): SubgroupRecord -> bool {
    (x: SubgroupRecord) => x.subgroupOrder == o
  }

  /** `layers[o]` is the records of order `o` in iteration order, each
      occurrence kept: the filter of the collection by that order. */
  lemma {:induction false} OfOrderFilter(subs: Collection, o: nat)
    ensures OfOrder(subs, o) == Filter(subs, OfOrderTest(o))
    decreases |subs|
  {
    if subs != [] {
      var front := subs[..|subs| - 1];
      OfOrderFilter(front, o);
      Snoc(subs);
      FilterSnoc(front, subs[|subs| - 1], OfOrderTest(o));
    }
  }

  /** Each record's edges `[k, sub.label]`, one list per record in
      iteration order. */
  function AbovePerRecord(subs: Collection): (r: seq<seq<Edge>>)
    ensures |r| == |subs|
    ensures forall i :: 0 <= i < |subs| ==> r[i] == EdgesAbove(subs[i])
  {
    seq(|subs|, i requires 0 <= i < |subs| => EdgesAbove(subs[i]))
  }

  /** The edge list appends one edge per minimal overgroup, record after
      record: exactly the per-record lists concatenated. */
  lemma {:induction false} OverEdgesPerRecord(subs: Collection)
    ensures OverEdges(subs) == Flatten(AbovePerRecord(subs))
    decreases |subs|
  {
    if subs != [] {
      var front := subs[..|subs| - 1];
      OverEdgesPerRecord(front);
      var ps := AbovePerRecord(subs);
      assert ps[..|ps| - 1] == AbovePerRecord(front);
    }
  }

  function EdgesAbove(g: SubgroupRecord): (es: seq<Edge>)
    ensures |es| == |g.containedIn|
    ensures forall m :: 0 <= m < |es| ==> es[m] == Edge(g.containedIn[m], g.name)
  {
    seq(|g.containedIn|, m requires 0 <= m < |g.containedIn| => Edge(g.containedIn[m], g.name))
  }

  /** `[layers[k] for k in os]`. */
  function Layers(subs: Collection, os: seq<nat>): (ls: seq<Collection>)
    ensures |ls| == |os|
    ensures forall k :: 0 <= k < |os| ==> ls[k] == OfOrder(subs, os[k])
  {
    if os == [] then [] else Layers(subs, os[..|os| - 1]) + [OfOrder(subs, os[|os| - 1])]
  }

  /** The total size of a list of layers. */
  function Size(layers: seq<Collection>): nat {
    if layers == [] then 0 else Size(layers[..|layers| - 1]) + |layers[|layers| - 1]|
  }

  /** The loop over the records: every key of the dictionary starts as an
      empty list, each record is appended to the list of its order, and
      its upward edges are appended to the edge list; then the lists are
      read out in ascending key order. */
  method SubgroupLayerByOrder(subs: Collection) returns (layers: seq<Collection>, edges: seq<Edge>)
    ensures layers == Layers(subs, SortedOrders(subs))
    ensures edges == OverEdges(subs)
  {
    var os := SortedOrders(subs);
    var byOrder;
    byOrder, edges := GroupByOrder(subs, os);
    layers := ReadLayers(subs, os, byOrder);
  }

  /** The loop over the records, filling the dictionary and the edge list. */
  method GroupByOrder(subs: Collection, os: seq<nat>) returns (byOrder: map<nat, Collection>, edges: seq<Edge>)
    requires forall o :: o in os <==> HasOrder(subs, o)
    ensures Grouped(byOrder, os, subs)
    ensures edges == OverEdges(subs)
  {
    byOrder := map o | o in os :: [];
    edges := [];
    var i := 0;
    assert subs[..0] == [];
    while i < |subs|
      invariant 0 <= i <= |subs|
      invariant Grouped(byOrder, os, subs[..i])
      invariant edges == OverEdges(subs[..i])
    {
      var sub := subs[i];
      var done := subs[..i];
      assert subs[..i + 1] == done + [sub];
      assert HasOrder(subs, sub.subgroupOrder);
      GroupedStep(byOrder, os, done, sub);
      byOrder := byOrder[sub.subgroupOrder := byOrder[sub.subgroupOrder] + [sub]];
      OverEdgesSnoc(done, sub);
      edges := AppendAbove(edges, sub);
      i := i + 1;
    }
    assert subs[..i] == subs;
  }

  /** `[layers[k] for k in os]` as a loop. */
  method ReadLayers(subs: Collection, os: seq<nat>, byOrder: map<nat, Collection>) returns (layers: seq<Collection>)
    requires Grouped(byOrder, os, subs)
    ensures layers == Layers(subs, os)
  {
    layers := [];
    var k := 0;
    while k < |os|
      invariant 0 <= k <= |os|
      invariant layers == Layers(subs, os[..k])
    {
      assert os[..k + 1] == os[..k] + [os[k]];
      LayersSnoc(subs, os[..k], os[k]);
      layers := layers + [byOrder[os[k]]];
      k := k + 1;
    }
    assert os[..k] == os;
  }

  /** The dictionary of the first loop after the records `done`: one
      entry per order, holding the records of that order so far. */
  ghost predicate Grouped(byOrder: map<nat, Collection>, os: seq<nat>, done: Collection) {
    (forall o :: o in byOrder <==> o in os)
    && (forall o :: o in byOrder ==> byOrder[o] == OfOrder(done, o))
  }

  lemma GroupedStep(byOrder: map<nat, Collection>, os: seq<nat>, done: Collection, sub: SubgroupRecord)
    requires Grouped(byOrder, os, done) && sub.subgroupOrder in os
    ensures Grouped(byOrder[sub.subgroupOrder := byOrder[sub.subgroupOrder] + [sub]], os, done + [sub])
  {
    var after := byOrder[sub.subgroupOrder := byOrder[sub.subgroupOrder] + [sub]];
    forall o | o in after
      ensures after[o] == OfOrder(done + [sub], o)
    {
      OfOrderSnoc(done, sub, o);
    }
  }

  lemma OfOrderSnoc(front: Collection, x: SubgroupRecord, o: nat)
    ensures OfOrder(front + [x], o) == OfOrder(front, o) + (if x.subgroupOrder == o then [x] else [])
  {
    assert (front + [x])[..|front|] == front;
  }

  lemma OverEdgesSnoc(front: Collection, x: SubgroupRecord)
    ensures OverEdges(front + [x]) == OverEdges(front) + EdgesAbove(x)
  {
    assert (front + [x])[..|front|] == front;
  }

  lemma LayersSnoc(subs: Collection, os: seq<nat>, o: nat)
    ensures Layers(subs, os + [o]) == Layers(subs, os) + [OfOrder(subs, o)]
  {
    assert (os + [o])[..|os|] == os;
  }

  /** The inner loop `for k in sub.contained_in: edges.append([k, sub.label])`. */
  method AppendAbove(edges: seq<Edge>, sub: SubgroupRecord) returns (r: seq<Edge>)
    ensures r == edges + EdgesAbove(sub)
    ensures |r| == |edges| + |sub.containedIn|
    ensures forall m :: 0 <= m < |sub.containedIn| ==> r[|edges| + m] == Edge(sub.containedIn[m], sub.name)
  {
    r := edges;
    var m := 0;
    while m < |sub.containedIn|
      invariant 0 <= m <= |sub.containedIn|
      invariant |r| == |edges| + m
      invariant r[..|edges|] == edges
      invariant forall n :: 0 <= n < m ==> r[|edges| + n] == Edge(sub.containedIn[n], sub.name)
    {
      r := r + [Edge(sub.containedIn[m], sub.name)];
      m := m + 1;
    }
    assert r == edges + EdgesAbove(sub);
  }

  /** The layers of `subgroup_layer_by_order` are nonempty, in strictly
      ascending order of subgroup order, and every record lands in one of
      them. */
  lemma {:induction false} ByOrderLayers(subs: Collection)
    ensures var ls := Layers(subs, SortedOrders(subs));
      && (forall k :: 0 <= k < |ls| ==> |ls[k]| > 0)
      && (forall k, k', x, y :: 0 <= k < k' < |ls| && x in ls[k] && y in ls[k'] ==> x.subgroupOrder < y.subgroupOrder)
      && (forall i :: 0 <= i < |subs| ==> exists k :: 0 <= k < |ls| && subs[i] in ls[k])
  {
    var os := SortedOrders(subs);
    var ls := Layers(subs, os);
    forall k | 0 <= k < |ls|
      ensures |ls[k]| > 0
    {
      assert HasOrder(subs, os[k]);
      var j :| 0 <= j < |subs| && subs[j].subgroupOrder == os[k];
      assert subs[j] in ls[k];
    }
    forall i | 0 <= i < |subs|
      ensures exists k :: 0 <= k < |ls| && subs[i] in ls[k]
    {
      assert HasOrder(subs, subs[i].subgroupOrder);
      var k :| 0 <= k < |os| && os[k] == subs[i].subgroupOrder;
      assert subs[i] in ls[k];
    }
  }

  /** Every record lands in exactly one layer: the layers over increasing
      orders that cover every record are together as long as the collection. */
  lemma {:induction false} LayersPartition(subs: Collection, os: seq<nat>)
    requires Increasing(os)
    requires forall i :: 0 <= i < |subs| ==> subs[i].subgroupOrder in os
    ensures Size(Layers(subs, os)) == |subs|
    decreases |subs|
  {
    if subs == [] {
      SizeNone(os);
    } else {
      var front := subs[..|subs| - 1];
      var x := subs[|subs| - 1];
      assert subs == front + [x];
      assert forall i :: 0 <= i < |front| ==> front[i] == subs[i];
      LayersPartition(front, os);
      SizeSnoc(front, x, os);
    }
  }

  lemma {:induction false} SizeNone(os: seq<nat>)
    ensures Size(Layers([], os)) == 0
    decreases |os|
  {
    if os != [] {
      var p := os[..|os| - 1];
      SizeNone(p);
      assert Layers([], os)[..|os| - 1] == Layers([], p);
    }
  }

  /** Adding one record whose order occurs once in `os` grows the layers by one. */
  lemma {:induction false} SizeSnoc(front: Collection, x: SubgroupRecord, os: seq<nat>)
    requires Increasing(os)
    requires x.subgroupOrder in os
    ensures Size(Layers(front + [x], os)) == Size(Layers(front, os)) + 1
    decreases |os|
  {
    var subs := front + [x];
    assert subs[..|subs| - 1] == front;
    var p := os[..|os| - 1];
    var a := Layers(subs, os);
    var b := Layers(front, os);
    assert a[..|a| - 1] == Layers(subs, p);
    assert b[..|b| - 1] == Layers(front, p);
    if os[|os| - 1] == x.subgroupOrder {
      assert x.subgroupOrder !in p;
      SizeUnchanged(front, x, p);
    } else {
      assert x.subgroupOrder in p;
      SizeSnoc(front, x, p);
    }
  }

  /** Adding a record whose order is not among `os` leaves their layers alone. */
  lemma {:induction false} SizeUnchanged(front: Collection, x: SubgroupRecord, os: seq<nat>)
    requires x.subgroupOrder !in os
    ensures Size(Layers(front + [x], os)) == Size(Layers(front, os))
    decreases |os|
  {
    var subs := front + [x];
    assert subs[..|subs| - 1] == front;
    if os != [] {
      var p := os[..|os| - 1];
      var a := Layers(subs, os);
      var b := Layers(front, os);
      assert a[..|a| - 1] == Layers(subs, p);
      assert b[..|b| - 1] == Layers(front, p);
      SizeUnchanged(front, x, p);
    }
  }

  /** The layers of `subgroup_layer_by_order` hold every record exactly once. */
  lemma {:induction false} ByOrderPartition(subs: Collection)
    ensures Size(Layers(subs, SortedOrders(subs))) == |subs|
  {
    var os := SortedOrders(subs);
    forall i | 0 <= i < |subs|
      ensures subs[i].subgroupOrder in os
    {
      assert HasOrder(subs, subs[i].subgroupOrder);
    }
    LayersPartition(subs, os);
  }
}
