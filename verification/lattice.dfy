/** The subgroup lattice as drawn on a group's page: breadth-first layers
    from the whole group down through the `contains` lists
    (`subgroup_layers`) and the inclusion edges between them. */
module Lattice {
  import opened Wrappers
  import opened Seqs
  import opened Subgroups

  datatype LayerError =
    | NoSubgroups               // `max` of an empty sequence
    | UnknownLabel(missing: Label)  // `subs[new]` raising KeyError

  /** A two-element list `[first, second]` of labels. */
  datatype Edge = Edge(first: Label, second: Label)

  // ---- one breadth-first pass ----

  /** `found` are new records of `subs`, pairwise distinct, none already
      seen, and `seen'` is `seen` with their labels added. */
  ghost predicate Fresh(subs: Collection, seen: set<Label>, found: Collection, seen': set<Label>) {
    && NoDup(LabelsOf(found))
    && (forall i :: 0 <= i < |found| ==> found[i] in subs && found[i].name !in seen)
    && (forall l :: l in seen' <==> l in seen || l in LabelsOf(found))
  }

  /** The inner loop over `H.contains`: every label not seen yet is marked
      seen and its record collected, in list order. */
  function Discover(cs: seq<Label>, subs: Collection, seen: set<Label>): (r: Result<(Collection, set<Label>), LayerError>)
    ensures r.Ok? ==> Fresh(subs, seen, r.value.0, r.value.1)
    ensures r.Ok? ==> forall i :: 0 <= i < |r.value.0| ==> r.value.0[i].name in cs
    ensures r.Ok? ==> forall i :: 0 <= i < |cs| ==> cs[i] in r.value.1
    ensures r.Err? ==> r.error.UnknownLabel? && r.error.missing in cs && !HasLabel(subs, r.error.missing)
    ensures (forall i :: 0 <= i < |cs| ==> HasLabel(subs, cs[i])) ==> r.Ok?
    decreases |cs|
  {
    if cs == [] then Ok(([], seen))
    else if cs[0] in seen then
      var r := Discover(cs[1..], subs, seen);
      assert forall i :: 1 <= i < |cs| ==> cs[i] == cs[1..][i - 1];
      r
    else
      match Lookup(subs, cs[0])
      case None => Err(UnknownLabel(cs[0]))
      case Some(h) =>
        var rest := Discover(cs[1..], subs, seen + {cs[0]});
        assert forall i :: 1 <= i < |cs| ==> cs[i] == cs[1..][i - 1];
        if rest.Err? then Err(rest.error)
        else
          FreshCons(subs, seen, h, rest.value.0, rest.value.1);
          Ok(([h] + rest.value.0, rest.value.1))
  }

  /** A new record put in front of a fresh batch keeps the batch fresh. */
  lemma FreshCons(subs: Collection, seen: set<Label>, h: SubgroupRecord, found: Collection, seen': set<Label>)
    requires h in subs && h.name !in seen
    requires Fresh(subs, seen + {h.name}, found, seen')
    ensures Fresh(subs, seen, [h] + found, seen')
  {
    var all := [h] + found;
    assert LabelsOf(all) == [h.name] + LabelsOf(found);
    assert h.name !in LabelsOf(found);
    forall i | 0 <= i < |all|
      ensures all[i] in subs && all[i].name !in seen
    {
      if i > 0 {
        assert all[i] == found[i - 1];
      }
    }
  }

  /** The records in `prev` whose `contains` lists name `l`. */
  predicate ListedBy(prev: Collection, l: Label) {
    exists j :: 0 <= j < |prev| && l in prev[j].contains
  }

  /** One pass of the outer loop: `Discover` over the `contains` of each
      record of the previous layer, in order, sharing one `seen` set. */
  function NextLayer(prev: Collection, subs: Collection, seen: set<Label>): (r: Result<(Collection, set<Label>), LayerError>)
    ensures r.Ok? ==> Fresh(subs, seen, r.value.0, r.value.1)
    ensures r.Ok? ==> forall i :: 0 <= i < |r.value.0| ==> ListedBy(prev, r.value.0[i].name)
    ensures r.Ok? ==> forall j, m :: 0 <= j < |prev| && 0 <= m < |prev[j].contains| ==> prev[j].contains[m] in r.value.1
    ensures r.Err? ==> r.error.UnknownLabel? && ListedBy(prev, r.error.missing) && !HasLabel(subs, r.error.missing)
    ensures (forall j, m :: 0 <= j < |prev| && 0 <= m < |prev[j].contains| ==> HasLabel(subs, prev[j].contains[m])) ==> r.Ok?
    decreases |prev|
  {
    if prev == [] then Ok(([], seen))
    else
      var d := Discover(prev[0].contains, subs, seen);
      HeadAndTail(prev, subs);
      if d.Err? then
        ListedHead(prev, d.error.missing);
        Err(d.error)
      else
        var rest := NextLayer(prev[1..], subs, d.value.1);
        if rest.Err? then
          ListedTail(prev, rest.error.missing);
          Err(rest.error)
        else
          var found := d.value.0 + rest.value.0;
          FreshCompose(subs, seen, d.value.0, d.value.1, rest.value.0, rest.value.1);
          ListedCompose(prev, d.value.0, rest.value.0);
          SeenCompose(prev, d.value.1, rest.value.1);
          Ok((found, rest.value.1))
  }

  lemma ListedHead(prev: Collection, l: Label)
    requires |prev| > 0 && l in prev[0].contains
    ensures ListedBy(prev, l)
  {
  }

  lemma ListedTail(prev: Collection, l: Label)
    requires |prev| > 0 && ListedBy(prev[1..], l)
    ensures ListedBy(prev, l)
  {
    var j :| 0 <= j < |prev[1..]| && l in prev[1..][j].contains;
    assert prev[j + 1] == prev[1..][j];
  }

  /** The labels found by the pass over the first record and by the passes
      over the others are all listed by the previous layer. */
  lemma ListedCompose(prev: Collection, f1: Collection, f2: Collection)
    requires |prev| > 0
    requires forall i :: 0 <= i < |f1| ==> f1[i].name in prev[0].contains
    requires forall i :: 0 <= i < |f2| ==> ListedBy(prev[1..], f2[i].name)
    ensures forall i :: 0 <= i < |f1 + f2| ==> ListedBy(prev, (f1 + f2)[i].name)
  {
    forall i | 0 <= i < |f1 + f2|
      ensures ListedBy(prev, (f1 + f2)[i].name)
    {
      if i < |f1| {
        assert (f1 + f2)[i] == f1[i];
        ListedHead(prev, f1[i].name);
      } else {
        assert (f1 + f2)[i] == f2[i - |f1|];
        ListedTail(prev, f2[i - |f1|].name);
      }
    }
  }

  /** Labels seen after the first record stay seen. */
  lemma SeenCompose(prev: Collection, s1: set<Label>, s2: set<Label>)
    requires |prev| > 0 && s1 <= s2
    requires forall m :: 0 <= m < |prev[0].contains| ==> prev[0].contains[m] in s1
    requires forall j, m :: 0 <= j < |prev[1..]| && 0 <= m < |prev[1..][j].contains| ==> prev[1..][j].contains[m] in s2
    ensures forall j, m :: 0 <= j < |prev| && 0 <= m < |prev[j].contains| ==> prev[j].contains[m] in s2
  {
    forall j, m | 0 <= j < |prev| && 0 <= m < |prev[j].contains|
      ensures prev[j].contains[m] in s2
    {
      if j > 0 {
        assert prev[j] == prev[1..][j - 1];
      }
    }
  }

  /** A condition on every `contains` entry of `prev` holds for the first
      record and for the rest. */
  lemma HeadAndTail(prev: Collection, subs: Collection)
    requires |prev| > 0
    ensures (forall j, m :: 0 <= j < |prev| && 0 <= m < |prev[j].contains| ==> HasLabel(subs, prev[j].contains[m])) ==>
      (forall m :: 0 <= m < |prev[0].contains| ==> HasLabel(subs, prev[0].contains[m]))
      && (forall j, m :: 0 <= j < |prev[1..]| && 0 <= m < |prev[1..][j].contains| ==> HasLabel(subs, prev[1..][j].contains[m]))
  {
    assert forall j :: 0 <= j < |prev[1..]| ==> prev[1..][j] == prev[j + 1];
  }

  /** Two passes in a row discover what their concatenation does. */
  lemma FreshCompose(subs: Collection, seen: set<Label>, f1: Collection, s1: set<Label>, f2: Collection, s2: set<Label>)
    requires Fresh(subs, seen, f1, s1) && Fresh(subs, s1, f2, s2)
    ensures Fresh(subs, seen, f1 + f2, s2)
  {
    LabelsOfAppend(f1, f2);
    NoDupAppend(LabelsOf(f1), LabelsOf(f2));
    assert forall i :: 0 <= i < |f1 + f2| ==> (f1 + f2)[i] in subs && (f1 + f2)[i].name !in seen by {
      forall i | 0 <= i < |f1 + f2|
        ensures (f1 + f2)[i] in subs && (f1 + f2)[i].name !in seen
      {
        if i >= |f1| {
          assert (f1 + f2)[i] == f2[i - |f1|];
        }
      }
    }
  }

  lemma LabelsOfAppend(a: Collection, b: Collection)
    ensures LabelsOf(a + b) == LabelsOf(a) + LabelsOf(b)
  {
    var l, r := LabelsOf(a + b), LabelsOf(a) + LabelsOf(b);
    assert |l| == |r|;
    forall i | 0 <= i < |l|
      ensures l[i] == r[i]
    {
      if i < |a| {
        assert (a + b)[i] == a[i];
      } else {
        assert (a + b)[i] == b[i - |a|];
      }
    }
  }

  lemma NoDupAppend<T>(a: seq<T>, b: seq<T>)
    requires NoDup(a) && NoDup(b)
    requires forall i :: 0 <= i < |b| ==> b[i] !in a
    ensures NoDup(a + b)
  {
    forall i, j | 0 <= i < j < |a + b|
      ensures (a + b)[i] != (a + b)[j]
    {
      if i < |a| && j >= |a| {
        assert (a + b)[j] == b[j - |a|];
      }
    }
  }

  // ---- the order of a pass ----

  /** `ls` lists every label of `cs` that is not in `seen`, each once, in
      the order of their first occurrences in `cs`. */
  ghost predicate FirstUnseen(cs: seq<Label>, seen: set<Label>, ls: seq<Label>) {
    && NoDup(ls)
    && (forall l :: l in ls <==> l in cs && l !in seen)
    && (forall a, b :: 0 <= a < b < |ls| && ls[a] in cs && ls[b] in cs ==> IndexOf(cs, ls[a]) < IndexOf(cs, ls[b]))
  }

  lemma IndexOfTail(cs: seq<Label>, l: Label)
    requires l in cs && l != cs[0]
    ensures l in cs[1..] && IndexOf(cs, l) == 1 + IndexOf(cs[1..], l)
  {
    var i := IndexOf(cs, l);
    assert cs[1..][i - 1] == l;
  }

  /** The labels of `cs` not in `seen`, each once, in the order of their
      first occurrences. */
  function Unseen(cs: seq<Label>, seen: set<Label>): seq<Label>
    decreases |cs|
  {
    if cs == [] then []
    else if cs[0] in seen then Unseen(cs[1..], seen)
    else [cs[0]] + Unseen(cs[1..], seen + {cs[0]})
  }

  /** `Unseen` meets the declarative description `FirstUnseen`. */
  lemma {:induction false} UnseenFirst(cs: seq<Label>, seen: set<Label>)
    ensures FirstUnseen(cs, seen, Unseen(cs, seen))
    decreases |cs|
  {
    if cs != [] {
      if cs[0] in seen {
        UnseenFirst(cs[1..], seen);
        SkipSeen(cs, seen, Unseen(cs, seen));
      } else {
        UnseenFirst(cs[1..], seen + {cs[0]});
        TakeUnseen(cs, seen, Unseen(cs[1..], seen + {cs[0]}));
      }
    }
  }

  /** The inner loop collects the records of exactly the labels `Unseen`
      lists. */
  lemma {:induction false} DiscoverUnseen(cs: seq<Label>, subs: Collection, seen: set<Label>)
    ensures Discover(cs, subs, seen).Ok? ==> LabelsOf(Discover(cs, subs, seen).value.0) == Unseen(cs, seen)
    decreases |cs|
  {
    var r := Discover(cs, subs, seen);
    if cs != [] && r.Ok? {
      if cs[0] in seen {
        DiscoverUnseen(cs[1..], subs, seen);
      } else {
        var rest := Discover(cs[1..], subs, seen + {cs[0]});
        DiscoverUnseen(cs[1..], subs, seen + {cs[0]});
        assert LabelsOf(r.value.0) == [cs[0]] + LabelsOf(rest.value.0);
      }
    }
  }

  /** The inner loop collects the records of the unseen labels of
      `H.contains`, in the order in which the labels first occur there. */
  lemma DiscoverOrder(cs: seq<Label>, subs: Collection, seen: set<Label>)
    ensures Discover(cs, subs, seen).Ok? ==> FirstUnseen(cs, seen, LabelsOf(Discover(cs, subs, seen).value.0))
  {
    DiscoverUnseen(cs, subs, seen);
    UnseenFirst(cs, seen);
  }

  /** A seen label at the front changes nothing. */
  lemma SkipSeen(cs: seq<Label>, seen: set<Label>, ls: seq<Label>)
    requires cs != [] && cs[0] in seen
    requires FirstUnseen(cs[1..], seen, ls)
    ensures FirstUnseen(cs, seen, ls)
  {
    assert forall l :: l in cs <==> l == cs[0] || l in cs[1..];
    forall a, b | 0 <= a < b < |ls| && ls[a] in cs && ls[b] in cs
      ensures IndexOf(cs, ls[a]) < IndexOf(cs, ls[b])
    {
      IndexOfTail(cs, ls[a]);
      IndexOfTail(cs, ls[b]);
    }
  }

  /** An unseen label at the front comes first. */
  lemma TakeUnseen(cs: seq<Label>, seen: set<Label>, tl: seq<Label>)
    requires cs != [] && cs[0] !in seen
    requires FirstUnseen(cs[1..], seen + {cs[0]}, tl)
    ensures FirstUnseen(cs, seen, [cs[0]] + tl)
  {
    var ls := [cs[0]] + tl;
    assert forall l :: l in cs <==> l == cs[0] || l in cs[1..];
    assert forall l :: l in ls <==> l == cs[0] || l in tl;
    TakeDistinct(cs[0], tl);
    TakeOrdered(cs, tl);
  }

  /** A label put in front of a duplicate-free list it is not in keeps the
      list duplicate-free. */
  lemma TakeDistinct(x: Label, tl: seq<Label>)
    requires NoDup(tl) && x !in tl
    ensures NoDup([x] + tl)
  {
    var ls := [x] + tl;
    forall a, b | 0 <= a < b < |ls|
      ensures ls[a] != ls[b]
    {
      assert ls[b] == tl[b - 1];
      if a > 0 {
        assert ls[a] == tl[a - 1];
      }
    }
  }

  /** Labels in first-occurrence order in the tail of `cs`, put after its
      head, are in first-occurrence order in `cs`. */
  lemma TakeOrdered(cs: seq<Label>, tl: seq<Label>)
    requires cs != [] && cs[0] !in tl
    requires forall a, b :: 0 <= a < b < |tl| && tl[a] in cs[1..] && tl[b] in cs[1..] ==> IndexOf(cs[1..], tl[a]) < IndexOf(cs[1..], tl[b])
    ensures var ls := [cs[0]] + tl;
            forall a, b :: 0 <= a < b < |ls| && ls[a] in cs && ls[b] in cs ==> IndexOf(cs, ls[a]) < IndexOf(cs, ls[b])
  {
    var ls := [cs[0]] + tl;
    forall a, b | 0 <= a < b < |ls| && ls[a] in cs && ls[b] in cs
      ensures IndexOf(cs, ls[a]) < IndexOf(cs, ls[b])
    {
      assert ls[b] == tl[b - 1] && ls[b] != cs[0];
      IndexOfTail(cs, ls[b]);
      if a > 0 {
        assert ls[a] == tl[a - 1] && ls[a] != cs[0];
        IndexOfTail(cs, ls[a]);
      }
    }
  }

  /** Every label listed by the records of a layer, in order. */
  function Listed(prev: Collection): (ls: seq<Label>)
    ensures forall l :: l in ls <==> ListedBy(prev, l)
  {
    if prev == [] then []
    else
      var rest := Listed(prev[1..]);
      assert forall l :: ListedBy(prev, l) <==> l in prev[0].contains || ListedBy(prev[1..], l) by {
        forall l | ListedBy(prev, l) && l !in prev[0].contains
          ensures ListedBy(prev[1..], l)
        {
          var j :| 0 <= j < |prev| && l in prev[j].contains;
          assert prev[1..][j - 1] == prev[j];
        }
        forall l | ListedBy(prev[1..], l)
          ensures ListedBy(prev, l)
        {
          ListedTail(prev, l);
        }
      }
      prev[0].contains + rest
  }

  /** Running the inner loop on `b` after it has run on `a`. */
  function Continue(d: Result<(Collection, set<Label>), LayerError>, b: seq<Label>, subs: Collection): Result<(Collection, set<Label>), LayerError>
  {
    match d
    case Err(e) => Err(e)
    case Ok((found, seen)) =>
      match Discover(b, subs, seen)
      case Err(e) => Err(e)
      case Ok((more, seen')) => Ok((found + more, seen'))
  }

  /** The inner loop over two lists is the loop over the first followed by
      the loop over the second, sharing the seen set. */
  lemma {:induction false} DiscoverAppend(a: seq<Label>, b: seq<Label>, subs: Collection, seen: set<Label>)
    ensures Discover(a + b, subs, seen) == Continue(Discover(a, subs, seen), b, subs)
    decreases |a|
  {
    if a == [] {
      assert a + b == b;
      match Discover(b, subs, seen)
      case Err(e) =>
      case Ok((more, seen')) =>
        assert [] + more == more;
    } else if a[0] in seen {
      DiscoverAppend(a[1..], b, subs, seen);
      AppendSeen(a, b, subs, seen);
    } else if Lookup(subs, a[0]).Some? {
      DiscoverAppend(a[1..], b, subs, seen + {a[0]});
      AppendFresh(a, b, subs, seen);
    } else {
      ConsAppend(a, b);
    }
  }

  /** `DiscoverAppend`'s step past a label already seen. */
  lemma AppendSeen(a: seq<Label>, b: seq<Label>, subs: Collection, seen: set<Label>)
    requires a != [] && a[0] in seen
    requires Discover(a[1..] + b, subs, seen) == Continue(Discover(a[1..], subs, seen), b, subs)
    ensures Discover(a + b, subs, seen) == Continue(Discover(a, subs, seen), b, subs)
  {
    ConsAppend(a, b);
    DiscoverSkip(a + b, subs, seen);
    DiscoverSkip(a, subs, seen);
  }

  /** `DiscoverAppend`'s step past a new label that has a record. */
  lemma AppendFresh(a: seq<Label>, b: seq<Label>, subs: Collection, seen: set<Label>)
    requires a != [] && a[0] !in seen && Lookup(subs, a[0]).Some?
    requires Discover(a[1..] + b, subs, seen + {a[0]}) == Continue(Discover(a[1..], subs, seen + {a[0]}), b, subs)
    ensures Discover(a + b, subs, seen) == Continue(Discover(a, subs, seen), b, subs)
  {
    ConsAppend(a, b);
    DiscoverTake(a + b, subs, seen);
    DiscoverTake(a, subs, seen);
    PrependContinue(Lookup(subs, a[0]).value, Discover(a[1..], subs, seen + {a[0]}), b, subs);
  }

  /** A label already seen is skipped. */
  lemma DiscoverSkip(cs: seq<Label>, subs: Collection, seen: set<Label>)
    requires cs != [] && cs[0] in seen
    ensures Discover(cs, subs, seen) == Discover(cs[1..], subs, seen)
  {
  }

  /** A new label with a record puts that record in front of the rest. */
  lemma DiscoverTake(cs: seq<Label>, subs: Collection, seen: set<Label>)
    requires cs != [] && cs[0] !in seen && Lookup(subs, cs[0]).Some?
    ensures Discover(cs, subs, seen) == Prepend(Lookup(subs, cs[0]).value, Discover(cs[1..], subs, seen + {cs[0]}))
  {
  }

  /** The record `h` put in front of a successful batch. */
  function Prepend(h: SubgroupRecord, d: Result<(Collection, set<Label>), LayerError>): Result<(Collection, set<Label>), LayerError> {
    match d
    case Err(e) => Err(e)
    case Ok((found, seen)) => Ok(([h] + found, seen))
  }

  lemma PrependContinue(h: SubgroupRecord, d: Result<(Collection, set<Label>), LayerError>, b: seq<Label>, subs: Collection)
    ensures Prepend(h, Continue(d, b, subs)) == Continue(Prepend(h, d), b, subs)
  {
    match d
    case Err(e) =>
    case Ok((found, s1)) =>
      match Discover(b, subs, s1)
      case Err(e) =>
      case Ok((more, s2)) =>
        assert [h] + (found + more) == ([h] + found) + more;
  }

  /** One pass of the outer loop is the inner loop over every label the
      previous layer lists, in order. */
  lemma {:induction false} NextLayerDiscover(prev: Collection, subs: Collection, seen: set<Label>)
    ensures NextLayer(prev, subs, seen) == Discover(Listed(prev), subs, seen)
    decreases |prev|
  {
    if prev != [] {
      DiscoverAppend(prev[0].contains, Listed(prev[1..]), subs, seen);
      var d := Discover(prev[0].contains, subs, seen);
      if d.Ok? {
        NextLayerDiscover(prev[1..], subs, d.value.1);
      }
    }
  }

  /** A pass collects the records of the unseen labels listed by the
      previous layer, in the order in which they are first listed. */
  lemma NextLayerOrder(prev: Collection, subs: Collection, seen: set<Label>)
    ensures NextLayer(prev, subs, seen).Ok? ==>
      LabelsOf(NextLayer(prev, subs, seen).value.0) == Unseen(Listed(prev), seen)
    ensures NextLayer(prev, subs, seen).Ok? ==>
      FirstUnseen(Listed(prev), seen, LabelsOf(NextLayer(prev, subs, seen).value.0))
  {
    NextLayerDiscover(prev, subs, seen);
    DiscoverUnseen(Listed(prev), subs, seen);
    UnseenFirst(Listed(prev), seen);
  }

  // ---- the layers ----

  /** Every label of a layered drawing, top layer first. */
  function LayerLabels(layers: seq<Collection>): seq<Label> {
    LabelsOf(Flatten(layers))
  }

  /** Records come from `subs`, each record below the top is listed in the
      `contains` of a record one layer up, and only the last layer may be
      empty. */
  predicate LayerTree(subs: Collection, layers: seq<Collection>) {
    FromSubs(subs, layers) && Linked(layers) && OnlyLastEmpty(layers)
  }

  predicate FromSubs(subs: Collection, layers: seq<Collection>) {
    forall k, j :: 0 <= k < |layers| && 0 <= j < |layers[k]| ==> layers[k][j] in subs
  }

  predicate Linked(layers: seq<Collection>) {
    forall k, j :: 1 <= k < |layers| && 0 <= j < |layers[k]| ==> ListedBy(layers[k - 1], layers[k][j].name)
  }

  predicate OnlyLastEmpty(layers: seq<Collection>) {
    forall k :: 0 <= k < |layers| - 1 ==> layers[k] != []
  }

  /** Breadth-first: what a layer other than the last contains has been
      drawn by the layer below it at the latest. */
  predicate Explored(layers: seq<Collection>) {
    forall k, j, m :: 0 <= k < |layers| - 1 && 0 <= j < |layers[k]| && 0 <= m < |layers[k][j].contains| ==>
      layers[k][j].contains[m] in LayerLabels(layers[..k + 2])
  }

  /** Python's `max` of a dictionary's labels. */
  function TopLabel(subs: Collection): Label
    requires subs != []
  {
    MaxLabel(LabelsOf(subs))
  }

  /** Every `contains` entry is a key of the dictionary. */
  predicate Closed(subs: Collection) {
    forall i, m :: 0 <= i < |subs| && 0 <= m < |subs[i].contains| ==> HasLabel(subs, subs[i].contains[m])
  }

  /** `subgroup_layers`: the layers start from the record with the largest
      label and each pass collects, in order, the not yet seen subgroups
      contained in the previous layer; it stops when every label is seen or
      a pass adds nothing (which leaves an empty last layer). The edges are
      those of `AllEdges`. */
  method SubgroupLayers(subs: Collection) returns (r: Result<(seq<Collection>, seq<Edge>), LayerError>)
    requires DistinctLabels(subs)
    ensures r == Err(NoSubgroups) <==> subs == []
    ensures r.Err? && r.error.UnknownLabel? ==>
      !HasLabel(subs, r.error.missing) && exists i :: 0 <= i < |subs| && r.error.missing in subs[i].contains
    ensures subs != [] && Closed(subs) ==> r.Ok?
    ensures r.Ok? ==> subs != [] && Layered(subs, r.value.0)
    ensures r.Ok? ==> r.value.1 == AllEdges(subs)
  {
    if subs == [] {
      return Err(NoSubgroups);
    }
    var keys := KeySet(subs);
    var top := TopLabel(subs);
    var i0 :| 0 <= i0 < |subs| && LabelsOf(subs)[i0] == top;
    var topRec := Lookup(subs, top).value;
    FirstLayer(subs, keys, topRec);
    var drawn := DrawLayers(subs, keys, topRec);
    if drawn.Err? {
      return Err(drawn.error);
    }
    var layers := drawn.value;
    assert Layered(subs, layers);
    return Ok((layers, AllEdges(subs)));
  }

  /** The `while` loop of `subgroup_layers`, from the top layer on. */
  method DrawLayers(subs: Collection, keys: set<Label>, topRec: SubgroupRecord)
    returns (r: Result<seq<Collection>, LayerError>)
    requires DistinctLabels(subs) && keys == KeySet(subs)
    requires Drawn(subs, keys, [[topRec]], {topRec.name})
    ensures r.Ok? ==> |r.value| >= 1 && r.value[0] == [topRec]
    ensures r.Ok? ==> NoDup(LayerLabels(r.value)) && LayerTree(subs, r.value) && Explored(r.value)
    ensures r.Ok? ==> InOrder(r.value) && Stopped(subs, r.value)
    ensures r.Err? ==> (r.error.UnknownLabel? && !HasLabel(subs, r.error.missing) && !Closed(subs)
      && exists i :: 0 <= i < |subs| && r.error.missing in subs[i].contains)
  {
    var layers: seq<Collection> := [[topRec]];
    var seen: set<Label> := {topRec.name};
    var added := true;
    while |seen| < |subs| && added
      invariant |layers| >= 1 && layers[0] == [topRec]
      invariant Drawn(subs, keys, layers, seen)
      invariant added <==> layers[|layers| - 1] != []
      decreases |subs| - |seen|, if added then 1 else 0
    {
      var next := Pass(subs, keys, layers, seen);
      if next.Err? {
        return Err(next.error);
      }
      var found := next.value.0;
      layers := layers + [found];
      seen := next.value.1;
      added := found != [];
    }
    if added {
      AllSeen(subs, keys, seen);
    }
    return Ok(layers);
  }

  function KeySet(subs: Collection): (ks: set<Label>)
    requires DistinctLabels(subs)
    ensures |ks| == |subs|
    ensures forall l :: l in ks <==> HasLabel(subs, l)
  {
    var ls := LabelsOf(subs);
    NoDupCard(ls);
    set l | l in ls
  }

  /** One pass of the `while` loop: the next layer and the labels seen
      after it, or the label the dictionary lacks. */
  method Pass(subs: Collection, keys: set<Label>, layers: seq<Collection>, seen: set<Label>)
    returns (r: Result<(Collection, set<Label>), LayerError>)
    requires DistinctLabels(subs) && keys == KeySet(subs)
    requires Drawn(subs, keys, layers, seen) && layers[|layers| - 1] != []
    requires |seen| < |subs|
    ensures r.Ok? ==> Drawn(subs, keys, layers + [r.value.0], r.value.1)
    ensures r.Ok? ==> (r.value.0 != [] ==> |r.value.1| > |seen|) && (r.value.0 == [] ==> r.value.1 == seen)
    ensures r.Err? ==> (r.error.UnknownLabel? && !HasLabel(subs, r.error.missing) && !Closed(subs)
      && exists i :: 0 <= i < |subs| && r.error.missing in subs[i].contains)
  {
    var prev := layers[|layers| - 1];
    r := NextLayer(prev, subs, seen);
    if r.Err? {
      MissingLabel(subs, prev, r.error.missing);
    } else {
      var found := r.value.0;
      var seen' := r.value.1;
      PassKeeps(subs, keys, layers, seen, found, seen');
      PassProgress(subs, keys, seen, found, seen');
    }
  }

  /** A pass run under the loop guard keeps the loop invariant. */
  lemma PassKeeps(subs: Collection, keys: set<Label>, layers: seq<Collection>, seen: set<Label>,
                  found: Collection, seen': set<Label>)
    requires DistinctLabels(subs) && keys == KeySet(subs)
    requires Drawn(subs, keys, layers, seen) && layers[|layers| - 1] != []
    requires |seen| < |subs|
    requires NextLayer(layers[|layers| - 1], subs, seen) == Ok((found, seen'))
    ensures Drawn(subs, keys, layers + [found], seen')
  {
    LayerStep(subs, layers, seen, found, seen');
    PassProgress(subs, keys, seen, found, seen');
    OrderKeeps(subs, keys, layers, seen, found, seen');
  }

  /** A pass run under the loop guard keeps the layer order and the record
      of the guard having held. */
  lemma OrderKeeps(subs: Collection, keys: set<Label>, layers: seq<Collection>, seen: set<Label>,
                   found: Collection, seen': set<Label>)
    requires DistinctLabels(subs) && keys == KeySet(subs)
    requires |layers| >= 1 && Continued(subs, layers) && InOrder(layers)
    requires forall l :: l in seen <==> l in LayerLabels(layers)
    requires |seen| < |subs|
    requires NextLayer(layers[|layers| - 1], subs, seen) == Ok((found, seen'))
    ensures Continued(subs, layers + [found]) && InOrder(layers + [found])
  {
    NotAllDrawn(subs, keys, layers, seen);
    ContinuedStep(subs, layers, found);
    NextLayerOrder(layers[|layers| - 1], subs, seen);
    assert seen == LabelSet(layers);
    InOrderStep(layers, found);
  }

  /** What `subgroup_layers` promises of its layers: the top layer is the
      record with the largest label, no label is drawn twice, the layers
      form a breadth-first tree, each layer lists its labels in the order
      the loop meets them, and the drawing stopped exactly when the loop
      guard failed. */
  predicate Layered(subs: Collection, layers: seq<Collection>)
    requires subs != []
  {
    && |layers| >= 1 && |layers[0]| == 1
    && layers[0][0] in subs && layers[0][0].name == TopLabel(subs)
    && NoDup(LayerLabels(layers))
    && LayerTree(subs, layers) && Explored(layers)
    && InOrder(layers) && Stopped(subs, layers)
  }

  /** A label missing from a layer's `contains` makes the dictionary not closed. */
  lemma MissingLabel(subs: Collection, prev: Collection, l: Label)
    requires forall j :: 0 <= j < |prev| ==> prev[j] in subs
    requires ListedBy(prev, l) && !HasLabel(subs, l)
    ensures !Closed(subs)
    ensures exists i :: 0 <= i < |subs| && l in subs[i].contains
  {
    var j :| 0 <= j < |prev| && l in prev[j].contains;
    var k :| 0 <= k < |subs| && subs[k] == prev[j];
    var m :| 0 <= m < |subs[k].contains| && subs[k].contains[m] == l;
  }

  /** Every label of the dictionary is drawn in `layers`. */
  predicate AllDrawn(subs: Collection, layers: seq<Collection>) {
    forall i :: 0 <= i < |subs| ==> subs[i].name in LayerLabels(layers)
  }

  /** The loop guard `len(seen) < len(subs)` held before every pass: each
      layer below the top was drawn while some label was still undrawn. */
  predicate Continued(subs: Collection, layers: seq<Collection>) {
    forall k :: 1 <= k < |layers| ==> !AllDrawn(subs, layers[..k])
  }

  /** Why the drawing stopped: the last pass found nothing, or every label
      is drawn; and it did not stop earlier. */
  predicate Stopped(subs: Collection, layers: seq<Collection>) {
    && |layers| >= 1
    && (layers[|layers| - 1] == [] || AllDrawn(subs, layers))
    && Continued(subs, layers)
  }

  /** The loop guard rules out a layer added after every label was drawn:
      before the last layer some label was still undrawn. */
  lemma StoppedAtGuard(subs: Collection, layers: seq<Collection>)
    requires Stopped(subs, layers) && |layers| >= 2
    ensures !AllDrawn(subs, layers[..|layers| - 1])
  {
  }

  /** The labels drawn in `layers`, as a set. */
  function LabelSet(layers: seq<Collection>): (ls: set<Label>)
    ensures forall l :: l in ls <==> l in LayerLabels(layers)
  {
    set l | l in LayerLabels(layers)
  }

  /** Each layer below the top holds the labels listed by the layer above
      and not drawn before, each once, in the order of their first listing. */
  predicate InOrder(layers: seq<Collection>) {
    forall k :: 1 <= k < |layers| ==> LabelsOf(layers[k]) == Unseen(Listed(layers[k - 1]), LabelSet(layers[..k]))
  }

  /** The loop invariant: the layers drawn so far and the labels seen. */
  ghost predicate Drawn(subs: Collection, keys: set<Label>, layers: seq<Collection>, seen: set<Label>) {
    && |layers| >= 1
    && NoDup(LayerLabels(layers))
    && LayerTree(subs, layers) && Explored(layers)
    && (forall l :: l in seen <==> l in LayerLabels(layers))
    && seen <= keys
    && Continued(subs, layers) && InOrder(layers)
  }

  lemma FirstLayer(subs: Collection, keys: set<Label>, topRec: SubgroupRecord)
    requires DistinctLabels(subs) && keys == KeySet(subs) && topRec in subs
    ensures Drawn(subs, keys, [[topRec]], {topRec.name})
  {
    var layers: seq<Collection> := [[topRec]];
    assert Flatten(layers) == [topRec] by {
      FlattenSnoc([], [topRec]);
    }
    assert LayerLabels(layers) == [topRec.name];
    var k :| 0 <= k < |subs| && subs[k] == topRec;
    assert HasLabel(subs, topRec.name);
  }

  /** A pass only marks keys as seen, and a pass that finds something
      marks at least one more. */
  lemma PassProgress(subs: Collection, keys: set<Label>, seen: set<Label>, found: Collection, seen': set<Label>)
    requires DistinctLabels(subs) && keys == KeySet(subs)
    requires seen <= keys && Fresh(subs, seen, found, seen')
    ensures seen <= seen' <= keys
    ensures found != [] ==> |seen'| > |seen|
    ensures found == [] ==> seen' == seen
  {
    forall l | l in seen'
      ensures l in keys
    {
      if l !in seen {
        var i :| 0 <= i < |found| && LabelsOf(found)[i] == l;
        var x := found[i];
        var k :| 0 <= k < |subs| && subs[k] == x;
        assert HasLabel(subs, l);
      }
    }
    SubsetCard(seen, seen');
    if found != [] {
      assert LabelsOf(found)[0] in seen' && LabelsOf(found)[0] !in seen;
    }
  }

  /** Once as many labels are seen as there are keys, every key is seen. */
  lemma AllSeen(subs: Collection, keys: set<Label>, seen: set<Label>)
    requires DistinctLabels(subs) && keys == KeySet(subs)
    requires seen <= keys && |seen| >= |subs|
    ensures forall i :: 0 <= i < |subs| ==> subs[i].name in seen
  {
    SubsetCard(seen, keys);
    assert forall i :: 0 <= i < |subs| ==> HasLabel(subs, subs[i].name);
  }

  /** While fewer labels are seen than there are keys, some label is
      undrawn. */
  lemma NotAllDrawn(subs: Collection, keys: set<Label>, layers: seq<Collection>, seen: set<Label>)
    requires DistinctLabels(subs) && keys == KeySet(subs)
    requires forall l :: l in seen <==> l in LayerLabels(layers)
    requires |seen| < |subs|
    ensures !AllDrawn(subs, layers)
  {
    if AllDrawn(subs, layers) {
      forall l | l in keys
        ensures l in seen
      {
        var i :| 0 <= i < |subs| && LabelsOf(subs)[i] == l;
        assert subs[i].name in LayerLabels(layers);
      }
      SubsetCard(keys, seen);
      assert false;
    }
  }

  /** A pass run under the loop guard keeps `Continued`. */
  lemma ContinuedStep(subs: Collection, layers: seq<Collection>, found: Collection)
    requires Continued(subs, layers) && !AllDrawn(subs, layers)
    ensures Continued(subs, layers + [found])
  {
    var ls := layers + [found];
    forall k | 1 <= k < |ls|
      ensures !AllDrawn(subs, ls[..k])
    {
      assert ls[..k] == layers[..k];
    }
  }

  /** A pass that collects the first-listed unseen labels keeps `InOrder`. */
  lemma InOrderStep(layers: seq<Collection>, found: Collection)
    requires |layers| >= 1 && InOrder(layers)
    requires LabelsOf(found) == Unseen(Listed(layers[|layers| - 1]), LabelSet(layers))
    ensures InOrder(layers + [found])
  {
    var ls := layers + [found];
    forall k | 1 <= k < |ls|
      ensures LabelsOf(ls[k]) == Unseen(Listed(ls[k - 1]), LabelSet(ls[..k]))
    {
      OrderedAfterSnoc(layers, found, k);
    }
  }

  /** One layer of `layers + [found]` is in order: an old layer because
      `layers` is, the new one by the requirement on `found`. */
  lemma OrderedAfterSnoc(layers: seq<Collection>, found: Collection, k: nat)
    requires 1 <= k <= |layers| && InOrder(layers)
    requires LabelsOf(found) == Unseen(Listed(layers[|layers| - 1]), LabelSet(layers))
    ensures LabelsOf((layers + [found])[k]) == Unseen(Listed((layers + [found])[k - 1]), LabelSet((layers + [found])[..k]))
  {
    var ls := layers + [found];
    if k < |layers| {
      assert ls[k - 1] == layers[k - 1] && ls[k] == layers[k] && ls[..k] == layers[..k];
    } else {
      assert ls[k - 1] == layers[k - 1] && ls[k] == found && ls[..k] == layers;
    }
  }

  /** Appending a pass keeps every layer invariant. */
  lemma LayerStep(subs: Collection, layers: seq<Collection>, seen: set<Label>, found: Collection, seen': set<Label>)
    requires |layers| >= 1
    requires NoDup(LayerLabels(layers)) && LayerTree(subs, layers) && Explored(layers)
    requires forall l :: l in seen <==> l in LayerLabels(layers)
    requires layers[|layers| - 1] != []
    requires NextLayer(layers[|layers| - 1], subs, seen) == Ok((found, seen'))
    ensures NoDup(LayerLabels(layers + [found])) && LayerTree(subs, layers + [found]) && Explored(layers + [found])
    ensures forall l :: l in seen' <==> l in LayerLabels(layers + [found])
  {
    var prev := layers[|layers| - 1];
    assert Fresh(subs, seen, found, seen');
    LabelsSnoc(layers, found);
    NoDupAppend(LayerLabels(layers), LabelsOf(found));
    TreeStep(subs, layers, found);
    ExploredStep(layers, prev, found, seen');
  }

  lemma LabelsSnoc(layers: seq<Collection>, found: Collection)
    ensures LayerLabels(layers + [found]) == LayerLabels(layers) + LabelsOf(found)
  {
    FlattenSnoc(layers, found);
    LabelsOfAppend(Flatten(layers), found);
  }

  lemma TreeStep(subs: Collection, layers: seq<Collection>, found: Collection)
    requires |layers| >= 1 && LayerTree(subs, layers) && layers[|layers| - 1] != []
    requires forall i :: 0 <= i < |found| ==> found[i] in subs && ListedBy(layers[|layers| - 1], found[i].name)
    ensures LayerTree(subs, layers + [found])
  {
    FromSubsStep(subs, layers, found);
    LinkedStep(layers, found);
    OnlyLastEmptyStep(layers, found);
  }

  lemma FromSubsStep(subs: Collection, layers: seq<Collection>, found: Collection)
    requires FromSubs(subs, layers)
    requires forall i :: 0 <= i < |found| ==> found[i] in subs
    ensures FromSubs(subs, layers + [found])
  {
    var ls: seq<Collection> := layers + [found];
    forall k, j | 0 <= k < |ls| && 0 <= j < |ls[k]|
      ensures ls[k][j] in subs
    {
      if k < |layers| {
        assert ls[k] == layers[k];
      }
    }
  }

  lemma LinkedStep(layers: seq<Collection>, found: Collection)
    requires |layers| >= 1 && Linked(layers)
    requires forall i :: 0 <= i < |found| ==> ListedBy(layers[|layers| - 1], found[i].name)
    ensures Linked(layers + [found])
  {
    var ls: seq<Collection> := layers + [found];
    forall k, j | 1 <= k < |ls| && 0 <= j < |ls[k]|
      ensures ListedBy(ls[k - 1], ls[k][j].name)
    {
      assert ls[k - 1] == layers[k - 1];
      if k < |layers| {
        assert ls[k] == layers[k];
      }
    }
  }

  lemma OnlyLastEmptyStep(layers: seq<Collection>, found: Collection)
    requires |layers| >= 1 && OnlyLastEmpty(layers) && layers[|layers| - 1] != []
    ensures OnlyLastEmpty(layers + [found])
  {
    var ls: seq<Collection> := layers + [found];
    forall k | 0 <= k < |ls| - 1
      ensures ls[k] != []
    {
      assert ls[k] == layers[k];
    }
  }

  lemma ExploredStep(layers: seq<Collection>, prev: Collection, found: Collection, seen': set<Label>)
    requires |layers| >= 1 && Explored(layers) && prev == layers[|layers| - 1]
    requires forall j, m :: 0 <= j < |prev| && 0 <= m < |prev[j].contains| ==> prev[j].contains[m] in seen'
    requires forall l :: l in seen' <==> l in LayerLabels(layers + [found])
    ensures Explored(layers + [found])
  {
    var ls: seq<Collection> := layers + [found];
    forall k: nat, j: nat, m: nat | 0 <= k < |ls| - 1 && 0 <= j < |ls[k]| && 0 <= m < |ls[k][j].contains|
      ensures ls[k][j].contains[m] in LayerLabels(ls[..k + 2])
    {
      assert ls[k] == layers[k];
      if k < |layers| - 1 {
        assert ls[..k + 2] == layers[..k + 2];
      } else {
        assert ls[k] == prev;
        assert ls[k][j].contains[m] in seen';
        assert ls[..k + 2] == ls;
      }
    }
  }

  /** Set cardinality grows with inclusion, strictly for a proper superset. */
  lemma SubsetCard<T>(a: set<T>, b: set<T>)
    requires a <= b
    ensures |a| <= |b|
    ensures |a| == |b| ==> a == b
  {
    assert a + (b - a) == b;
    assert a * (b - a) == {};
    if |a| == |b| {
      assert |b - a| == 0;
    }
  }

  // ---- edges ----

  /** The edges `[h, g]` for `h` in `g.contains`, for each record `g` in
      iteration order. */
  function AllEdges(subs: Collection): (es: seq<Edge>)
    ensures forall e :: e in es ==> exists i, m :: (0 <= i < |subs| && 0 <= m < |subs[i].contains|
      && e == Edge(subs[i].contains[m], subs[i].name))
    ensures forall i, m :: 0 <= i < |subs| && 0 <= m < |subs[i].contains| ==> Edge(subs[i].contains[m], subs[i].name) in es
    ensures |es| == ContainsCount(subs)
  {
    if subs == [] then []
    else
      var g := subs[|subs| - 1];
      var front := subs[..|subs| - 1];
      var es := AllEdges(front) + EdgesBelow(g);
      assert forall i :: 0 <= i < |front| ==> front[i] == subs[i];
      es
  }

  function EdgesBelow(g: SubgroupRecord): (es: seq<Edge>)
    ensures |es| == |g.contains|
    ensures forall m :: 0 <= m < |es| ==> es[m] == Edge(g.contains[m], g.name)
  {
    seq(|g.contains|, m requires 0 <= m < |g.contains| => Edge(g.contains[m], g.name))
  }

  /** Each record's edges `[h, g]`, one list per record in iteration order. */
  function BelowPerRecord(subs: Collection): (r: seq<seq<Edge>>)
    ensures |r| == |subs|
    ensures forall i :: 0 <= i < |subs| ==> r[i] == EdgesBelow(subs[i])
  {
    seq(|subs|, i requires 0 <= i < |subs| => EdgesBelow(subs[i]))
  }

  /** The edge list appends one edge per listing, record after record:
      exactly the per-record lists concatenated. */
  lemma {:induction false} AllEdgesPerRecord(subs: Collection)
    ensures AllEdges(subs) == Flatten(BelowPerRecord(subs))
    decreases |subs|
  {
    if subs != [] {
      var front := subs[..|subs| - 1];
      AllEdgesPerRecord(front);
      var ps := BelowPerRecord(subs);
      assert ps[..|ps| - 1] == BelowPerRecord(front);
    }
  }

  /** The number of inclusions listed across all `contains` lists. */
  function ContainsCount(subs: Collection): nat {
    if subs == [] then 0 else ContainsCount(subs[..|subs| - 1]) + |subs[|subs| - 1].contains|
  }
}
