/** The cluster inventory's two rollups over the same targets: flat, and composed per namespace. */
module Rollup {
  import opened Sequences
  import opened Envelope
  import opened Sorting
  import opened Dedupe

  /** One target in one selected namespace, with the snapshot taken of its rows. */
  datatype Visit = Visit(ns: string, target: string, snapshot: seq<Item>)

  function Flat(visits: seq<Visit>): seq<Item> {
    if visits == [] then [] else Flat(visits[..|visits| - 1]) + visits[|visits| - 1].snapshot
  }

  /** The rows of one namespace, in visiting order. */
  function ShardOf(visits: seq<Visit>, ns: string): seq<Item> {
    if visits == [] then []
    else
      var shard, v := ShardOf(visits[..|visits| - 1], ns), visits[|visits| - 1];
      if v.ns == ns then shard + v.snapshot else shard
  }

  function Shards(visits: seq<Visit>, names: seq<string>): seq<seq<Item>> {
    seq(|names|, i requires 0 <= i < |names| => ShardOf(visits, names[i]))
  }

  /** names lists, once each, the namespaces that have rows. */
  ghost predicate Names(visits: seq<Visit>, names: seq<string>) {
    Distinct(names) && forall ns :: ns in names <==> ShardOf(visits, ns) != []
  }

  function Composed(mode: Mode, visits: seq<Visit>, names: seq<string>): seq<Item> {
    MergedBy(mode, Concat(MergeEach(mode, Shards(visits, names))))
  }

  method CollectRollupItems(visits: seq<Visit>, mode: Mode) returns (items: seq<Item>)
    ensures items == MergedBy(mode, Flat(visits))
  {
    var all := [];
    for i := 0 to |visits|
      invariant all == Flat(visits[..i])
    {
      assert visits[..i + 1][..i] == visits[..i];
      all := all + visits[i].snapshot;
    }
    assert visits[..|visits|] == visits;
    items := MergeRows(all, mode);
  }

  method GroupByNamespace(visits: seq<Visit>) returns (shards: map<string, seq<Item>>)
    ensures forall ns :: ns in shards <==> ShardOf(visits, ns) != []
    ensures forall ns :: ns in shards ==> shards[ns] == ShardOf(visits, ns)
  {
    shards := map[];
    for i := 0 to |visits|
      invariant forall ns :: ns in shards <==> ShardOf(visits[..i], ns) != []
      invariant forall ns :: ns in shards ==> shards[ns] == ShardOf(visits[..i], ns)
    {
      var v := visits[i];
      assert visits[..i + 1][..i] == visits[..i] && visits[..i + 1][i] == v;
      if |v.snapshot| == 0 {
        assert forall ns :: ShardOf(visits[..i + 1], ns) == ShardOf(visits[..i], ns);
        continue;
      }
      var shard := if v.ns in shards then shards[v.ns] else [];
      shards := shards[v.ns := shard + v.snapshot];
    }
    assert visits[..|visits|] == visits;
  }

  method SortedNames(shards: map<string, seq<Item>>) returns (names: seq<string>)
    ensures Distinct(names) && Sorted((n: string) => n, names)
    ensures forall ns :: ns in names <==> ns in shards
  {
    var pending := shards.Keys;
    var found := [];
    while pending != {}
      invariant pending <= shards.Keys && Distinct(found)
      invariant forall ns :: ns in found <==> ns in shards && ns !in pending
      decreases pending
    {
      var ns :| ns in pending;
      found, pending := found + [ns], pending - {ns};
    }
    names := SortBy((n: string) => n, found);
    SortBySorts((n: string) => n, found);
    PermutedDistinct(found, names);
  }

  lemma PermutedDistinct(a: seq<string>, b: seq<string>)
    requires Distinct(a) && multiset(a) == multiset(b)
    ensures Distinct(b) && forall x :: x in b <==> x in a
  {
    forall x ensures x in b <==> x in a { assert x in multiset(a) <==> x in multiset(b); }
    forall i, j | 0 <= i < j < |b| ensures b[i] != b[j] {
      if b[i] == b[j] {
        assert b == b[..i] + [b[i]] + b[i + 1..j] + [b[j]] + b[j + 1..];
        assert multiset(b)[b[i]] >= 2;
        AtMostOnce(a, b[i]);
      }
    }
  }

  lemma {:induction false} AtMostOnce(a: seq<string>, x: string)
    requires Distinct(a)
    ensures multiset(a)[x] <= 1
  {
    if a != [] {
      var n := |a| - 1;
      assert a == a[..n] + [a[n]];
      AtMostOnce(a[..n], x);
      if a[n] == x { assert x !in a[..n]; }
    }
  }

  method ComposeNamespaceRollup(visits: seq<Visit>, mode: Mode) returns (items: seq<Item>, names: seq<string>)
    ensures Names(visits, names) && Sorted((n: string) => n, names)
    ensures items == Composed(mode, visits, names)
  {
    var shards := GroupByNamespace(visits);
    names := SortedNames(shards);
    var composed := [];
    for i := 0 to |names|
      invariant composed == Concat(MergeEach(mode, Shards(visits, names[..i])))
    {
      var shard := MergeRows(shards[names[i]], mode);
      ComposeStep(mode, visits, names, i);
      composed := composed + shard;
    }
    assert names[..|names|] == names;
    items := MergeRows(composed, mode);
  }

  lemma ComposeStep(mode: Mode, visits: seq<Visit>, names: seq<string>, i: nat)
    requires i < |names|
    ensures Concat(MergeEach(mode, Shards(visits, names[..i + 1]))) ==
            Concat(MergeEach(mode, Shards(visits, names[..i]))) + MergedBy(mode, ShardOf(visits, names[i]))
  {
    var merged := MergeEach(mode, Shards(visits, names[..i + 1]));
    assert merged[..i] == MergeEach(mode, Shards(visits, names[..i]));
  }

  lemma {:induction false} FlatConcat(a: seq<Visit>, b: seq<Visit>)
    ensures Flat(a + b) == Flat(a) + Flat(b)
  {
    if b == [] {
      assert a + b == a;
    } else {
      assert (a + b)[..|a + b| - 1] == a + b[..|b| - 1];
      FlatConcat(a, b[..|b| - 1]);
    }
  }

  lemma {:induction false} ShardConcat(a: seq<Visit>, b: seq<Visit>, ns: string)
    ensures ShardOf(a + b, ns) == ShardOf(a, ns) + ShardOf(b, ns)
  {
    if b == [] {
      assert a + b == a;
    } else {
      assert (a + b)[..|a + b| - 1] == a + b[..|b| - 1];
      ShardConcat(a, b[..|b| - 1], ns);
    }
  }

  /** Every snapshot comes whole, where it was taken, in the flat list and in its namespace's. */
  lemma SnapshotsInOrder(a: seq<Visit>, v: Visit, b: seq<Visit>, ns: string)
    ensures Flat(a + [v] + b) == Flat(a) + v.snapshot + Flat(b) && Flat([]) == []
    ensures ShardOf(a + [v] + b, ns) == ShardOf(a, ns) + (if v.ns == ns then v.snapshot else []) + ShardOf(b, ns)
    ensures ShardOf([], ns) == []
  {
    FlatConcat(a + [v], b);
    FlatConcat(a, [v]);
    ShardConcat(a + [v], b, ns);
    ShardConcat(a, [v], ns);
  }

  /******* The two agree on the number of rows *******/

  function Others(visits: seq<Visit>, ns: string): seq<Visit> {
    if visits == [] then []
    else
      var rest, v := Others(visits[..|visits| - 1], ns), visits[|visits| - 1];
      if v.ns == ns then rest else rest + [v]
  }

  lemma {:induction false} SplitNamespace(visits: seq<Visit>, ns: string, other: string)
    ensures multiset(Flat(visits)) == multiset(Flat(Others(visits, ns))) + multiset(ShardOf(visits, ns))
    ensures ShardOf(Others(visits, ns), other) == if other == ns then [] else ShardOf(visits, other)
  {
    if visits != [] {
      var front, v := visits[..|visits| - 1], visits[|visits| - 1];
      SplitNamespace(front, ns, other);
      var rest := Others(front, ns);
      if v.ns != ns { assert (rest + [v])[..|rest|] == rest; }
    }
  }

  lemma {:induction false} NoShardsNoRows(visits: seq<Visit>)
    requires forall ns :: ShardOf(visits, ns) == []
    ensures Flat(visits) == []
  {
    if visits != [] {
      var front, v := visits[..|visits| - 1], visits[|visits| - 1];
      assert ShardOf(visits, v.ns) == [];
      forall ns ensures ShardOf(front, ns) == [] { assert ShardOf(visits, ns) == []; }
      NoShardsNoRows(front);
    }
  }

  lemma PeelName(visits: seq<Visit>, names: seq<string>)
    requires Names(visits, names) && names != []
    ensures var n := |names| - 1;
            var rest := Others(visits, names[n]);
            Names(rest, names[..n]) && Shards(visits, names) == Shards(rest, names[..n]) + [ShardOf(visits, names[n])]
  {
    var n := |names| - 1;
    var front, ns := names[..n], names[n];
    var rest := Others(visits, ns);
    forall x ensures x in front <==> ShardOf(rest, x) != [] {
      SplitNamespace(visits, ns, x);
      assert x in names <==> x in front || x == ns;
    }
    forall i | 0 <= i < n ensures ShardOf(visits, names[i]) == ShardOf(rest, names[i]) {
      SplitNamespace(visits, ns, names[i]);
    }
  }

  /** Grouping by namespace loses and invents no row. */
  lemma {:induction false} GroupingConserves(visits: seq<Visit>, names: seq<string>)
    requires Names(visits, names)
    ensures multiset(Concat(Shards(visits, names))) == multiset(Flat(visits))
    decreases |names|
  {
    if names == [] {
      NoShardsNoRows(visits);
    } else {
      var n := |names| - 1;
      var rest := Others(visits, names[n]);
      PeelName(visits, names);
      GroupingConserves(rest, names[..n]);
      SplitNamespace(visits, names[n], names[n]);
      assert Shards(visits, names)[..n] == Shards(rest, names[..n]);
    }
  }

  /** Both rollups have the same number of rows, for any order of traversal and of snapshots. */
  lemma RollupsAgreeOnCount(mode: Mode, visits: seq<Visit>, names: seq<string>, other: seq<Visit>)
    requires Names(visits, names) && multiset(Flat(visits)) == multiset(Flat(other))
    ensures |Composed(mode, visits, names)| == |MergedBy(mode, Flat(other))|
  {
    TwoLevelIsFlat(mode, Shards(visits, names));
    GroupingConserves(visits, names);
    SizeOrderIndependent(mode, Concat(Shards(visits, names)), Flat(other));
  }
}
