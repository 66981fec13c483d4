/** Row dedupe across targets, and the two rollups built on it. */
module Dedupe {
  import opened Sequences
  import opened Envelope

  datatype ResourceUID = ResourceUID(ns: string, uid: string)

  datatype Mode = KeepAll | ByResourceUID

  function ResourceKey(item: Item): ResourceUID {
    ResourceUID(item.namespace, item.uid)
  }

  /******* Reference: first occurrence gives the place, last occurrence the row *******/

  /** The resources in order of first occurrence. */
  function Firsts(items: seq<Item>): seq<ResourceUID> {
    if items == [] then []
    else
      var ks, k := Firsts(items[..|items| - 1]), ResourceKey(items[|items| - 1]);
      if k in ks then ks else ks + [k]
  }

  ghost predicate Occurs(items: seq<Item>, k: ResourceUID) {
    exists i :: 0 <= i < |items| && ResourceKey(items[i]) == k
  }

  lemma {:induction false} FirstsDistinct(items: seq<Item>)
    ensures Distinct(Firsts(items))
  {
    if items != [] { FirstsDistinct(items[..|items| - 1]); }
  }

  lemma {:induction false} FirstsAreKeys(items: seq<Item>, k: ResourceUID)
    ensures k in Firsts(items) <==> Occurs(items, k)
  {
    if items != [] {
      var n := |items| - 1;
      FirstsAreKeys(items[..n], k);
      if ResourceKey(items[n]) == k { assert Occurs(items, k); }
      else if Occurs(items, k) {
        var i :| 0 <= i < |items| && ResourceKey(items[i]) == k;
        assert items[..n][i] == items[i];
      }
      if Occurs(items[..n], k) {
        var i :| 0 <= i < n && ResourceKey(items[..n][i]) == k;
        assert items[i] == items[..n][i];
      }
    }
  }

  function LastOf(items: seq<Item>, k: ResourceUID): (r: Item)
    requires k in Firsts(items)
    ensures ResourceKey(r) == k
  {
    if ResourceKey(items[|items| - 1]) == k then items[|items| - 1] else LastOf(items[..|items| - 1], k)
  }

  function Merged(items: seq<Item>): seq<Item> {
    seq(|Firsts(items)|, i requires 0 <= i < |Firsts(items)| => LastOf(items, Firsts(items)[i]))
  }

  function MergedBy(mode: Mode, items: seq<Item>): seq<Item> {
    if mode.KeepAll? then items else Merged(items)
  }

  /******* The loop *******/

  ghost predicate Locates(seen: map<ResourceUID, nat>, ks: seq<ResourceUID>) {
    && (forall k :: k in seen <==> k in ks)
    && forall k :: k in seen ==> seen[k] < |ks| && ks[seen[k]] == k
  }

  method MergeRows(items: seq<Item>, mode: Mode) returns (out: seq<Item>)
    ensures out == MergedBy(mode, items)
  {
    if |items| == 0 || mode.KeepAll? {
      return items;
    }
    var seen: map<ResourceUID, nat> := map[];
    out := [];
    for n := 0 to |items|
      invariant out == Merged(items[..n])
      invariant Locates(seen, Firsts(items[..n]))
    {
      var item := items[n];
      var key := ResourceKey(item);
      assert items[..n + 1] == items[..n] + [item];
      if key in seen {
        var idx := seen[key];
        ReplaceRow(items[..n], item, idx);
        out := out[idx := item];
      } else {
        AppendRow(items[..n], item);
        seen := seen[key := |out|];
        out := out + [item];
      }
    }
    assert items[..|items|] == items;
  }

  lemma ReplaceRow(items: seq<Item>, item: Item, i: nat)
    requires i < |Firsts(items)| && Firsts(items)[i] == ResourceKey(item)
    ensures Firsts(items + [item]) == Firsts(items)
    ensures Merged(items + [item]) == Merged(items)[i := item]
  {
    assert (items + [item])[..|items|] == items;
    FirstsDistinct(items);
  }

  lemma AppendRow(items: seq<Item>, item: Item)
    requires ResourceKey(item) !in Firsts(items)
    ensures Firsts(items + [item]) == Firsts(items) + [ResourceKey(item)]
    ensures Merged(items + [item]) == Merged(items) + [item]
  {
    assert (items + [item])[..|items|] == items;
  }

  /******* Two levels are one *******/

  function Extend(ks: seq<ResourceUID>, ls: seq<ResourceUID>): seq<ResourceUID> {
    if ls == [] then ks
    else
      var e, l := Extend(ks, ls[..|ls| - 1]), ls[|ls| - 1];
      if l in e then e else e + [l]
  }

  lemma {:induction false} ExtendMembers(ks: seq<ResourceUID>, ls: seq<ResourceUID>, k: ResourceUID)
    ensures k in Extend(ks, ls) <==> k in ks || k in ls
  {
    if ls != [] {
      ExtendMembers(ks, ls[..|ls| - 1], k);
      assert ls == ls[..|ls| - 1] + [ls[|ls| - 1]];
    }
  }

  lemma {:induction false} FirstsConcat(a: seq<Item>, b: seq<Item>)
    ensures Firsts(a + b) == Extend(Firsts(a), Firsts(b))
  {
    if b == [] {
      assert a + b == a;
    } else {
      var front, x := b[..|b| - 1], b[|b| - 1];
      var k := ResourceKey(x);
      FirstsConcat(a, front);
      assert (a + b)[..|a + b| - 1] == a + front;
      ExtendMembers(Firsts(a), Firsts(front), k);
      if k !in Firsts(front) { assert (Firsts(front) + [k])[..|Firsts(front)|] == Firsts(front); }
    }
  }

  lemma {:induction false} LastConcat(a: seq<Item>, b: seq<Item>, k: ResourceUID)
    requires k in Firsts(a + b)
    ensures k in Firsts(b) || k in Firsts(a)
    ensures LastOf(a + b, k) == if k in Firsts(b) then LastOf(b, k) else LastOf(a, k)
  {
    if b == [] {
      assert a + b == a;
    } else {
      var front := b[..|b| - 1];
      assert (a + b)[..|a + b| - 1] == a + front;
      if ResourceKey(b[|b| - 1]) != k { LastConcat(a, front, k); }
    }
  }

  /** Rows whose resources differ are their own merge. */
  lemma {:induction false} DistinctIsMerged(items: seq<Item>)
    requires forall i, j :: 0 <= i < j < |items| ==> ResourceKey(items[i]) != ResourceKey(items[j])
    ensures |Firsts(items)| == |items| && forall i :: 0 <= i < |items| ==> Firsts(items)[i] == ResourceKey(items[i])
    ensures Merged(items) == items
  {
    if items != [] {
      var n := |items| - 1;
      DistinctIsMerged(items[..n]);
      assert items == items[..n] + [items[n]];
      AppendRow(items[..n], items[n]);
    }
  }

  /** Merging keeps the resources, their order, and each one's last row. */
  lemma MergedKeeps(items: seq<Item>)
    ensures Firsts(Merged(items)) == Firsts(items)
    ensures forall k :: k in Firsts(items) ==> LastOf(Merged(items), k) == LastOf(items, k)
    ensures Merged(Merged(items)) == Merged(items)
  {
    FirstsDistinct(items);
    var m := Merged(items);
    DistinctIsMerged(m);
    assert Firsts(m) == Firsts(items);
    forall k | k in Firsts(items) ensures LastOf(m, k) == LastOf(items, k) {
      var i :| 0 <= i < |Firsts(items)| && Firsts(items)[i] == k;
      assert Merged(m)[i] == LastOf(m, k);
    }
  }

  lemma MergedConcat(a: seq<Item>, b: seq<Item>, a': seq<Item>, b': seq<Item>)
    requires Merged(a) == Merged(a') && Merged(b) == Merged(b')
    ensures Merged(a + b) == Merged(a' + b')
  {
    SameMerge(a, a');
    SameMerge(b, b');
    FirstsConcat(a, b);
    FirstsConcat(a', b');
    forall i | 0 <= i < |Firsts(a + b)| ensures Merged(a + b)[i] == Merged(a' + b')[i] {
      LastConcat(a, b, Firsts(a + b)[i]);
      LastConcat(a', b', Firsts(a + b)[i]);
    }
  }

  lemma SameMerge(a: seq<Item>, a': seq<Item>)
    requires Merged(a) == Merged(a')
    ensures Firsts(a) == Firsts(a') && forall k :: k in Firsts(a) ==> LastOf(a, k) == LastOf(a', k)
  {
    MergedKeeps(a);
    MergedKeeps(a');
  }

  function Concat(shards: seq<seq<Item>>): seq<Item> {
    if shards == [] then [] else Concat(shards[..|shards| - 1]) + shards[|shards| - 1]
  }

  function MergeEach(mode: Mode, shards: seq<seq<Item>>): seq<seq<Item>> {
    seq(|shards|, i requires 0 <= i < |shards| => MergedBy(mode, shards[i]))
  }

  /** Merging the concatenation of per-shard merges is merging the concatenation. */
  lemma {:induction false} TwoLevelIsFlat(mode: Mode, shards: seq<seq<Item>>)
    ensures MergedBy(mode, Concat(MergeEach(mode, shards))) == MergedBy(mode, Concat(shards))
  {
    if shards != [] {
      var n := |shards| - 1;
      TwoLevelIsFlat(mode, shards[..n]);
      assert MergeEach(mode, shards)[..n] == MergeEach(mode, shards[..n]);
      if mode.ByResourceUID? {
        MergedKeeps(shards[n]);
        MergedConcat(Concat(MergeEach(mode, shards[..n])), Merged(shards[n]), Concat(shards[..n]), shards[n]);
      }
    }
  }

  /******* Size *******/

  lemma {:induction false} DistinctCount<T>(s: seq<T>, members: set<T>)
    requires Distinct(s) && forall x :: x in s <==> x in members
    ensures |s| == |members|
  {
    if s == [] {
      assert members == {};
    } else {
      var n := |s| - 1;
      assert s == s[..n] + [s[n]];
      DistinctCount(s[..n], members - {s[n]});
    }
  }

  function Resources(items: seq<Item>): set<ResourceUID> {
    set i | 0 <= i < |items| :: ResourceKey(items[i])
  }

  /** The merge has one row per (namespace, uid). */
  lemma MergedSize(items: seq<Item>)
    ensures |Merged(items)| == |Resources(items)|
  {
    FirstsDistinct(items);
    forall k ensures k in Firsts(items) <==> k in Resources(items) { FirstsAreKeys(items, k); }
    DistinctCount(Firsts(items), Resources(items));
  }

  lemma SizeOrderIndependent(mode: Mode, a: seq<Item>, b: seq<Item>)
    requires multiset(a) == multiset(b)
    ensures |MergedBy(mode, a)| == |MergedBy(mode, b)|
  {
    assert |a| == |multiset(a)| == |b|;
    MergedSize(a);
    MergedSize(b);
    SubsetResources(a, b);
    SubsetResources(b, a);
    assert Resources(a) == Resources(b);
  }

  lemma SubsetResources(a: seq<Item>, b: seq<Item>)
    requires multiset(a) == multiset(b)
    ensures Resources(a) <= Resources(b)
  {
    forall k | k in Resources(a) ensures k in Resources(b) {
      var i :| 0 <= i < |a| && ResourceKey(a[i]) == k;
      assert a[i] in multiset(b);
      assert a[i] in b;
      var j :| 0 <= j < |b| && b[j] == a[i];
    }
  }

  /******* What merging means, row by row *******/

  ghost predicate SameResource(a: Item, b: Item) {
    a.namespace == b.namespace && a.uid == b.uid
  }

  /** m is the position of the last item that is the same resource as x. */
  ghost predicate IsLast(items: seq<Item>, x: Item, m: nat) {
    m < |items| && SameResource(items[m], x) && forall n :: m < n < |items| ==> !SameResource(items[n], x)
  }

  lemma {:induction false} LastOfIsLast(items: seq<Item>, k: ResourceUID) returns (m: nat)
    requires k in Firsts(items)
    ensures m < |items| && items[m] == LastOf(items, k) && IsLast(items, items[m], m)
  {
    var n := |items| - 1;
    if ResourceKey(items[n]) == k {
      m := n;
    } else {
      m := LastOfIsLast(items[..n], k);
      assert items[..n][m] == items[m];
      forall j | m < j < |items| ensures !SameResource(items[j], items[m]) {
        if j < n { assert items[..n][j] == items[j]; }
      }
    }
  }

  /** x occurs before y does. */
  ghost predicate Before(items: seq<Item>, x: Item, y: Item) {
    exists p :: 0 <= p < |items| && SameResource(items[p], x) && forall q :: 0 <= q <= p ==> !SameResource(items[q], y)
  }

  lemma {:induction false} FirstsOrdered(items: seq<Item>, a: nat, b: nat) returns (p: nat)
    requires a < b < |Firsts(items)|
    ensures p < |items| && ResourceKey(items[p]) == Firsts(items)[a]
    ensures forall q :: 0 <= q <= p ==> ResourceKey(items[q]) != Firsts(items)[b]
  {
    var n := |items| - 1;
    var front := items[..n];
    if b < |Firsts(front)| {
      p := FirstsOrdered(front, a, b);
    } else {
      FirstsAreKeys(front, Firsts(items)[a]);
      FirstsAreKeys(front, Firsts(items)[b]);
      p :| p < |front| && ResourceKey(front[p]) == Firsts(items)[a];
    }
    assert forall q :: 0 <= q <= p ==> items[q] == front[q];
  }

  /** Keeping all rows keeps them as they are. Merging by resource leaves no two rows with the same
      namespace and uid, one for each resource of the input in order of first occurrence, and each is
      the input's last row of it. */
  lemma MergeMeans(items: seq<Item>)
    ensures MergedBy(KeepAll, items) == items
    ensures var out := MergedBy(ByResourceUID, items);
      && (forall i, j :: 0 <= i < j < |out| ==> !SameResource(out[i], out[j]) && Before(items, out[i], out[j]))
      && (forall x :: x in items ==> exists i :: 0 <= i < |out| && SameResource(out[i], x))
      && (forall i :: 0 <= i < |out| ==> exists m: nat :: IsLast(items, out[i], m) && items[m] == out[i])
  {
    var out := Merged(items);
    FirstsDistinct(items);
    forall x | x in items ensures exists i :: 0 <= i < |out| && SameResource(out[i], x) {
      FirstsAreKeys(items, ResourceKey(x));
      var j :| 0 <= j < |items| && items[j] == x;
      var i :| 0 <= i < |Firsts(items)| && Firsts(items)[i] == ResourceKey(x);
      assert ResourceKey(out[i]) == ResourceKey(x);
      assert SameResource(out[i], x);
    }
    forall i | 0 <= i < |out| ensures exists m: nat :: IsLast(items, out[i], m) && items[m] == out[i] {
      var m := LastOfIsLast(items, Firsts(items)[i]);
      assert IsLast(items, out[i], m);
    }
    forall i, j | 0 <= i < j < |out| ensures !SameResource(out[i], out[j]) && Before(items, out[i], out[j]) {
      assert ResourceKey(out[i]) == Firsts(items)[i] && ResourceKey(out[j]) == Firsts(items)[j];
      var p := FirstsOrdered(items, i, j);
      assert SameResource(items[p], out[i]) && forall q :: 0 <= q <= p ==> !SameResource(items[q], out[j]);
    }
  }
}
