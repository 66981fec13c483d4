/** What the partitioner guarantees for every item list and every ceiling. */
module PartitionTheorems {
  import opened Options
  import opened Sorting
  import opened Envelope
  import opened Partition
  import opened EnvelopeReader

  /******* The greedy split, for any size test that slices keep *******/

  /** A slice of a group that fits also fits. */
  ghost predicate SliceClosed(fits: seq<Item> -> bool) {
    forall s: seq<Item>, lo: nat, hi: nat :: lo <= hi <= |s| && fits(s) ==> fits(s[lo..hi])
  }

  ghost predicate AllFit(fits: seq<Item> -> bool, gs: Groups) {
    forall i :: 0 <= i < |gs| ==> fits(gs[i])
  }

  lemma {:induction false} GreedyCovers(fits: seq<Item> -> bool, current: seq<Item>, rest: seq<Item>)
    requires current == [] || fits(current)
    ensures var r := Greedy(fits, current, rest);
      r.Some? ==> Flatten(r.value) == current + rest && AllFit(fits, r.value) &&
                  forall i :: 0 <= i < |r.value| ==> r.value[i] != []
    decreases |rest|
  {
    if rest != [] {
      var x, more := rest[0], rest[1..];
      assert rest == [x] + more;
      if fits(current + [x]) {
        GreedyCovers(fits, current + [x], more);
        assert current + [x] + more == current + rest;
      } else if current != [] && fits([x]) {
        GreedyCovers(fits, [x], more);
        var r := Greedy(fits, [x], more);
        if r.Some? { assert ([current] + r.value)[1..] == r.value; }
      }
    } else if current != [] {
      assert Flatten([current]) == current + Flatten([]);
    }
  }

  /** It gives up exactly when some item does not fit alone. */
  lemma {:induction false} GreedyFailsExactly(fits: seq<Item> -> bool, current: seq<Item>, rest: seq<Item>)
    requires SliceClosed(fits)
    ensures Greedy(fits, current, rest).None? <==> exists i :: 0 <= i < |rest| && !fits([rest[i]])
    decreases |rest|
  {
    if rest != [] {
      var x, more := rest[0], rest[1..];
      assert forall i :: 0 <= i < |more| ==> more[i] == rest[i + 1];
      if fits(current + [x]) {
        assert (current + [x])[|current|..|current| + 1] == [x];
        GreedyFailsExactly(fits, current + [x], more);
      } else if fits([x]) {
        assert current == [] ==> current + [x] == [x];
        GreedyFailsExactly(fits, [x], more);
      }
      assert (exists i :: 0 <= i < |rest| && !fits([rest[i]])) <==>
             !fits([x]) || exists i :: 0 <= i < |more| && !fits([more[i]]);
    }
  }

  /** A split without its first n items: whole groups go, one group is trimmed. */
  function DropItems(gs: Groups, n: nat): Groups
    requires n <= |Flatten(gs)|
    decreases |gs|
  {
    if n == 0 then gs
    else if n < |gs[0]| then [gs[0][n..]] + gs[1..]
    else DropItems(gs[1..], n - |gs[0]|)
  }

  lemma {:induction false} DropItemsSplits(fits: seq<Item> -> bool, gs: Groups, n: nat)
    requires SliceClosed(fits) && AllFit(fits, gs) && n <= |Flatten(gs)|
    ensures Flatten(DropItems(gs, n)) == Flatten(gs)[n..]
    ensures AllFit(fits, DropItems(gs, n)) && |DropItems(gs, n)| <= |gs|
    decreases |gs|
  {
    if n > 0 {
      if n < |gs[0]| {
        assert gs[0][n..] == gs[0][n..|gs[0]|];
        var d := [gs[0][n..]] + gs[1..];
        assert d[1..] == gs[1..];
      } else {
        DropItemsSplits(fits, gs[1..], n - |gs[0]|);
      }
    }
  }

  /** Another split has a longer first group only if one more item fits. */
  lemma LongerFirstGroup(fits: seq<Item> -> bool, current: seq<Item>, rest: seq<Item>, other: Groups)
    requires SliceClosed(fits) && AllFit(fits, other) && Flatten(other) == current + rest
    requires other != [] && |other[0]| > |current|
    ensures rest != [] && fits(current + [rest[0]])
  {
    assert other[0] == (current + rest)[..|other[0]|];
    assert other[0][0..|current| + 1] == current + [rest[0]];
  }

  /** No split into groups that all fit is shorter than the greedy one. */
  lemma {:induction false} GreedyOptimal(fits: seq<Item> -> bool, current: seq<Item>, rest: seq<Item>, other: Groups)
    requires SliceClosed(fits) && AllFit(fits, other) && Flatten(other) == current + rest
    ensures var r := Greedy(fits, current, rest); r.Some? ==> |r.value| <= |other|
    decreases |rest|
  {
    if rest == [] {
      if current != [] { assert other != []; }
      return;
    }
    var x, more := rest[0], rest[1..];
    assert rest == [x] + more;
    if fits(current + [x]) {
      assert current + [x] + more == current + rest;
      GreedyOptimal(fits, current + [x], more, other);
    } else if current != [] && fits([x]) {
      assert other != [];
      if |other[0]| > |current| { LongerFirstGroup(fits, current, rest, other); assert false; }
      var n := |current| - |other[0]|;
      assert Flatten(other[1..]) == Flatten(other)[|other[0]|..];
      DropItemsSplits(fits, other[1..], n);
      assert Flatten(DropItems(other[1..], n)) == rest;
      GreedyOptimal(fits, [x], more, DropItems(other[1..], n));
    }
  }

  /******* The size test of the source *******/

  lemma ReservedSliceClosed(c: Codec, n: nat, meta: Metadata, maxBytes: int)
    requires Hex64(c)
    ensures SliceClosed(FitsReserved(c, n, meta, maxBytes))
  {
    forall s: seq<Item>, lo: nat, hi: nat | lo <= hi <= |s| && FitsReserved(c, n, meta, maxBytes)(s)
      ensures FitsReserved(c, n, meta, maxBytes)(s[lo..hi])
    {
      MarshalSizeSlice(c, s, lo, hi, Reserved(meta, n));
    }
  }

  /******* Main results *******/

  ghost predicate Marked(meta: Metadata) {
    meta.partIndex != 0 || meta.partTotal != 0
  }

  /** On success the parts hold every item exactly once, in stable order; each persisted envelope,
      with its real marker digits, is within the ceiling; a split set has at least two parts,
      marked 1..total, and a lone part is the markerless document. */
  lemma PartitionSound(c: Codec, items: seq<Item>, meta: Metadata, maxBytes: int) returns (gs: Groups)
    requires Hex64(c) && items != [] && maxBytes > 0 && !Marked(meta)
    requires Partitioned(c, items, meta, maxBytes).Ok?
    ensures Partitioned(c, items, meta, maxBytes).value == PartsOf(c, gs, meta)
    ensures Flatten(gs) == Stable(c, items) && multiset(Flatten(gs)) == multiset(items)
    ensures forall i :: 0 <= i < |gs| ==> gs[i] != [] && |PartsOf(c, gs, meta)[i].envelope| <= maxBytes
    ensures |gs| >= 1 && (|gs| == 1 <==> |Marshal(c, Stable(c, items), meta)| <= maxBytes)
    ensures forall i :: 0 <= i < |gs| ==>
      PartsOf(c, gs, meta)[i].envelope ==
      Marshal(c, gs[i], if |gs| > 1 then meta.(partIndex := i + 1, partTotal := |gs|) else meta)
  {
    var sorted := Stable(c, items);
    gs := ItemGroups(c, sorted, meta, maxBytes).value;
    StablePermutes(c, items);
    GroupsSound(c, sorted, meta, maxBytes, gs);
    forall i | 0 <= i < |gs|
      ensures PartsOf(c, gs, meta)[i].envelope ==
              Marshal(c, gs[i], if |gs| > 1 then meta.(partIndex := i + 1, partTotal := |gs|) else meta)
    {
      PartEnvelope(c, gs, meta, i);
    }
  }

  lemma PartEnvelope(c: Codec, gs: Groups, meta: Metadata, i: nat)
    requires i < |gs|
    ensures PartsOf(c, gs, meta)[i].envelope ==
            Marshal(c, gs[i], if |gs| > 1 then meta.(partIndex := i + 1, partTotal := |gs|) else meta)
  {
  }

  lemma GroupsSound(c: Codec, sorted: seq<Item>, meta: Metadata, maxBytes: int, gs: Groups)
    requires Hex64(c) && sorted != [] && maxBytes > 0 && !Marked(meta)
    requires ItemGroups(c, sorted, meta, maxBytes) == Ok(gs)
    ensures Flatten(gs) == sorted && |gs| >= 1 && (|gs| == 1 <==> |Marshal(c, sorted, meta)| <= maxBytes)
    ensures forall i :: 0 <= i < |gs| ==> gs[i] != [] && |PartsOf(c, gs, meta)[i].envelope| <= maxBytes
  {
    if |Marshal(c, sorted, meta)| <= maxBytes {
      assert Flatten(gs) == sorted + Flatten([]);
    } else {
      MultipartBounded(c, sorted, meta, maxBytes, gs);
    }
  }

  /** Read back from its bytes, part i of several says that it is part i + 1 of that many and a lone part
      says nothing of parts; every part says the count and the checksum of its own items, and the
      generation; and the record kept beside the bytes says the same. */
  lemma PartsReadBack(c: Codec, gs: Groups, meta: Metadata, body: string -> string, i: nat)
    requires Hex64(c) && Quotes(c, body) && Plain(meta.exportedAt) && !Marked(meta) && i < |gs|
    ensures var part := PartsOf(c, gs, meta)[i];
      && Lookup(part.envelope, "partIndex") == (if |gs| == 1 then None else Some(Number(i + 1)))
      && Lookup(part.envelope, "partTotal") == (if |gs| == 1 then None else Some(Number(|gs|)))
      && Lookup(part.envelope, "itemCount") == Some(Number(|gs[i]|))
      && Lookup(part.envelope, "checksum") == Some(Quoted(part.checksum))
      && Lookup(part.envelope, "generation") == (if meta.generation == 0 then None else Some(Number(meta.generation)))
      && part.index == i + 1 && part.total == |gs| && part.itemCount == |gs[i]|
      && part.checksum == c.hash("[" + CommaSeparated(Texts(c, CanonicalItems(gs[i]))) + "]")
  {
    DocumentReads(c, gs[i], PartMeta(meta, i, |gs|), body);
    ArrayIsTexts(c, CanonicalItems(gs[i]));
  }

  /** A document that is over the ceiling without markers is over it with reserved ones. */
  lemma WholeDoesNotFit(c: Codec, sorted: seq<Item>, meta: Metadata, maxBytes: int)
    requires Hex64(c) && sorted != [] && !Marked(meta) && |Marshal(c, sorted, meta)| > maxBytes
    ensures !FitsReserved(c, |sorted|, meta, maxBytes)(sorted)
  {
    MarshalSizeMarker(c, sorted, meta, 0, 0, |sorted|);
    assert meta.(partIndex := 0, partTotal := 0) == meta;
  }

  lemma PartWithinCeiling(c: Codec, gs: Groups, meta: Metadata, maxBytes: int, n: nat, i: nat)
    requires Hex64(c) && i < |gs| <= n && |gs| > 1 && FitsReserved(c, n, meta, maxBytes)(gs[i])
    ensures |PartsOf(c, gs, meta)[i].envelope| <= maxBytes
  {
    MarshalSizeMarker(c, gs[i], meta, i + 1, |gs|, n);
  }

  /** When the whole does not fit, the greedy split has at least two groups and at most one per item. */
  lemma GreedySplits(fits: seq<Item> -> bool, sorted: seq<Item>, gs: Groups)
    requires sorted != [] && !fits(sorted) && Greedy(fits, [], sorted) == Some(gs)
    ensures Flatten(gs) == sorted && 2 <= |gs| <= |sorted| && AllFit(fits, gs)
    ensures forall i :: 0 <= i < |gs| ==> gs[i] != []
  {
    GreedyCovers(fits, [], sorted);
    NonEmptyGroups(gs);
    assert [] + sorted == sorted;
    assert gs != [] && fits(gs[0]);
    LoneGroup(gs);
  }

  lemma LoneGroup(gs: Groups)
    requires gs != []
    ensures |gs| == 1 ==> Flatten(gs) == gs[0]
  {
    assert gs[1..] == [] ==> gs[0] + Flatten(gs[1..]) == gs[0];
  }

  lemma StablePermutes(c: Codec, items: seq<Item>)
    ensures multiset(Stable(c, items)) == multiset(items) && |Stable(c, items)| == |items|
    ensures forall x :: x in Stable(c, items) <==> x in items
  {
    var sorted := Stable(c, items);
    SortBySorts(item => Text(c, item), items);
    assert |multiset(sorted)| == |sorted| && |multiset(items)| == |items|;
    assert forall x :: x in sorted <==> x in multiset(sorted);
    assert forall x :: x in items <==> x in multiset(items);
  }

  lemma MultipartBounded(c: Codec, sorted: seq<Item>, meta: Metadata, maxBytes: int, gs: Groups)
    requires Hex64(c) && sorted != [] && !Marked(meta) && |Marshal(c, sorted, meta)| > maxBytes
    requires Greedy(FitsReserved(c, |sorted|, meta, maxBytes), [], sorted) == Some(gs)
    ensures Flatten(gs) == sorted && |gs| >= 2
    ensures forall i :: 0 <= i < |gs| ==> gs[i] != [] && |PartsOf(c, gs, meta)[i].envelope| <= maxBytes
  {
    var fits := FitsReserved(c, |sorted|, meta, maxBytes);
    WholeDoesNotFit(c, sorted, meta, maxBytes);
    GreedySplits(fits, sorted, gs);
    forall i | 0 <= i < |gs| ensures |PartsOf(c, gs, meta)[i].envelope| <= maxBytes {
      PartWithinCeiling(c, gs, meta, maxBytes, |sorted|, i);
    }
  }

  lemma {:induction false} NonEmptyGroups(gs: Groups)
    requires forall i :: 0 <= i < |gs| ==> gs[i] != []
    ensures |gs| <= |Flatten(gs)|
  {
    if gs != [] { NonEmptyGroups(gs[1..]); }
  }

  /** Success and failure, exactly: it fails when an item has no JSON, or when the whole document is
      over the ceiling and so is some item alone under the reserved marker. */
  lemma PartitionFailsExactly(c: Codec, items: seq<Item>, meta: Metadata, maxBytes: int)
    requires Hex64(c)
    ensures var sorted := Stable(c, items);
      Partitioned(c, items, meta, maxBytes).Err? <==>
      !Encodable(c, items) ||
      (maxBytes > 0 && |Marshal(c, sorted, meta)| > maxBytes &&
       exists x :: x in items && |Marshal(c, [x], Reserved(meta, |items|))| > maxBytes)
  {
    var sorted := Stable(c, items);
    StablePermutes(c, items);
    ReservedSliceClosed(c, |sorted|, meta, maxBytes);
    GreedyFailsExactly(FitsReserved(c, |sorted|, meta, maxBytes), [], sorted);
  }

  /** Without a ceiling, or without items, there is one part: all items in stable order. */
  lemma UnboundedIsOnePart(c: Codec, items: seq<Item>, meta: Metadata, maxBytes: int)
    requires Encodable(c, items) && (maxBytes <= 0 || items == [])
    ensures Partitioned(c, items, meta, maxBytes) == Ok(PartsOf(c, [Stable(c, items)], meta))
  {
  }

  /** No contiguous split of the stable order whose reserved-marker envelopes all fit has fewer parts. */
  lemma PartitionOptimal(c: Codec, items: seq<Item>, meta: Metadata, maxBytes: int, other: Groups)
    requires Hex64(c) && Partitioned(c, items, meta, maxBytes).Ok? && items != []
    requires Flatten(other) == Stable(c, items)
    requires forall i :: 0 <= i < |other| ==> |Marshal(c, other[i], Reserved(meta, |items|))| <= maxBytes
    ensures |Partitioned(c, items, meta, maxBytes).value| <= |other|
  {
    var sorted := Stable(c, items);
    StablePermutes(c, items);
    assert other != [];
    ReservedSliceClosed(c, |sorted|, meta, maxBytes);
    GreedyOptimal(FitsReserved(c, |sorted|, meta, maxBytes), [], sorted, other);
  }

  /******* Order independence *******/

  /** Items with the same JSON text are the same item. */
  ghost predicate TextsDistinguish(c: Codec, items: seq<Item>) {
    Distinguishes(item => Text(c, item), items)
  }

  /** The parts, bytes and checksums included, and so their digest, do not depend on the order in
      which the items are handed in. */
  lemma PartitionOrderIndependent(c: Codec, items: seq<Item>, shuffled: seq<Item>, meta: Metadata, maxBytes: int)
    requires multiset(items) == multiset(shuffled) && TextsDistinguish(c, items)
    ensures Partitioned(c, items, meta, maxBytes) == Partitioned(c, shuffled, meta, maxBytes)
  {
    SortOrderIndependent(item => Text(c, item), items, shuffled);
    assert Encodable(c, items) <==> forall x :: x in multiset(items) ==> c.encode(x).Some?;
    assert Encodable(c, shuffled) <==> forall x :: x in multiset(shuffled) ==> c.encode(x).Some?;
  }

  /** The content fingerprint is order independent when the canonical keys tell the items apart. */
  lemma FingerprintOrderIndependent(c: Codec, items: seq<Item>, shuffled: seq<Item>)
    requires multiset(items) == multiset(shuffled) && Distinguishes(CanonicalKey, items)
    ensures ItemsFingerprint(c, items) == ItemsFingerprint(c, shuffled)
  {
    SortOrderIndependent(CanonicalKey, items, shuffled);
  }

  /******* Digest injectivity *******/

  /** What JSON texts of objects satisfy: they start with a brace and none is a prefix of another
      item's text. */
  ghost predicate ObjectTexts(c: Codec) {
    && (forall x :: c.encode(x).Some? ==> Text(c, x) != "" && Text(c, x)[0] == '{')
    && (forall x, y :: c.encode(x).Some? && c.encode(y).Some? && Text(c, x) <= Text(c, y) ==> x == y)
  }

  lemma OneIsPrefix(a: string, s: string, b: string, t: string)
    requires a + s == b + t
    ensures a <= b || b <= a
  {
    if |a| <= |b| { assert a == (b + t)[..|a|]; } else { assert b == (a + s)[..|b|]; }
  }

  lemma FirstTextEqual(c: Codec, x: Item, y: Item, s: string, t: string)
    requires ObjectTexts(c) && c.encode(x).Some? && c.encode(y).Some? && Text(c, x) + s == Text(c, y) + t
    ensures x == y && s == t
  {
    var a, b := Text(c, x), Text(c, y);
    OneIsPrefix(a, s, b, t);
    assert s == (a + s)[|a|..] && t == (b + t)[|b|..];
  }

  lemma {:induction false} ArrayTailInjective(c: Codec, xs: seq<Item>, ys: seq<Item>)
    requires ObjectTexts(c) && Encodable(c, xs) && Encodable(c, ys) && ArrayTail(c, xs) == ArrayTail(c, ys)
    ensures xs == ys
  {
    assert xs != [] ==> ArrayTail(c, xs)[0] == ',';
    assert ys != [] ==> ArrayTail(c, ys)[0] == ',';
    if xs != [] && ys != [] {
      var s, t := ArrayTail(c, xs[1..]), ArrayTail(c, ys[1..]);
      assert ArrayTail(c, xs)[1..] == Text(c, xs[0]) + s;
      assert ArrayTail(c, ys)[1..] == Text(c, ys[0]) + t;
      FirstTextEqual(c, xs[0], ys[0], s, t);
      ArrayTailInjective(c, xs[1..], ys[1..]);
      assert xs == [xs[0]] + xs[1..] && ys == [ys[0]] + ys[1..];
    }
  }

  lemma ItemsJsonInjective(c: Codec, xs: seq<Item>, ys: seq<Item>)
    requires ObjectTexts(c) && Encodable(c, xs) && Encodable(c, ys) && ItemsJson(c, xs) == ItemsJson(c, ys)
    ensures xs == ys
  {
    var a, b := ItemsJson(c, xs), ItemsJson(c, ys);
    assert xs != [] ==> a[1] == '{' by { if xs != [] { assert a[1] == Text(c, xs[0])[0]; } }
    assert ys != [] ==> b[1] == '{' by { if ys != [] { assert b[1] == Text(c, ys[0])[0]; } }
    if xs != [] && ys != [] {
      assert a[1..] == Text(c, xs[0]) + ArrayTail(c, xs[1..]);
      assert b[1..] == Text(c, ys[0]) + ArrayTail(c, ys[1..]);
      FirstTextEqual(c, xs[0], ys[0], ArrayTail(c, xs[1..]), ArrayTail(c, ys[1..]));
      ArrayTailInjective(c, xs[1..], ys[1..]);
      assert xs == [xs[0]] + xs[1..] && ys == [ys[0]] + ys[1..];
    }
  }

  lemma {:induction false} ChecksumLinesInjective(ps: seq<EnvelopePartition>, qs: seq<EnvelopePartition>)
    requires forall i :: 0 <= i < |ps| ==> |ps[i].checksum| == 64
    requires forall i :: 0 <= i < |qs| ==> |qs[i].checksum| == 64
    requires ChecksumLines(ps) == ChecksumLines(qs)
    ensures |ps| == |qs| && forall i :: 0 <= i < |ps| ==> ps[i].checksum == qs[i].checksum
  {
    if ps != [] && qs != [] {
      var a, b := ps[0].checksum, qs[0].checksum;
      var s, t := ChecksumLines(ps[1..]), ChecksumLines(qs[1..]);
      assert a == ChecksumLines(ps)[..64] && b == ChecksumLines(qs)[..64];
      assert s == ChecksumLines(ps)[65..] && t == ChecksumLines(qs)[65..];
      ChecksumLinesInjective(ps[1..], qs[1..]);
      forall i | 0 <= i < |ps| ensures ps[i].checksum == qs[i].checksum {
        if i > 0 { assert ps[i] == ps[1..][i - 1] && qs[i] == qs[1..][i - 1]; }
      }
    }
  }

  lemma SliceShift(s: string, k: nat)
    requires 65 + k + 64 < |s|
    ensures s[65 + k..65 + k + 64] == s[65..][k..k + 64] && s[65 + k + 64] == s[65..][k + 64]
  {
  }

  /** The digest covers one line per part, in order: its checksum and a newline. */
  lemma {:induction false} ChecksumLinesAt(ps: seq<EnvelopePartition>, i: nat)
    requires i < |ps| && forall j :: 0 <= j < |ps| ==> |ps[j].checksum| == 64
    ensures |ChecksumLines(ps)| == 65 * |ps|
    ensures ChecksumLines(ps)[65 * i..65 * i + 64] == ps[i].checksum && ChecksumLines(ps)[65 * i + 64] == '\n'
  {
    var lines, rest := ChecksumLines(ps), ps[1..];
    assert lines == ps[0].checksum + "\n" + ChecksumLines(rest);
    if rest != [] { ChecksumLinesAt(rest, if i > 0 then i - 1 else 0); }
    if i > 0 {
      assert lines[65..] == ChecksumLines(rest);
      SliceShift(lines, 65 * (i - 1));
    }
  }

  /** No two of the texts collide under the hash. */
  ghost predicate CollisionFree(c: Codec, texts: set<string>) {
    forall x, y :: x in texts && y in texts && c.hash(x) == c.hash(y) ==> x == y
  }

  /** Everything that is hashed to digest a split. */
  ghost function HashedTexts(c: Codec, gs: Groups, meta: Metadata): set<string> {
    (set i | 0 <= i < |gs| :: ItemsJson(c, CanonicalItems(gs[i]))) + {ChecksumLines(PartsOf(c, gs, meta))}
  }

  lemma CanonicalPermutes(items: seq<Item>)
    ensures multiset(CanonicalItems(items)) == multiset(items)
  {
    SortBySorts(CanonicalKey, items);
  }

  lemma SameGroup(c: Codec, g: seq<Item>, h: seq<Item>, texts: set<string>)
    requires ObjectTexts(c) && Encodable(c, g) && Encodable(c, h) && CollisionFree(c, texts)
    requires Sorted(item => Text(c, item), g) && Sorted(item => Text(c, item), h)
    requires ItemsJson(c, CanonicalItems(g)) in texts && ItemsJson(c, CanonicalItems(h)) in texts
    requires ItemsFingerprint(c, g) == ItemsFingerprint(c, h)
    ensures g == h
  {
    CanonicalPermutes(g);
    CanonicalPermutes(h);
    EncodablePermutes(c, g, CanonicalItems(g));
    EncodablePermutes(c, h, CanonicalItems(h));
    ItemsJsonInjective(c, CanonicalItems(g), CanonicalItems(h));
    SortedUnique(item => Text(c, item), g, h);
  }

  lemma EncodablePermutes(c: Codec, s: seq<Item>, t: seq<Item>)
    requires Encodable(c, s) && multiset(s) == multiset(t)
    ensures Encodable(c, t)
  {
    forall i | 0 <= i < |t| ensures c.encode(t[i]).Some? { assert t[i] in multiset(s); }
  }

  lemma {:induction false} GroupsInherit(c: Codec, gs: Groups, i: nat)
    requires i < |gs| && Sorted(item => Text(c, item), Flatten(gs)) && Encodable(c, Flatten(gs))
    ensures Sorted(item => Text(c, item), gs[i]) && Encodable(c, gs[i])
  {
    var all, rest := Flatten(gs), Flatten(gs[1..]);
    assert all == gs[0] + rest;
    if i == 0 {
      assert forall j :: 0 <= j < |gs[0]| ==> gs[0][j] == all[j];
    } else {
      assert forall j :: 0 <= j < |rest| ==> rest[j] == all[|gs[0]| + j];
      GroupsInherit(c, gs[1..], i - 1);
    }
  }

  /** Equal digests mean the same items in the same parts, whatever ceilings the two splits used,
      unless the hash collides on one of the texts actually hashed. */
  lemma DigestDeterminesParts(c: Codec, items: seq<Item>, meta: Metadata, gs: Groups,
                              items': seq<Item>, meta': Metadata, gs': Groups)
    requires Hex64(c) && ObjectTexts(c) && Encodable(c, items) && Encodable(c, items')
    requires Flatten(gs) == Stable(c, items) && Flatten(gs') == Stable(c, items')
    requires CollisionFree(c, HashedTexts(c, gs, meta) + HashedTexts(c, gs', meta'))
    requires c.hash(ChecksumLines(PartsOf(c, gs, meta))) == c.hash(ChecksumLines(PartsOf(c, gs', meta')))
    ensures gs == gs' && multiset(items) == multiset(items')
  {
    var texts := HashedTexts(c, gs, meta) + HashedTexts(c, gs', meta');
    ChecksumLinesInjective(PartsOf(c, gs, meta), PartsOf(c, gs', meta'));
    StableReady(c, items);
    StableReady(c, items');
    forall i | 0 <= i < |gs| ensures gs[i] == gs'[i] {
      GroupsInherit(c, gs, i);
      GroupsInherit(c, gs', i);
      assert PartsOf(c, gs, meta)[i].checksum == PartsOf(c, gs', meta')[i].checksum;
      SameGroup(c, gs[i], gs'[i], texts);
    }
  }

  lemma StableReady(c: Codec, items: seq<Item>)
    requires Encodable(c, items)
    ensures Sorted(item => Text(c, item), Stable(c, items)) && Encodable(c, Stable(c, items))
    ensures multiset(Stable(c, items)) == multiset(items)
  {
    SortBySorts(item => Text(c, item), items);
    EncodablePermutes(c, items, Stable(c, items));
  }
}
