/** Splitting an export into bounded multipart envelopes. */
module Partition {
  import opened Options
  import opened Sorting
  import opened Envelope

  datatype PartitionError = EncodeFailed | ItemTooLarge

  datatype Result<+T> = Ok(value: T) | Err(error: PartitionError)

  datatype EnvelopePartition = EnvelopePartition(
    index: nat, total: nat, itemCount: nat, checksum: string, envelope: string)

  type Groups = seq<seq<Item>>

  function Flatten(gs: Groups): seq<Item> {
    if gs == [] then [] else gs[0] + Flatten(gs[1..])
  }

  /** Marker width reserved while the number of parts is unknown. */
  function Reserved(meta: Metadata, n: nat): Metadata {
    meta.(partIndex := n, partTotal := n)
  }

  /** The size test the greedy loop applies to a candidate group. */
  function FitsReserved(c: Codec, n: nat, meta: Metadata, maxBytes: int): seq<Item> -> bool {
    s => |Marshal(c, s, Reserved(meta, n))| <= maxBytes
  }

  /** The greedy loop from a partly filled group; None when some single item is too large. */
  function Greedy(fits: seq<Item> -> bool, current: seq<Item>, rest: seq<Item>): Option<Groups>
    decreases |rest|
  {
    if rest == [] then Some(if current == [] then [] else [current])
    else if fits(current + [rest[0]]) then Greedy(fits, current + [rest[0]], rest[1..])
    else if current == [] || !fits([rest[0]]) then None
    else match Greedy(fits, [rest[0]], rest[1..])
         case None => None
         case Some(gs) => Some([current] + gs)
  }

  function ItemGroups(c: Codec, sorted: seq<Item>, meta: Metadata, maxBytes: int): Result<Groups> {
    if maxBytes <= 0 || |Marshal(c, sorted, meta)| <= maxBytes then Ok([sorted])
    else if sorted == [] then Ok([[]])
    else match Greedy(FitsReserved(c, |sorted|, meta, maxBytes), [], sorted)
         case None => Err(ItemTooLarge)
         case Some(gs) => Ok(gs)
  }

  /** stableItems: the items in the order of their JSON texts. */
  function Stable(c: Codec, items: seq<Item>): seq<Item> {
    SortBy(item => Text(c, item), items)
  }

  /** Part i of total: marked only when the set is genuinely multipart. */
  function PartMeta(meta: Metadata, i: nat, total: nat): Metadata {
    if total > 1 then meta.(partIndex := i + 1, partTotal := total) else meta
  }

  function Part(c: Codec, group: seq<Item>, meta: Metadata, i: nat, total: nat): EnvelopePartition {
    EnvelopePartition(i + 1, total, |group|, ItemsFingerprint(c, group), Marshal(c, group, PartMeta(meta, i, total)))
  }

  /******* The loops of the source *******/

  method StableItems(c: Codec, items: seq<Item>) returns (r: Result<seq<Item>>)
    ensures r == if Encodable(c, items) then Ok(Stable(c, items)) else Err(EncodeFailed)
  {
    for i := 0 to |items|
      invariant Encodable(c, items[..i])
    {
      if c.encode(items[i]).None? {
        return Err(EncodeFailed);
      }
      assert items[..i + 1] == items[..i] + [items[i]];
    }
    assert items[..|items|] == items;
    r := Ok(Stable(c, items));
  }

  /** groups, then whatever the greedy loop makes of the rest. */
  ghost function Continue(groups: Groups, more: Option<Groups>): Option<Groups> {
    if more.Some? then Some(groups + more.value) else None
  }

  method GreedyGroups(fits: seq<Item> -> bool, sorted: seq<Item>) returns (r: Option<Groups>)
    ensures r == Greedy(fits, [], sorted)
  {
    var groups: Groups := [];
    var current := [];
    assert sorted[0..] == sorted;
    assert forall gs: Groups :: [] + gs == gs;
    for i := 0 to |sorted|
      invariant i > 0 ==> current != []
      invariant Continue(groups, Greedy(fits, current, sorted[i..])) == Greedy(fits, [], sorted)
    {
      ghost var rest := sorted[i..];
      assert rest[0] == sorted[i] && rest[1..] == sorted[i + 1..];
      var candidate := current + [sorted[i]];
      if fits(candidate) {
        current := candidate;
        continue;
      }
      if |current| == 0 {
        return None;
      }
      ghost var more := Greedy(fits, [sorted[i]], rest[1..]);
      assert more.Some? ==> groups + ([current] + more.value) == (groups + [current]) + more.value;
      groups := groups + [current];
      current := [sorted[i]];
      if !fits(current) {
        return None;
      }
    }
    r := Some(if |current| > 0 then groups + [current] else groups);
  }

  method PartitionItemGroups(c: Codec, sorted: seq<Item>, meta: Metadata, maxBytes: int) returns (r: Result<Groups>)
    ensures r == ItemGroups(c, sorted, meta, maxBytes)
  {
    if maxBytes <= 0 || |Marshal(c, sorted, meta)| <= maxBytes {
      return Ok([sorted]);
    }
    if sorted == [] {
      return Ok([[]]);
    }
    var groups := GreedyGroups(FitsReserved(c, |sorted|, meta, maxBytes), sorted);
    r := if groups.Some? then Ok(groups.value) else Err(ItemTooLarge);
  }

  method MakePart(c: Codec, group: seq<Item>, meta: Metadata, i: nat, total: nat) returns (part: EnvelopePartition)
    ensures part == Part(c, group, meta, i, total)
  {
    var partMeta := meta;
    if total > 1 {
      partMeta := partMeta.(partIndex := i + 1, partTotal := total);
    }
    var payload := Marshal(c, group, partMeta);
    part := EnvelopePartition(i + 1, total, |group|, ItemsFingerprint(c, group), payload);
  }

  method MakeParts(c: Codec, groups: Groups, meta: Metadata) returns (parts: seq<EnvelopePartition>)
    ensures parts == PartsOf(c, groups, meta)
  {
    parts := [];
    for i := 0 to |groups|
      invariant parts == PartsOf(c, groups, meta)[..i]
    {
      var part := MakePart(c, groups[i], meta, i, |groups|);
      parts := parts + [part];
    }
  }

  method PartitionEnvelopes(c: Codec, items: seq<Item>, meta: Metadata, maxBytes: int)
    returns (r: Result<seq<EnvelopePartition>>)
    ensures r == Partitioned(c, items, meta, maxBytes)
  {
    var sorted := StableItems(c, items);
    if sorted.Err? {
      return Err(sorted.error);
    }
    var groups := PartitionItemGroups(c, sorted.value, meta, maxBytes);
    if groups.Err? {
      return Err(groups.error);
    }
    var parts := MakeParts(c, groups.value, meta);
    r := Ok(parts);
  }

  ghost function PartsOf(c: Codec, gs: Groups, meta: Metadata): seq<EnvelopePartition> {
    seq(|gs|, i requires 0 <= i < |gs| => Part(c, gs[i], meta, i, |gs|))
  }

  ghost function Partitioned(c: Codec, items: seq<Item>, meta: Metadata, maxBytes: int): Result<seq<EnvelopePartition>> {
    if !Encodable(c, items) then Err(EncodeFailed)
    else match ItemGroups(c, Stable(c, items), meta, maxBytes)
         case Err(e) => Err(e)
         case Ok(gs) => Ok(PartsOf(c, gs, meta))
  }

  function ChecksumLines(parts: seq<EnvelopePartition>): string {
    if parts == [] then "" else parts[0].checksum + "\n" + ChecksumLines(parts[1..])
  }

  method PartitionsChecksum(c: Codec, parts: seq<EnvelopePartition>) returns (digest: string)
    ensures digest == c.hash(ChecksumLines(parts))
  {
    var sum := "";
    assert parts[0..] == parts;
    for i := 0 to |parts|
      invariant sum + ChecksumLines(parts[i..]) == ChecksumLines(parts)
    {
      assert parts[i..][0] == parts[i] && parts[i..][1..] == parts[i + 1..];
      sum := sum + parts[i].checksum + "\n";
    }
    assert sum + "" == sum;
    digest := c.hash(sum);
  }
}
