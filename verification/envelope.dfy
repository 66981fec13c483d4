/** The export envelope, as the bytes MarshalExportEnvelope writes. A string stands for its UTF-8
    bytes. The JSON text of an item and SHA-256 are parameters (Codec). */
module Envelope {
  import opened Options
  import opened Sorting
  import opened Strings

  datatype Item = Item(
    targetNamespace: string, targetName: string, namespace: string, name: string,
    group: string, version: string, kind: string, uid: string, attributes: string)

  /** encode: json.Marshal of one item, None when it fails. quote: json.Marshal of a string. */
  datatype Codec = Codec(encode: Item -> Option<string>, hash: string -> string, quote: string -> string)

  /** exportedAt is the formatted, non-zero export time. */
  datatype Metadata = Metadata(generation: int, cluster: string, exportedAt: string, partIndex: nat, partTotal: nat)

  /******* Decimal numbers *******/

  function Digit(n: nat): char
    requires n < 10
  {
    '0' + n as char
  }

  function Decimal(n: nat): string {
    if n < 10 then [Digit(n)] else Decimal(n / 10) + [Digit(n % 10)]
  }

  function Signed(n: int): string {
    if n < 0 then "-" + Decimal(-n) else Decimal(n)
  }

  lemma {:induction false} DecimalWidthMonotone(m: nat, n: nat)
    requires m <= n
    ensures 0 < |Decimal(m)| <= |Decimal(n)|
  {
    if n >= 10 {
      if m >= 10 { DecimalWidthMonotone(m / 10, n / 10); } else { DecimalWidthMonotone(0, n / 10); }
    }
  }

  /******* Items *******/

  ghost predicate Encodable(c: Codec, items: seq<Item>) {
    forall i :: 0 <= i < |items| ==> c.encode(items[i]).Some?
  }

  function Text(c: Codec, item: Item): string {
    match c.encode(item) case Some(t) => t case None => ""
  }

  function KeyFields(item: Item): seq<string> {
    [item.targetNamespace, item.targetName, item.namespace, item.name,
     item.uid, item.group, item.version, item.kind]
  }

  function CanonicalKey(item: Item): string {
    Joined(KeyFields(item))
  }

  ghost predicate NulFreeItem(item: Item) {
    forall i :: 0 <= i < 8 ==> NulFree(KeyFields(item)[i])
  }

  /** Items with the same canonical key agree on target, object and kind: all but the attributes. */
  lemma CanonicalKeyInjective(i: Item, j: Item)
    requires NulFreeItem(i) && NulFreeItem(j) && CanonicalKey(i) == CanonicalKey(j)
    ensures i == j.(attributes := i.attributes)
  {
    var a, b := KeyFields(i), KeyFields(j);
    JoinedInjective(a, b);
    assert a[0] == b[0] && a[1] == b[1] && a[2] == b[2] && a[3] == b[3] &&
           a[4] == b[4] && a[5] == b[5] && a[6] == b[6] && a[7] == b[7];
  }

  /** Field by field: the first field that differs decides. */
  predicate FieldsLe(a: seq<string>, b: seq<string>)
    requires |a| == |b| > 0
  {
    if |a| > 1 && a[0] == b[0] then FieldsLe(a[1..], b[1..]) else LexLe(a[0], b[0])
  }

  /** NUL sorts before every other character, so a separator ends a shorter field in order. */
  lemma {:induction false} NulOrder(x: string, s: string, y: string, t: string)
    requires NulFree(x) && NulFree(y)
    ensures LexLe(x + NUL + s, y + NUL + t) <==> if x == y then LexLe(s, t) else LexLe(x, y)
  {
    var a, b := x + NUL + s, y + NUL + t;
    if x != [] && y != [] && x[0] == y[0] {
      assert a[1..] == x[1..] + NUL + s && b[1..] == y[1..] + NUL + t;
      assert x == [x[0]] + x[1..] && y == [y[0]] + y[1..];
      NulOrder(x[1..], s, y[1..], t);
    } else if x == [] && y == [] {
      assert a[1..] == s && b[1..] == t;
    } else if x == [] {
      assert y[0] in y && y[0] != 0 as char;
    } else if y == [] {
      assert x[0] in x && x[0] != 0 as char;
    }
  }

  /** The order of the joined keys is that of the fields. */
  lemma {:induction false} JoinedOrder(a: seq<string>, b: seq<string>)
    requires |a| == |b| > 0 && forall i :: 0 <= i < |a| ==> NulFree(a[i]) && NulFree(b[i])
    ensures LexLe(Joined(a), Joined(b)) <==> FieldsLe(a, b)
  {
    if |a| > 1 {
      NulOrder(a[0], Joined(a[1..]), b[0], Joined(b[1..]));
      JoinedOrder(a[1..], b[1..]);
    }
  }

  function CanonicalItems(items: seq<Item>): seq<Item> {
    SortBy(CanonicalKey, items)
  }

  /** Canonical items are the items, ordered by target, object, UID and kind, in that order of fields. */
  lemma CanonicalOrder(items: seq<Item>, i: nat, j: nat)
    requires i < j < |items| && forall x :: x in items ==> NulFreeItem(x)
    ensures multiset(CanonicalItems(items)) == multiset(items) && |CanonicalItems(items)| == |items|
    ensures var x, y := CanonicalItems(items)[i], CanonicalItems(items)[j];
      FieldsLe([x.targetNamespace, x.targetName, x.namespace, x.name, x.uid, x.group, x.version, x.kind],
               [y.targetNamespace, y.targetName, y.namespace, y.name, y.uid, y.group, y.version, y.kind])
  {
    SortBySorts(CanonicalKey, items);
    var sorted := CanonicalItems(items);
    assert |multiset(sorted)| == |sorted| && |multiset(items)| == |items|;
    assert sorted[i] in multiset(items) && sorted[j] in multiset(items);
    KeyOrder(sorted[i], sorted[j]);
  }

  lemma KeyOrder(x: Item, y: Item)
    requires NulFreeItem(x) && NulFreeItem(y)
    ensures LexLe(CanonicalKey(x), CanonicalKey(y)) <==> FieldsLe(KeyFields(x), KeyFields(y))
  {
    JoinedOrder(KeyFields(x), KeyFields(y));
  }

  /** The rest of a JSON array after an element. */
  function ArrayTail(c: Codec, items: seq<Item>): string {
    if items == [] then "]" else "," + Text(c, items[0]) + ArrayTail(c, items[1..])
  }

  function ItemsJson(c: Codec, items: seq<Item>): string {
    if items == [] then "[]" else "[" + Text(c, items[0]) + ArrayTail(c, items[1..])
  }

  function ItemsFingerprint(c: Codec, items: seq<Item>): string {
    c.hash(ItemsJson(c, CanonicalItems(items)))
  }

  /******* The document *******/

  function Pair(name: string, value: string): string {
    "\"" + name + "\":" + value
  }

  /** A further member of the object. */
  function Field(name: string, value: string): string {
    "," + Pair(name, value)
  }

  function OptionalNumber(name: string, n: int): string {
    if n == 0 then "" else Field(name, Signed(n))
  }

  function Marker(meta: Metadata): string {
    OptionalNumber("partIndex", meta.partIndex) + OptionalNumber("partTotal", meta.partTotal)
  }

  const SCHEMA_VERSION: string := "kollect.dev/v1alpha1"

  function ClusterField(c: Codec, meta: Metadata): string {
    if meta.cluster == "" then "" else Field("cluster", c.quote(meta.cluster))
  }

  function Marshal(c: Codec, items: seq<Item>, meta: Metadata): string {
    "{" + (Pair("schemaVersion", "\"" + SCHEMA_VERSION + "\"")
    + (Field("checksum", "\"" + ItemsFingerprint(c, items) + "\"")
    + (OptionalNumber("generation", meta.generation)
    + (Marker(meta)
    + (Field("itemCount", Decimal(|items|))
    + (Field("exportedAt", "\"" + meta.exportedAt + "\"")
    + (ClusterField(c, meta)
    + (Field("items", ItemsJson(c, CanonicalItems(items))) + "}"))))))))
  }

  predicate HexDigit(c: char) {
    '0' <= c <= '9' || 'a' <= c <= 'f'
  }

  /** Digests are 64 hex digits, as for SHA-256. */
  ghost predicate Hex64(c: Codec) {
    && (forall s :: |c.hash(s)| == 64)
    && forall s, i :: 0 <= i < |c.hash(s)| ==> HexDigit(c.hash(s)[i])
  }

  /******* Size *******/

  function TextSize(c: Codec, items: seq<Item>): nat {
    if items == [] then 0 else |Text(c, items[0])| + TextSize(c, items[1..])
  }

  /** Bytes of the items array: the texts, a comma between two of them, the brackets. */
  function ArraySize(c: Codec, items: seq<Item>): nat {
    TextSize(c, items) + (if items == [] then 2 else |items| + 1)
  }

  function FixedSize(c: Codec, meta: Metadata): nat {
    39 + 14 + 64 + |OptionalNumber("generation", meta.generation)| + 13 + 16 + |meta.exportedAt|
    + (if meta.cluster == "" then 0 else 11 + |c.quote(meta.cluster)|) + 9 + 1
  }

  lemma {:induction false} ArrayTailSize(c: Codec, items: seq<Item>)
    ensures |ArrayTail(c, items)| == TextSize(c, items) + |items| + 1
  {
    if items != [] { ArrayTailSize(c, items[1..]); }
  }

  lemma {:induction false} InsertSize(c: Codec, key: Item -> string, x: Item, s: seq<Item>)
    ensures TextSize(c, Insert(key, x, s)) == |Text(c, x)| + TextSize(c, s)
    ensures |Insert(key, x, s)| == |s| + 1
  {
    var r := Insert(key, x, s);
    if s == [] || LexLe(key(x), key(s[0])) {
      assert r[1..] == s;
    } else {
      InsertSize(c, key, x, s[1..]);
      assert r[1..] == Insert(key, x, s[1..]);
    }
  }

  lemma {:induction false} SortSize(c: Codec, key: Item -> string, s: seq<Item>)
    ensures TextSize(c, SortBy(key, s)) == TextSize(c, s) && |SortBy(key, s)| == |s|
  {
    if s != [] {
      SortSize(c, key, s[1..]);
      InsertSize(c, key, s[0], SortBy(key, s[1..]));
    }
  }

  /** The size of an envelope: a constant for the header, the decimal widths of the markers and of
      the item count, and the items array. */
  lemma MarshalSize(c: Codec, items: seq<Item>, meta: Metadata)
    requires Hex64(c)
    ensures |Marshal(c, items, meta)| == FixedSize(c, meta) + |Marker(meta)| + |Decimal(|items|)| + ArraySize(c, items)
  {
    SortSize(c, CanonicalKey, items);
    var canonical := CanonicalItems(items);
    if canonical != [] { ArrayTailSize(c, canonical[1..]); }
    assert |ItemsJson(c, canonical)| == ArraySize(c, items);
    assert |ItemsFingerprint(c, items)| == 64;
  }

  lemma {:induction false} TextSizeConcat(c: Codec, a: seq<Item>, b: seq<Item>)
    ensures TextSize(c, a + b) == TextSize(c, a) + TextSize(c, b)
  {
    if a == [] {
      assert a + b == b;
    } else {
      assert (a + b)[1..] == a[1..] + b;
      TextSizeConcat(c, a[1..], b);
    }
  }

  lemma TextSizeSlice(c: Codec, s: seq<Item>, lo: nat, hi: nat)
    requires lo <= hi <= |s|
    ensures TextSize(c, s[lo..hi]) <= TextSize(c, s)
  {
    assert s == s[..lo] + (s[lo..hi] + s[hi..]);
    TextSizeConcat(c, s[..lo], s[lo..hi] + s[hi..]);
    TextSizeConcat(c, s[lo..hi], s[hi..]);
  }

  /** Dropping items from either end never makes an envelope larger. */
  lemma MarshalSizeSlice(c: Codec, s: seq<Item>, lo: nat, hi: nat, meta: Metadata)
    requires Hex64(c) && lo <= hi <= |s|
    ensures |Marshal(c, s[lo..hi], meta)| <= |Marshal(c, s, meta)|
  {
    MarshalSize(c, s, meta);
    MarshalSize(c, s[lo..hi], meta);
    TextSizeSlice(c, s, lo, hi);
    DecimalWidthMonotone(hi - lo, |s|);
  }

  /** Larger marker numbers never make an envelope smaller, and no marker is smallest. */
  lemma MarshalSizeMarker(c: Codec, s: seq<Item>, meta: Metadata, i: nat, total: nat, n: nat)
    requires Hex64(c) && (i == total == 0 || 0 < i <= total) && total <= n && 0 < n
    ensures |Marshal(c, s, meta.(partIndex := i, partTotal := total))|
         <= |Marshal(c, s, meta.(partIndex := n, partTotal := n))|
  {
    MarshalSize(c, s, meta.(partIndex := i, partTotal := total));
    MarshalSize(c, s, meta.(partIndex := n, partTotal := n));
    DecimalWidthMonotone(i, n);
    DecimalWidthMonotone(total, n);
  }
}
