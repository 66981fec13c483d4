/** A reader of envelope bytes: it scans the top-level members of the JSON object, knowing nothing of
    how the writer lays them out, and gives back every number and string that was written. */
module EnvelopeReader {
  import opened Options
  import opened Envelope

  /** Raw: a value that is neither a number nor a string, with all that follows it. */
  datatype Value = Number(n: int) | Quoted(body: string) | Raw(text: string)

  datatype Member = Member(name: string, value: Value)

  predicate IsDigit(c: char) {
    '0' <= c <= '9'
  }

  function DigitsLength(s: string): (n: nat)
    ensures n <= |s|
  {
    if s != [] && IsDigit(s[0]) then 1 + DigitsLength(s[1..]) else 0
  }

  /** The number that decimal digits denote, most significant first. */
  function DigitsValue(s: string): int {
    if s == [] then 0 else 10 * DigitsValue(s[..|s| - 1]) + (s[|s| - 1] as int - '0' as int)
  }

  /** The length of a string body: up to the first quote that no backslash escapes. */
  function BodyLength(s: string): (n: nat)
    ensures n <= |s|
  {
    if s == [] || s[0] == '"' then 0
    else if s[0] == '\\' && |s| > 1 then 2 + BodyLength(s[2..])
    else 1 + BodyLength(s[1..])
  }

  function ReadString(s: string): (r: (Value, nat))
    requires s != []
    ensures r.1 <= |s|
  {
    var n := BodyLength(s[1..]);
    (Quoted(s[1..1 + n]), if n + 2 <= |s| then n + 2 else |s|)
  }

  function ReadNumber(s: string): (r: (Value, nat))
    requires s != []
    ensures r.1 <= |s|
  {
    var sign := if s[0] == '-' then 1 else 0;
    var n := DigitsLength(s[sign..]);
    var value := DigitsValue(s[sign..sign + n]);
    (Number(if s[0] == '-' then -value else value), sign + n)
  }

  /** One value at the start of s, and how many characters it takes. */
  function ReadValue(s: string): (r: (Value, nat))
    ensures r.1 <= |s|
  {
    if s != [] && s[0] == '"' then ReadString(s)
    else if s != [] && (s[0] == '-' || IsDigit(s[0])) then ReadNumber(s)
    else (Raw(s), |s|)
  }

  /** The first member of an object text in which a comma precedes every member, and what follows it. */
  function ReadFirst(s: string): (r: Option<(Member, string)>)
    ensures r.Some? ==> |r.value.1| < |s|
  {
    if |s| < 2 || s[0] != ',' || s[1] != '"' then None
    else
      var n := BodyLength(s[2..]);
      if |s| < n + 4 || s[n + 3] != ':' then None
      else
        var v := ReadValue(s[n + 4..]);
        Some((Member(s[2..n + 2], v.0), s[n + 4..][v.1..]))
  }

  function ReadMembers(s: string): seq<Member>
    decreases |s|
  {
    match ReadFirst(s)
    case None => []
    case Some(first) => [first.0] + ReadMembers(first.1)
  }

  function Read(doc: string): seq<Member> {
    if doc == [] || doc[0] != '{' then [] else ReadMembers("," + doc[1..])
  }

  /** The first member of that name. */
  function Find(members: seq<Member>, name: string): Option<Value> {
    if members == [] then None
    else if members[0].name == name then Some(members[0].value)
    else Find(members[1..], name)
  }

  /******* Reading numbers back *******/

  lemma {:induction false} DecimalIsDigits(n: nat)
    ensures |Decimal(n)| > 0 && forall i :: 0 <= i < |Decimal(n)| ==> IsDigit(Decimal(n)[i])
    ensures DigitsValue(Decimal(n)) == n
  {
    if n >= 10 {
      DecimalIsDigits(n / 10);
      var d := Decimal(n);
      assert d[..|d| - 1] == Decimal(n / 10) && d[|d| - 1] == Digit(n % 10);
    } else {
      assert Decimal(n)[..0] == [];
    }
  }

  predicate EndsNumber(tail: string) {
    tail == [] || !IsDigit(tail[0])
  }

  lemma {:induction false} DigitsStop(d: string, tail: string)
    requires (forall i :: 0 <= i < |d| ==> IsDigit(d[i])) && EndsNumber(tail)
    ensures DigitsLength(d + tail) == |d|
  {
    if d == [] {
      assert d + tail == tail;
    } else {
      assert (d + tail)[1..] == d[1..] + tail;
      DigitsStop(d[1..], tail);
    }
  }

  lemma ReadSigned(n: int, tail: string)
    requires EndsNumber(tail)
    ensures ReadValue(Signed(n) + tail) == (Number(n), |Signed(n)|)
  {
    var d := Decimal(if n < 0 then -n else n);
    DecimalIsDigits(if n < 0 then -n else n);
    DigitsStop(d, tail);
    SignedNumber(d, tail, n);
  }

  lemma SignedNumber(d: string, tail: string, n: int)
    requires d != [] && IsDigit(d[0]) && DigitsLength(d + tail) == |d|
    requires DigitsValue(d) == if n < 0 then -n else n
    ensures var s := if n < 0 then "-" + d else d;
      ReadValue(s + tail) == (Number(n), |s|)
  {
    if n < 0 {
      var s := "-" + d + tail;
      assert s[1..] == d + tail;
      assert s[1..1 + |d|] == d;
    } else {
      var s := d + tail;
      assert s[0..] == s && s[0..0 + |d|] == d;
    }
  }

  /******* Reading strings back *******/

  /** A string body that the closing quote ends: every quote in it is escaped. */
  predicate Closed(body: string) {
    if body == [] then true
    else if body[0] == '"' then false
    else if body[0] == '\\' then |body| > 1 && Closed(body[2..])
    else Closed(body[1..])
  }

  lemma {:induction false} BodyStops(body: string, tail: string)
    requires Closed(body)
    ensures BodyLength(body + "\"" + tail) == |body|
    decreases |body|
  {
    var s := body + "\"" + tail;
    if body != [] {
      if body[0] == '\\' {
        assert s[2..] == body[2..] + "\"" + tail;
        BodyStops(body[2..], tail);
      } else {
        assert s[1..] == body[1..] + "\"" + tail;
        BodyStops(body[1..], tail);
      }
    }
  }

  lemma ReadQuoted(body: string, tail: string)
    requires Closed(body)
    ensures ReadValue("\"" + body + "\"" + tail) == (Quoted(body), |body| + 2)
  {
    var rest := body + "\"" + tail;
    BodyStops(body, tail);
    assert "\"" + body + "\"" + tail == "\"" + rest;
    StringBody(body, rest);
  }

  lemma StringBody(body: string, rest: string)
    requires BodyLength(rest) == |body| < |rest| && rest[..|body|] == body
    ensures ReadValue("\"" + rest) == (Quoted(body), |body| + 2)
  {
    var s := "\"" + rest;
    assert s[1..] == rest;
    assert s[1..1 + |body|] == rest[..|body|];
  }

  /** No quote and no backslash. */
  predicate Plain(s: string) {
    '"' !in s && '\\' !in s
  }

  lemma {:induction false} PlainClosed(s: string)
    requires Plain(s)
    ensures Closed(s)
  {
    if s != [] { PlainClosed(s[1..]); }
  }

  lemma {:induction false} HexPlain(s: string)
    requires forall i :: 0 <= i < |s| ==> HexDigit(s[i])
    ensures Plain(s)
  {
    if s != [] { HexPlain(s[1..]); }
  }

  /******* Reading members back *******/

  lemma FieldParts(name: string, value: string, tail: string)
    requires Closed(name)
    ensures var s, n := Field(name, value) + tail, |name|;
      && |s| >= n + 4 && s[0] == ',' && s[1] == '"' && BodyLength(s[2..]) == n && s[n + 3] == ':'
      && s[2..n + 2] == name && s[n + 4..] == value + tail
  {
    var s := Field(name, value) + tail;
    assert s[2..] == name + "\"" + (":" + value + tail);
    BodyStops(name, ":" + value + tail);
  }

  lemma ReadMember(s: string, n: nat, v: Value, m: nat)
    requires |s| >= n + 4 && s[0] == ',' && s[1] == '"' && BodyLength(s[2..]) == n && s[n + 3] == ':'
    requires ReadValue(s[n + 4..]) == (v, m)
    ensures ReadFirst(s) == Some((Member(s[2..n + 2], v), s[n + 4..][m..]))
  {
  }

  lemma ReadField(name: string, value: string, v: Value, tail: string)
    requires Closed(name) && ReadValue(value + tail) == (v, |value|)
    ensures ReadMembers(Field(name, value) + tail) == [Member(name, v)] + ReadMembers(tail)
  {
    FieldParts(name, value, tail);
    ReadMember(Field(name, value) + tail, |name|, v, |value|);
    assert (value + tail)[|value|..] == tail;
  }

  /** What may follow a member: another one, or the end. */
  predicate Follows(tail: string) {
    tail != [] && (tail[0] == ',' || tail[0] == '}')
  }

  /** A member as written: its text, and the value that text reads as whatever may follow it. */
  datatype Written = Written(name: string, text: string, value: Value)

  ghost predicate Readable(w: Written) {
    Plain(w.name) && forall tail :: Follows(tail) ==> ReadValue(w.text + tail) == (w.value, |w.text|)
  }

  function Render(ws: seq<Written>): string {
    if ws == [] then "" else Field(ws[0].name, ws[0].text) + Render(ws[1..])
  }

  function MembersOf(ws: seq<Written>): seq<Member> {
    seq(|ws|, i requires 0 <= i < |ws| => Member(ws[i].name, ws[i].value))
  }

  lemma RenderFollows(ws: seq<Written>, tail: string)
    requires Follows(tail)
    ensures Follows(Render(ws) + tail)
  {
    if ws != [] { assert (Render(ws) + tail)[0] == ','; }
  }

  ghost predicate AllReadable(ws: seq<Written>) {
    forall i :: 0 <= i < |ws| ==> Readable(ws[i])
  }

  /** The scanner takes one such member at a time. */
  ghost predicate Scans(read: string -> seq<Member>, ok: Written -> bool) {
    forall w, tail :: ok(w) && Follows(tail) ==>
      read(Field(w.name, w.text) + tail) == [Member(w.name, w.value)] + read(tail)
  }

  lemma ReaderScans()
    ensures Scans(s => ReadMembers(s), w => Readable(w))
  {
    forall w, tail | Readable(w) && Follows(tail)
      ensures ReadMembers(Field(w.name, w.text) + tail) == [Member(w.name, w.value)] + ReadMembers(tail)
    {
      PlainClosed(w.name);
      ReadField(w.name, w.text, w.value, tail);
    }
  }

  lemma Associative(a: string, b: string, c: string)
    ensures (a + b) + c == a + (b + c)
  {
  }

  /** Members are read back one after the other. */
  lemma {:induction false} RenderReads(read: string -> seq<Member>, ok: Written -> bool, ws: seq<Written>, tail: string)
    requires Scans(read, ok) && Follows(tail) && forall i :: 0 <= i < |ws| ==> ok(ws[i])
    ensures read(Render(ws) + tail) == MembersOf(ws) + read(tail)
    decreases |ws|
  {
    if ws == [] {
      assert Render(ws) + tail == tail;
    } else {
      var w, rest := ws[0], ws[1..];
      RenderReads(read, ok, rest, tail);
      RenderFollows(rest, tail);
      Associative(Field(w.name, w.text), Render(rest), tail);
      assert ok(w);
      assert MembersOf(ws) == [Member(w.name, w.value)] + MembersOf(rest);
    }
  }

  lemma {:induction false} RenderConcat(a: seq<Written>, b: seq<Written>)
    ensures Render(a + b) == Render(a) + Render(b)
  {
    if a == [] {
      assert a + b == b;
    } else {
      assert (a + b)[1..] == a[1..] + b;
      RenderConcat(a[1..], b);
    }
  }

  lemma RenderOne(w: Written)
    ensures Render([w]) == Field(w.name, w.text)
  {
    assert [w][1..] == [] && Field(w.name, w.text) + "" == Field(w.name, w.text);
  }

  /******* The whole document *******/

  /** What json.Marshal writes between the quotes of a string. */
  ghost predicate Quotes(c: Codec, body: string -> string) {
    forall s :: c.quote(s) == "\"" + body(s) + "\"" && Closed(body(s))
  }

  function WrittenNumber(name: string, n: int): Written {
    Written(name, Signed(n), Number(n))
  }

  function WrittenString(name: string, body: string): Written {
    Written(name, "\"" + body + "\"", Quoted(body))
  }

  function Optional(name: string, n: int): seq<Written> {
    if n == 0 then [] else [WrittenNumber(name, n)]
  }

  lemma NumberReadable(name: string, n: int)
    requires Plain(name)
    ensures Readable(WrittenNumber(name, n))
  {
    forall tail | Follows(tail) ensures ReadValue(Signed(n) + tail) == (Number(n), |Signed(n)|) { ReadSigned(n, tail); }
  }

  lemma StringReadable(name: string, body: string)
    requires Plain(name) && Closed(body)
    ensures Readable(WrittenString(name, body))
  {
    var text := "\"" + body + "\"";
    forall tail | Follows(tail) ensures ReadValue(text + tail) == (Quoted(body), |text|) {
      ReadQuoted(body, tail);
      assert text + tail == "\"" + body + "\"" + tail;
    }
  }

  function Cluster(meta: Metadata, body: string -> string): seq<Written> {
    if meta.cluster == "" then [] else [WrittenString("cluster", body(meta.cluster))]
  }

  /** Everything before the items: checksum, optional numbers, count, time, optional cluster. */
  ghost function Header(c: Codec, items: seq<Item>, meta: Metadata, body: string -> string): seq<Written> {
    First(c, items)
    + (Optional("generation", meta.generation) + (Optional("partIndex", meta.partIndex)
    + (Optional("partTotal", meta.partTotal) + (Last(items, meta) + Cluster(meta, body)))))
  }

  function ItemsTail(c: Codec, items: seq<Item>): string {
    Field("items", ItemsJson(c, CanonicalItems(items))) + "}"
  }

  lemma OptionalRenders(name: string, n: int)
    ensures Render(Optional(name, n)) == OptionalNumber(name, n)
  {
    if n != 0 { RenderOne(WrittenNumber(name, n)); }
  }

  lemma ClusterRenders(c: Codec, meta: Metadata, body: string -> string)
    requires Quotes(c, body)
    ensures Render(Cluster(meta, body)) == ClusterField(c, meta)
  {
    if meta.cluster != "" { RenderOne(WrittenString("cluster", body(meta.cluster))); }
  }

  lemma PairRenders(v: Written, w: Written)
    ensures Render([v, w]) == Field(v.name, v.text) + Field(w.name, w.text)
  {
    assert [v, w][1..] == [w];
    RenderOne(w);
  }

  lemma RenderSix(a: seq<Written>, b: seq<Written>, c: seq<Written>, d: seq<Written>, e: seq<Written>, f: seq<Written>)
    ensures Render(a + (b + (c + (d + (e + f))))) == Render(a) + (Render(b) + (Render(c) + (Render(d) + (Render(e) + Render(f)))))
  {
    RenderConcat(a, b + (c + (d + (e + f))));
    RenderConcat(b, c + (d + (e + f)));
    RenderConcat(c, d + (e + f));
    RenderConcat(d, e + f);
    RenderConcat(e, f);
  }

  function First(c: Codec, items: seq<Item>): seq<Written> {
    [WrittenString("schemaVersion", SCHEMA_VERSION), WrittenString("checksum", ItemsFingerprint(c, items))]
  }

  function Last(items: seq<Item>, meta: Metadata): seq<Written> {
    [WrittenNumber("itemCount", |items|), WrittenString("exportedAt", meta.exportedAt)]
  }

  lemma FirstRenders(c: Codec, items: seq<Item>)
    ensures Render(First(c, items)) ==
      Field("schemaVersion", "\"" + SCHEMA_VERSION + "\"") + Field("checksum", "\"" + ItemsFingerprint(c, items) + "\"")
  {
    PairRenders(First(c, items)[0], First(c, items)[1]);
  }

  lemma LastRenders(items: seq<Item>, meta: Metadata)
    ensures Render(Last(items, meta)) ==
      Field("itemCount", Decimal(|items|)) + Field("exportedAt", "\"" + meta.exportedAt + "\"")
  {
    PairRenders(Last(items, meta)[0], Last(items, meta)[1]);
  }

  lemma ReadableConcat(a: seq<Written>, b: seq<Written>)
    requires AllReadable(a) && AllReadable(b)
    ensures AllReadable(a + b)
  {
  }

  lemma PlainReadable(name: string, body: string)
    requires Plain(name) && Plain(body)
    ensures Readable(WrittenString(name, body))
  {
    PlainClosed(body);
    StringReadable(name, body);
  }

  lemma PairReadable(v: Written, w: Written)
    requires Readable(v) && Readable(w)
    ensures AllReadable([v, w])
  {
  }

  lemma FirstReadable(c: Codec, items: seq<Item>)
    requires Hex64(c)
    ensures AllReadable(First(c, items))
  {
    PlainNames();
    HexPlain(ItemsFingerprint(c, items));
    PlainReadable("schemaVersion", SCHEMA_VERSION);
    PlainReadable("checksum", ItemsFingerprint(c, items));
    PairReadable(First(c, items)[0], First(c, items)[1]);
  }

  lemma LastReadable(items: seq<Item>, meta: Metadata)
    requires Plain(meta.exportedAt)
    ensures AllReadable(Last(items, meta))
  {
    PlainNames();
    NumberReadable("itemCount", |items|);
    PlainReadable("exportedAt", meta.exportedAt);
    PairReadable(Last(items, meta)[0], Last(items, meta)[1]);
  }

  lemma OptionalReadable(name: string, n: int)
    requires Plain(name)
    ensures AllReadable(Optional(name, n))
  {
    NumberReadable(name, n);
  }

  lemma ClusterReadable(c: Codec, meta: Metadata, body: string -> string)
    requires Quotes(c, body)
    ensures AllReadable(Cluster(meta, body))
  {
    PlainNames();
    StringReadable("cluster", body(meta.cluster));
  }

  lemma HeaderReadable(c: Codec, items: seq<Item>, meta: Metadata, body: string -> string)
    requires Hex64(c) && Quotes(c, body) && Plain(meta.exportedAt)
    ensures AllReadable(Header(c, items, meta, body))
  {
    var g, i, t := Optional("generation", meta.generation), Optional("partIndex", meta.partIndex), Optional("partTotal", meta.partTotal);
    var last, end := Last(items, meta), Cluster(meta, body);
    PlainNames();
    FirstReadable(c, items);
    LastReadable(items, meta);
    ClusterReadable(c, meta, body);
    OptionalReadable("generation", meta.generation);
    OptionalReadable("partIndex", meta.partIndex);
    OptionalReadable("partTotal", meta.partTotal);
    ReadableSix(First(c, items), g, i, t, last, end);
  }

  lemma ReadableSix(a: seq<Written>, b: seq<Written>, c: seq<Written>, d: seq<Written>, e: seq<Written>, f: seq<Written>)
    requires AllReadable(a) && AllReadable(b) && AllReadable(c) && AllReadable(d) && AllReadable(e) && AllReadable(f)
    ensures AllReadable(a + (b + (c + (d + (e + f)))))
  {
    ReadableConcat(e, f);
    ReadableConcat(d, e + f);
    ReadableConcat(c, d + (e + f));
    ReadableConcat(b, c + (d + (e + f)));
    ReadableConcat(a, b + (c + (d + (e + f))));
  }

  lemma ReadArray(name: string, json: string)
    requires Plain(name) && json != [] && json[0] == '['
    ensures ReadMembers(Field(name, json) + "}") == [Member(name, Raw(json + "}"))]
  {
    PlainClosed(name);
    FieldParts(name, json, "}");
    var text := json + "}";
    ReadMember(Field(name, json) + "}", |name|, Raw(text), |text|);
    assert text[|text|..] == [];
  }

  /** The names of the members need no escaping. */
  lemma PlainNames()
    ensures Plain("schemaVersion") && Plain("checksum") && Plain("generation") && Plain("partIndex") && Plain("partTotal")
    ensures Plain("itemCount") && Plain("exportedAt") && Plain("cluster") && Plain("items") && Plain(SCHEMA_VERSION)
  {
    PlainFirstNames();
    PlainMarkerNames();
    PlainLastNames();
  }

  lemma PlainFirstNames()
    ensures Plain("schemaVersion") && Plain(SCHEMA_VERSION) && Plain("checksum")
  {
  }

  lemma PlainMarkerNames()
    ensures Plain("generation") && Plain("partIndex") && Plain("partTotal")
  {
  }

  lemma PlainLastNames()
    ensures Plain("itemCount") && Plain("exportedAt") && Plain("cluster") && Plain("items")
  {
  }

  lemma ReadItemsTail(c: Codec, items: seq<Item>)
    ensures ReadMembers(ItemsTail(c, items)) == [Member("items", Raw(ItemsJson(c, CanonicalItems(items)) + "}"))]
    ensures Follows(ItemsTail(c, items))
  {
    PlainNames();
    ReadArray("items", ItemsJson(c, CanonicalItems(items)));
  }

  lemma FirstMember(name: string, value: string, rest: string)
    ensures "," + ("{" + (Pair(name, value) + rest))[1..] == Field(name, value) + rest
  {
    Associative(",", Pair(name, value), rest);
    assert ("{" + (Pair(name, value) + rest))[1..] == Pair(name, value) + rest;
  }

  /** Eight pieces, grouped to the right as the writer does and as the header renders. */
  lemma Regroup(a: string, b: string, g: string, i: string, t: string, n: string, e: string, k: string, tail: string)
    ensures a + (b + (g + ((i + t) + (n + (e + (k + tail)))))) ==
            ((a + b) + (g + (i + (t + ((n + e) + k))))) + tail
  {
  }

  /** The document is its header, without the comma before the first member, and the items. */
  lemma MarshalIsHeader(c: Codec, items: seq<Item>, meta: Metadata, body: string -> string)
    requires Quotes(c, body)
    ensures Marshal(c, items, meta) != [] && Marshal(c, items, meta)[0] == '{'
    ensures "," + Marshal(c, items, meta)[1..] == Render(Header(c, items, meta, body)) + ItemsTail(c, items)
  {
    HeaderRenders(c, items, meta, body);
    var g, i, t := OptionalNumber("generation", meta.generation), OptionalNumber("partIndex", meta.partIndex),
                   OptionalNumber("partTotal", meta.partTotal);
    var checksum, count, time := Field("checksum", "\"" + ItemsFingerprint(c, items) + "\""),
                                 Field("itemCount", Decimal(|items|)), Field("exportedAt", "\"" + meta.exportedAt + "\"");
    var tail, k := ItemsTail(c, items), ClusterField(c, meta);
    FirstMember("schemaVersion", "\"" + SCHEMA_VERSION + "\"", checksum + (g + ((i + t) + (count + (time + (k + tail))))));
    Regroup(Field("schemaVersion", "\"" + SCHEMA_VERSION + "\""), checksum, g, i, t, count, time, k, tail);
  }

  lemma HeaderRenders(c: Codec, items: seq<Item>, meta: Metadata, body: string -> string)
    requires Quotes(c, body)
    ensures Render(Header(c, items, meta, body)) ==
      (Field("schemaVersion", "\"" + SCHEMA_VERSION + "\"") + Field("checksum", "\"" + ItemsFingerprint(c, items) + "\""))
      + (OptionalNumber("generation", meta.generation) + (OptionalNumber("partIndex", meta.partIndex)
      + (OptionalNumber("partTotal", meta.partTotal)
      + ((Field("itemCount", Decimal(|items|)) + Field("exportedAt", "\"" + meta.exportedAt + "\"")) + ClusterField(c, meta)))))
  {
    RenderSix(First(c, items), Optional("generation", meta.generation), Optional("partIndex", meta.partIndex),
              Optional("partTotal", meta.partTotal), Last(items, meta), Cluster(meta, body));
    FirstRenders(c, items);
    LastRenders(items, meta);
    OptionalRenders("generation", meta.generation);
    OptionalRenders("partIndex", meta.partIndex);
    OptionalRenders("partTotal", meta.partTotal);
    ClusterRenders(c, meta, body);
  }

  /** Reading a document gives back every member that was written, with its own name, in order. */
  lemma ReadBack(c: Codec, items: seq<Item>, meta: Metadata, body: string -> string)
    requires Hex64(c) && Quotes(c, body) && Plain(meta.exportedAt)
    ensures Read(Marshal(c, items, meta)) ==
      MembersOf(Header(c, items, meta, body)) + [Member("items", Raw(ItemsJson(c, CanonicalItems(items)) + "}"))]
  {
    MarshalIsHeader(c, items, meta, body);
    HeaderReadable(c, items, meta, body);
    ReaderScans();
    ReadItemsTail(c, items);
    RenderReads(s => ReadMembers(s), w => Readable(w), Header(c, items, meta, body), ItemsTail(c, items));
  }

  /******* Looking a member up *******/

  lemma {:induction false} FindConcat(a: seq<Member>, b: seq<Member>, name: string)
    ensures Find(a + b, name) == if Find(a, name).Some? then Find(a, name) else Find(b, name)
  {
    if a == [] {
      assert a + b == b;
    } else {
      assert (a + b)[1..] == a[1..] + b;
      FindConcat(a[1..], b, name);
    }
  }

  lemma MembersConcat(a: seq<Written>, b: seq<Written>)
    ensures MembersOf(a + b) == MembersOf(a) + MembersOf(b)
  {
  }

  function FindWritten(ws: seq<Written>, name: string): Option<Value> {
    Find(MembersOf(ws), name)
  }

  function Or(a: Option<Value>, b: Option<Value>): Option<Value> {
    if a.Some? then a else b
  }

  lemma FindWrittenConcat(a: seq<Written>, b: seq<Written>, name: string)
    ensures FindWritten(a + b, name) == Or(FindWritten(a, name), FindWritten(b, name))
  {
    MembersConcat(a, b);
    FindConcat(MembersOf(a), MembersOf(b), name);
  }

  lemma FindSix(a: seq<Written>, b: seq<Written>, c: seq<Written>, d: seq<Written>, e: seq<Written>, f: seq<Written>, name: string)
    ensures FindWritten(a + (b + (c + (d + (e + f)))), name) ==
      Or(FindWritten(a, name), Or(FindWritten(b, name), Or(FindWritten(c, name),
         Or(FindWritten(d, name), Or(FindWritten(e, name), FindWritten(f, name))))))
  {
    FindWrittenConcat(a, b + (c + (d + (e + f))), name);
    FindWrittenConcat(b, c + (d + (e + f)), name);
    FindWrittenConcat(c, d + (e + f), name);
    FindWrittenConcat(d, e + f, name);
    FindWrittenConcat(e, f, name);
  }

  lemma FindOne(w: Written, name: string)
    ensures FindWritten([w], name) == if w.name == name then Some(w.value) else None
  {
    var ms := MembersOf([w]);
    assert ms[1..] == [];
    assert Find(ms[1..], name) == None;
  }

  lemma FindPair(v: Written, w: Written, name: string)
    ensures FindWritten([v, w], name) == if v.name == name then Some(v.value) else if w.name == name then Some(w.value) else None
  {
    FindOne(v, name);
    FindOne(w, name);
    assert [v, w] == [v] + [w];
    FindWrittenConcat([v], [w], name);
  }

  lemma FindOptional(key: string, n: int, name: string)
    ensures FindWritten(Optional(key, n), name) == if n != 0 && key == name then Some(Number(n)) else None
  {
    if n != 0 { FindOne(WrittenNumber(key, n), name); }
  }

  lemma FindCluster(meta: Metadata, body: string -> string, name: string)
    ensures FindWritten(Cluster(meta, body), name) ==
      if meta.cluster != "" && "cluster" == name then Some(Quoted(body(meta.cluster))) else None
  {
    if meta.cluster != "" { FindOne(WrittenString("cluster", body(meta.cluster)), name); }
  }

  /** What the header says under a name. */
  lemma FindHeader(c: Codec, items: seq<Item>, meta: Metadata, body: string -> string, name: string)
    ensures FindWritten(Header(c, items, meta, body), name) ==
      Or(if "schemaVersion" == name then Some(Quoted(SCHEMA_VERSION))
         else if "checksum" == name then Some(Quoted(ItemsFingerprint(c, items))) else None,
      Or(if meta.generation != 0 && "generation" == name then Some(Number(meta.generation)) else None,
      Or(if meta.partIndex != 0 && "partIndex" == name then Some(Number(meta.partIndex)) else None,
      Or(if meta.partTotal != 0 && "partTotal" == name then Some(Number(meta.partTotal)) else None,
      Or(if "itemCount" == name then Some(Number(|items|))
         else if "exportedAt" == name then Some(Quoted(meta.exportedAt)) else None,
         if meta.cluster != "" && "cluster" == name then Some(Quoted(body(meta.cluster))) else None)))))
  {
    FindSix(First(c, items), Optional("generation", meta.generation), Optional("partIndex", meta.partIndex),
            Optional("partTotal", meta.partTotal), Last(items, meta), Cluster(meta, body), name);
    FindPair(First(c, items)[0], First(c, items)[1], name);
    FindOptional("generation", meta.generation, name);
    FindOptional("partIndex", meta.partIndex, name);
    FindOptional("partTotal", meta.partTotal, name);
    FindPair(Last(items, meta)[0], Last(items, meta)[1], name);
    FindCluster(meta, body, name);
  }

  /** What a reader finds in the document under a name. */
  function Lookup(doc: string, name: string): Option<Value> {
    Find(Read(doc), name)
  }

  lemma LookupHeader(c: Codec, items: seq<Item>, meta: Metadata, body: string -> string, name: string)
    requires Hex64(c) && Quotes(c, body) && Plain(meta.exportedAt)
    ensures Lookup(Marshal(c, items, meta), name) ==
      Or(FindWritten(Header(c, items, meta, body), name),
         if "items" == name then Some(Raw(ItemsJson(c, CanonicalItems(items)) + "}")) else None)
  {
    ReadBack(c, items, meta, body);
    var tail := [Member("items", Raw(ItemsJson(c, CanonicalItems(items)) + "}"))];
    FindConcat(MembersOf(Header(c, items, meta, body)), tail, name);
    assert tail[1..] == [];
  }

  const NAMES: seq<string> :=
    ["schemaVersion", "checksum", "generation", "partIndex", "partTotal", "itemCount", "exportedAt", "cluster", "items"]

  /** No two member names are the same. */
  lemma NamesDiffer(i: nat, j: nat)
    requires i < j < 9
    ensures NAMES[i] != NAMES[j]
  {
    if |NAMES[i]| == |NAMES[j]| {
      assert (i, j) == (2, 6) || (i, j) == (3, 4) || (i, j) == (3, 5) || (i, j) == (4, 5);
      assert "partIndex"[4] != "partTotal"[4] && "partIndex"[0] != "itemCount"[0] && "partTotal"[0] != "itemCount"[0];
      assert "generation"[0] != "exportedAt"[0];
    }
  }

  lemma NameIsOnly(n: nat)
    requires n < 9
    ensures ("schemaVersion" == NAMES[n] <==> n == 0) && ("checksum" == NAMES[n] <==> n == 1)
    ensures ("generation" == NAMES[n] <==> n == 2) && ("partIndex" == NAMES[n] <==> n == 3)
    ensures ("partTotal" == NAMES[n] <==> n == 4) && ("itemCount" == NAMES[n] <==> n == 5)
    ensures ("exportedAt" == NAMES[n] <==> n == 6) && ("cluster" == NAMES[n] <==> n == 7) && ("items" == NAMES[n] <==> n == 8)
  {
    forall m: nat | m < 9 && m != n ensures NAMES[m] != NAMES[n] {
      if m < n { NamesDiffer(m, n); } else { NamesDiffer(n, m); }
    }
  }

  /** What the document says under the n-th name. */
  ghost function Says(c: Codec, items: seq<Item>, meta: Metadata, body: string -> string, n: nat): Option<Value>
    requires n < 9
  {
    if n == 0 then Some(Quoted(SCHEMA_VERSION))
    else if n == 1 then Some(Quoted(ItemsFingerprint(c, items)))
    else if n == 2 then (if meta.generation == 0 then None else Some(Number(meta.generation)))
    else if n == 3 then (if meta.partIndex == 0 then None else Some(Number(meta.partIndex)))
    else if n == 4 then (if meta.partTotal == 0 then None else Some(Number(meta.partTotal)))
    else if n == 5 then Some(Number(|items|))
    else if n == 6 then Some(Quoted(meta.exportedAt))
    else if n == 7 then (if meta.cluster == "" then None else Some(Quoted(body(meta.cluster))))
    else Some(Raw(ItemsJson(c, CanonicalItems(items)) + "}"))
  }

  /** Each of the nine members reads back as what was put in under that name, or as absent. */
  lemma DocumentSays(c: Codec, items: seq<Item>, meta: Metadata, body: string -> string, n: nat)
    requires Hex64(c) && Quotes(c, body) && Plain(meta.exportedAt) && n < 9
    ensures Lookup(Marshal(c, items, meta), NAMES[n]) == Says(c, items, meta, body, n)
  {
    var name := NAMES[n];
    NameIsOnly(n);
    LookupHeader(c, items, meta, body, name);
    FindHeader(c, items, meta, body, name);
  }

  /** The document says under their own names its place in the set, the number and the checksum of its
      items, and the generation; a number that is zero is not there at all. */
  lemma DocumentReads(c: Codec, items: seq<Item>, meta: Metadata, body: string -> string)
    requires Hex64(c) && Quotes(c, body) && Plain(meta.exportedAt)
    ensures var doc := Marshal(c, items, meta);
      && Lookup(doc, "checksum") == Some(Quoted(ItemsFingerprint(c, items)))
      && Lookup(doc, "generation") == (if meta.generation == 0 then None else Some(Number(meta.generation)))
      && Lookup(doc, "partIndex") == (if meta.partIndex == 0 then None else Some(Number(meta.partIndex)))
      && Lookup(doc, "partTotal") == (if meta.partTotal == 0 then None else Some(Number(meta.partTotal)))
      && Lookup(doc, "itemCount") == Some(Number(|items|))
  {
    DocumentSays(c, items, meta, body, 1);
    DocumentSays(c, items, meta, body, 2);
    DocumentSays(c, items, meta, body, 3);
    DocumentSays(c, items, meta, body, 4);
    DocumentSays(c, items, meta, body, 5);
  }

  /******* The items array *******/

  function Texts(c: Codec, items: seq<Item>): seq<string> {
    seq(|items|, i requires 0 <= i < |items| => Text(c, items[i]))
  }

  function CommaSeparated(texts: seq<string>): string {
    if texts == [] then ""
    else if |texts| == 1 then texts[0]
    else CommaSeparated(texts[..|texts| - 1]) + "," + texts[|texts| - 1]
  }

  lemma {:induction false} TailIsSeparated(c: Codec, items: seq<Item>, head: seq<string>)
    requires head != []
    ensures CommaSeparated(head) + ArrayTail(c, items) == CommaSeparated(head + Texts(c, items)) + "]"
    decreases |items|
  {
    if items == [] {
      assert head + Texts(c, items) == head;
    } else {
      var t := Text(c, items[0]);
      var more := head + [t];
      assert more[..|more| - 1] == head;
      TailIsSeparated(c, items[1..], more);
      assert head + Texts(c, items) == more + Texts(c, items[1..]);
      assert CommaSeparated(head) + ArrayTail(c, items) == CommaSeparated(more) + ArrayTail(c, items[1..]);
    }
  }

  /** The array is the items' own texts, in order, separated by commas. */
  lemma ArrayIsTexts(c: Codec, items: seq<Item>)
    ensures ItemsJson(c, items) == "[" + CommaSeparated(Texts(c, items)) + "]"
  {
    if items != [] {
      TailIsSeparated(c, items[1..], [Text(c, items[0])]);
      assert [Text(c, items[0])] + Texts(c, items[1..]) == Texts(c, items);
      assert ItemsJson(c, items) == "[" + (Text(c, items[0]) + ArrayTail(c, items[1..]));
    }
  }
}
