/** Removing the node addressed by a JSON pointer (RFC 6901) from a resource. */
module JsonPointer {
  import opened Options
  import opened Envelope
  import Reader = EnvelopeReader

  datatype Json = Null | Scalar(text: string) | Object(members: map<string, Json>) | Array(elems: seq<Json>)

  /******* Library calls *******/

  predicate IsSpace(c: char) {
    var n := c as int;
    || 9 <= n <= 13 || n == 0x20 || n == 0x85 || n == 0xA0 || n == 0x1680 || 0x2000 <= n <= 0x200A
    || n == 0x2028 || n == 0x2029 || n == 0x202F || n == 0x205F || n == 0x3000
  }

  function TrimLeft(s: string): string {
    if s != [] && IsSpace(s[0]) then TrimLeft(s[1..]) else s
  }

  function TrimRight(s: string): string {
    if s != [] && IsSpace(s[|s| - 1]) then TrimRight(s[..|s| - 1]) else s
  }

  function TrimSpace(s: string): string {
    TrimRight(TrimLeft(s))
  }

  /** strings.ReplaceAll for a pattern of two characters and a replacement of one. */
  function ReplaceAll(s: string, a: char, b: char, r: char): string {
    if s == [] then []
    else if |s| > 1 && s[0] == a && s[1] == b then [r] + ReplaceAll(s[2..], a, b, r)
    else [s[0]] + ReplaceAll(s[1..], a, b, r)
  }

  /** strings.Split on a slash. */
  function Split(s: string): (parts: seq<string>)
    ensures parts != []
  {
    if s == [] then [[]]
    else
      var rest := Split(s[1..]);
      if s[0] == '/' then [[]] + rest else [[s[0]] + rest[0]] + rest[1..]
  }

  function Digits(s: string, n: nat): Option<int> {
    if s == [] then Some(n)
    else if '0' <= s[0] <= '9' then Digits(s[1..], 10 * n + (s[0] as int - '0' as int))
    else None
  }

  /** strconv.Atoi; a number too large for its result is out of range of any slice as well. */
  function Atoi(s: string): Option<int> {
    var signed := s != [] && (s[0] == '+' || s[0] == '-');
    var digits := if signed then s[1..] else s;
    if digits == [] then None
    else match Digits(digits, 0)
         case None => None
         case Some(n) => Some(if signed && s[0] == '-' then -n else n)
  }

  /******* The source's functions *******/

  function UnescapeToken(token: string): string {
    ReplaceAll(ReplaceAll(token, '~', '1', '/'), '~', '0', '~')
  }

  function UnescapeAll(tokens: seq<string>): seq<string> {
    seq(|tokens|, i requires 0 <= i < |tokens| => UnescapeToken(tokens[i]))
  }

  /** The tokens of a pointer; None when it is ignored. */
  function Decode(pointer: string): Option<seq<string>> {
    var p := TrimSpace(pointer);
    if p == "" || p == "/" || p[0] != '/' then None else Some(UnescapeAll(Split(p[1..])))
  }

  function InRange(elems: seq<Json>, token: string): Option<nat> {
    match Atoi(token)
    case None => None
    case Some(i) => if 0 <= i < |elems| then Some(i) else None
  }

  /** A removed member is gone; a removed element is null, so that no other element moves. */
  function Removed(node: Json, tokens: seq<string>): Json
    decreases |tokens|
  {
    if tokens == [] then node
    else
      var token, rest := tokens[0], tokens[1..];
      match node
      case Object(m) =>
        if rest == [] then Object(m - {token})
        else if token in m then Object(m[token := Removed(m[token], rest)])
        else node
      case Array(e) =>
        var i := InRange(e, token);
        if i.None? then node
        else Array(e[i.value := if rest == [] then Null else Removed(e[i.value], rest)])
      case _ => node
  }

  lemma UnescapeStep(tokens: seq<string>, i: nat)
    requires i < |tokens|
    ensures var mixed := UnescapeAll(tokens[..i]) + tokens[i..];
      mixed[i := UnescapeToken(mixed[i])] == UnescapeAll(tokens[..i + 1]) + tokens[i + 1..]
  {
  }

  method RemoveJSONPointer(root: Json, pointer: string) returns (r: Json)
    ensures r == match Decode(pointer) case None => root case Some(tokens) => Removed(root, tokens)
  {
    var p := TrimSpace(pointer);
    if p == "" || p == "/" {
      return root;
    }
    if p[0] != '/' {
      return root;
    }
    var tokens := Split(p[1..]);
    ghost var escaped := tokens;
    for i := 0 to |tokens|
      invariant |tokens| == |escaped|
      invariant tokens == UnescapeAll(escaped[..i]) + escaped[i..]
    {
      UnescapeStep(escaped, i);
      tokens := tokens[i := UnescapeToken(tokens[i])];
    }
    assert tokens == UnescapeAll(escaped);
    r := Removed(root, tokens);
  }

  /******* Building a pointer (section 3 of RFC 6901) *******/

  function EscapeChar(c: char): string {
    if c == '~' then "~0" else if c == '/' then "~1" else [c]
  }

  function Escape(token: string): string {
    if token == [] then [] else EscapeChar(token[0]) + Escape(token[1..])
  }

  function EscapeAll(tokens: seq<string>): seq<string> {
    seq(|tokens|, i requires 0 <= i < |tokens| => Escape(tokens[i]))
  }

  function Join(parts: seq<string>): string
    requires parts != []
  {
    if |parts| == 1 then parts[0] else parts[0] + "/" + Join(parts[1..])
  }

  function Pointer(tokens: seq<string>): string {
    if tokens == [] then [] else "/" + Join(EscapeAll(tokens))
  }

  /** Escape without the slashes: what the first replacement leaves. */
  function Half(token: string): string {
    if token == [] then [] else (if token[0] == '~' then "~0" else [token[0]]) + Half(token[1..])
  }

  lemma ReplaceMiss(c: char, s: string, a: char, b: char, r: char)
    requires c != a || s == [] || s[0] != b
    ensures ReplaceAll([c] + s, a, b, r) == [c] + ReplaceAll(s, a, b, r)
  {
    assert ([c] + s)[1..] == s;
  }

  lemma ReplaceHit(s: string, a: char, b: char, r: char)
    ensures ReplaceAll([a, b] + s, a, b, r) == [r] + ReplaceAll(s, a, b, r)
  {
    assert ([a, b] + s)[2..] == s;
  }

  lemma {:induction false} FirstReplacement(t: string)
    ensures ReplaceAll(Escape(t), '~', '1', '/') == Half(t)
  {
    if t != [] {
      FirstReplacement(t[1..]);
      var rest := Escape(t[1..]);
      if t[0] == '~' {
        assert Escape(t) == ['~'] + (['0'] + rest);
        ReplaceMiss('~', ['0'] + rest, '~', '1', '/');
        ReplaceMiss('0', rest, '~', '1', '/');
      } else if t[0] == '/' {
        ReplaceHit(rest, '~', '1', '/');
      } else {
        ReplaceMiss(t[0], rest, '~', '1', '/');
      }
    }
  }

  lemma {:induction false} SecondReplacement(t: string)
    ensures ReplaceAll(Half(t), '~', '0', '~') == t
  {
    if t != [] {
      SecondReplacement(t[1..]);
      if t[0] == '~' { ReplaceHit(Half(t[1..]), '~', '0', '~'); } else { ReplaceMiss(t[0], Half(t[1..]), '~', '0', '~'); }
      assert t == [t[0]] + t[1..];
    }
  }

  /** Decoding in the order of section 4 of RFC 6901 undoes the escaping of every token. */
  lemma UnescapeEscape(t: string)
    ensures UnescapeToken(Escape(t)) == t
  {
    FirstReplacement(t);
    SecondReplacement(t);
  }

  lemma {:induction false} EscapeHasNoSlash(t: string)
    ensures '/' !in Escape(t)
  {
    if t != [] { EscapeHasNoSlash(t[1..]); }
  }

  lemma {:induction false} SplitToken(t: string, s: string)
    requires '/' !in t
    ensures Split(t + "/" + s) == [t] + Split(s)
    ensures Split(t) == [t]
  {
    var u := t + "/" + s;
    if t == [] {
      assert u[1..] == s;
    } else {
      assert u[1..] == t[1..] + "/" + s && u[0] == t[0];
      SplitToken(t[1..], s);
      assert t == [t[0]] + t[1..];
    }
  }

  lemma {:induction false} SplitJoin(parts: seq<string>)
    requires parts != [] && forall i :: 0 <= i < |parts| ==> '/' !in parts[i]
    ensures Split(Join(parts)) == parts
  {
    if |parts| == 1 {
      SplitToken(parts[0], []);
    } else {
      SplitToken(parts[0], Join(parts[1..]));
      SplitJoin(parts[1..]);
    }
  }

  lemma SplitPointer(tokens: seq<string>)
    requires tokens != []
    ensures Pointer(tokens)[1..] == Join(EscapeAll(tokens)) && UnescapeAll(Split(Join(EscapeAll(tokens)))) == tokens
  {
    forall i | 0 <= i < |tokens| ensures UnescapeToken(EscapeAll(tokens)[i]) == tokens[i] && '/' !in EscapeAll(tokens)[i] {
      UnescapeEscape(tokens[i]);
      EscapeHasNoSlash(tokens[i]);
    }
    SplitJoin(EscapeAll(tokens));
  }

  /******* What trimming does to a pointer *******/

  lemma {:induction false} EscapeConcat(s: string, t: string)
    ensures Escape(s + t) == Escape(s) + Escape(t)
  {
    if s == [] {
      assert s + t == t;
    } else {
      assert (s + t)[1..] == s[1..] + t;
      EscapeConcat(s[1..], t);
    }
  }

  lemma EscapeSnoc(s: string, c: char)
    ensures Escape(s + [c]) == Escape(s) + EscapeChar(c)
  {
    EscapeConcat(s, [c]);
    assert Escape([c]) == EscapeChar(c) + [];
  }

  lemma TrimSnoc(s: string, c: char)
    requires IsSpace(c)
    ensures TrimRight(s + [c]) == TrimRight(s)
  {
    assert (s + [c])[..|s|] == s;
  }

  lemma {:induction false} TrimEscaped(prefix: string, t: string)
    requires prefix != [] && prefix[|prefix| - 1] == '/'
    ensures TrimRight(prefix + Escape(t)) == prefix + Escape(TrimRight(t))
  {
    if t == [] {
      assert prefix + Escape(t) == prefix;
    } else {
      var front, c := t[..|t| - 1], t[|t| - 1];
      assert t == front + [c];
      EscapeSnoc(front, c);
      assert prefix + Escape(t) == prefix + Escape(front) + EscapeChar(c);
      if IsSpace(c) {
        TrimSnoc(prefix + Escape(front), c);
        TrimEscaped(prefix, front);
        assert TrimRight(t) == TrimRight(front);
      } else {
        EndsOk(prefix + Escape(front), EscapeChar(c));
      }
    }
  }

  lemma EndsOk(s: string, e: string)
    requires e != [] && !IsSpace(e[|e| - 1])
    ensures TrimRight(s + e) == s + e
  {
    assert (s + e)[|s + e| - 1] == e[|e| - 1];
  }

  lemma {:induction false} JoinSnoc(parts: seq<string>, t: string)
    requires parts != []
    ensures Join(parts + [t]) == Join(parts) + "/" + t
  {
    assert (parts + [t])[1..] == parts[1..] + [t] && (parts + [t])[0] == parts[0];
    if |parts| > 1 { JoinSnoc(parts[1..], t); }
  }

  lemma PointerSnoc(tokens: seq<string>, t: string)
    ensures Pointer(tokens + [t]) == Pointer(tokens) + "/" + Escape(t)
  {
    assert EscapeAll(tokens + [t]) == EscapeAll(tokens) + [Escape(t)];
    if tokens != [] { JoinSnoc(EscapeAll(tokens), Escape(t)); }
  }

  /** Every pointer decodes to its tokens with trailing space of the last one lost; one whose only
      token is then empty is ignored. */
  lemma DecodePointer(tokens: seq<string>, last: string)
    ensures Decode(Pointer(tokens + [last])) ==
            if tokens == [] && TrimRight(last) == "" then None else Some(tokens + [TrimRight(last)])
  {
    PointerSnoc(tokens, last);
    PointerSnoc(tokens, TrimRight(last));
    var p, q := Pointer(tokens + [last]), Pointer(tokens + [TrimRight(last)]);
    var prefix := Pointer(tokens) + "/";
    assert prefix[0] == '/';
    assert TrimLeft(p) == p;
    TrimEscaped(prefix, last);
    assert TrimSpace(p) == q;
    SplitPointer(tokens + [TrimRight(last)]);
    SlashAlone(tokens, TrimRight(last));
  }

  lemma SlashAlone(tokens: seq<string>, t: string)
    ensures Pointer(tokens + [t]) == "/" <==> tokens == [] && t == ""
  {
    PointerSnoc(tokens, t);
    if tokens != [] { assert |Pointer(tokens)| >= 1; }
    if t != [] { assert |Escape(t)| >= 1; }
  }

  predicate EndsInSpace(s: string) {
    s != [] && IsSpace(s[|s| - 1])
  }

  /** So a pointer round-trips exactly when it is not "/" and its last token does not end in space. */
  lemma PointerRoundTrips(tokens: seq<string>)
    ensures Decode(Pointer(tokens)) == Some(tokens) <==>
            tokens != [] && tokens != [""] && !EndsInSpace(tokens[|tokens| - 1])
  {
    if tokens != [] {
      var front, last := tokens[..|tokens| - 1], tokens[|tokens| - 1];
      assert tokens == front + [last];
      DecodePointer(front, last);
      TrimShrinks(last);
      if TrimRight(last) != last {
        assert (front + [TrimRight(last)])[|front|] != tokens[|front|];
      }
    }
  }

  lemma {:induction false} TrimShrinks(s: string)
    ensures |TrimRight(s)| <= |s|
    ensures TrimRight(s) == s <==> !EndsInSpace(s)
  {
    if s != [] && IsSpace(s[|s| - 1]) { TrimShrinks(s[..|s| - 1]); }
  }

  /******* What is removed *******/

  datatype Step = Member(name: string) | Element(index: nat)

  function Get(node: Json, path: seq<Step>): Option<Json> {
    if path == [] then Some(node)
    else match path[0]
         case Member(name) => if node.Object? && name in node.members then Get(node.members[name], path[1..]) else None
         case Element(i) => if node.Array? && i < |node.elems| then Get(node.elems[i], path[1..]) else None
  }

  function StepOf(node: Json, token: string): Option<Step> {
    match node
    case Object(m) => if token in m then Some(Member(token)) else None
    case Array(e) => (match InRange(e, token) case None => None case Some(i) => Some(Element(i)))
    case _ => None
  }

  /** The existing place that the tokens address. */
  function Place(node: Json, tokens: seq<string>): Option<seq<Step>>
    decreases |tokens|
  {
    if tokens == [] then Some([])
    else match StepOf(node, tokens[0])
         case None => None
         case Some(step) =>
           var child := Get(node, [step]);
           if child.None? then None
           else match Place(child.value, tokens[1..]) case None => None case Some(path) => Some([step] + path)
  }

  lemma GetStep(node: Json, token: string)
    requires StepOf(node, token).Some?
    ensures Get(node, [StepOf(node, token).value]).Some?
  {
  }

  /** Nothing is addressed: nothing changes. */
  lemma {:induction false} RemovesNothing(node: Json, tokens: seq<string>)
    requires Place(node, tokens).None?
    ensures Removed(node, tokens) == node
    decreases |tokens|
  {
    var step := StepOf(node, tokens[0]);
    if step.Some? {
      GetStep(node, tokens[0]);
      RemovesNothing(Get(node, [step.value]).value, tokens[1..]);
    }
  }

  ghost predicate SameKind(a: Json, b: Json) {
    match a
    case Object(_) => b.Object?
    case Array(e) => b.Array? && |b.elems| == |e|
    case _ => a == b
  }

  /** The removed place: a member is gone, an element is null. */
  function Gone(step: Step, below: seq<Step>): Option<Json> {
    if step.Element? && below == [] then Some(Null) else None
  }

  /** At and below the place nothing is left but a null element; above it, containers keep their kind
      and arrays their length; everywhere else every path reads as before. */
  ghost predicate RemovedAt(before: Json, after: Json, place: seq<Step>, path: seq<Step>)
    requires place != []
  {
    if place <= path then Get(after, path) == Gone(place[|place| - 1], path[|place|..])
    else if path <= place then
      && Get(before, path).Some? && Get(after, path).Some?
      && SameKind(Get(before, path).value, Get(after, path).value)
    else Get(after, path) == Get(before, path)
  }

  lemma {:induction false} RemovesExactly(node: Json, tokens: seq<string>, path: seq<Step>)
    requires tokens != [] && Place(node, tokens).Some?
    ensures Place(node, tokens).value != []
    ensures RemovedAt(node, Removed(node, tokens), Place(node, tokens).value, path)
    decreases |tokens|
  {
    var step, rest := StepOf(node, tokens[0]).value, tokens[1..];
    var child := Get(node, [step]).value;
    var place := Place(node, tokens).value;
    assert place[0] == step && place[1..] == Place(child, rest).value;
    if rest == [] {
      assert place == [step];
    } else if path != [] {
      GetThrough(node, tokens, path);
      if path[0] == step {
        RemovesExactly(child, rest, path[1..]);
        PrefixStep(place, path);
      }
    }
  }

  /** Removing below a step changes only what is reached through that step. */
  lemma GetThrough(node: Json, tokens: seq<string>, path: seq<Step>)
    requires |tokens| > 1 && StepOf(node, tokens[0]).Some? && path != []
    ensures var step := StepOf(node, tokens[0]).value;
            var child := Get(node, [step]);
            && child.Some?
            && (path[0] == step ==> Get(node, path) == Get(child.value, path[1..]))
            && Get(Removed(node, tokens), path) ==
               if path[0] == step then Get(Removed(child.value, tokens[1..]), path[1..]) else Get(node, path)
  {
  }

  lemma PrefixStep(place: seq<Step>, path: seq<Step>)
    requires place != [] && path != [] && place[0] == path[0]
    ensures place <= path <==> place[1..] <= path[1..]
    ensures path <= place <==> path[1..] <= place[1..]
    ensures place <= path ==> path[|place|..] == path[1..][|place[1..]|..]
  {
    assert place == [place[0]] + place[1..] && path == [path[0]] + path[1..];
  }

  /******* Which element a token names *******/

  ghost predicate AllDigits(s: string) {
    forall i :: 0 <= i < |s| ==> Reader.IsDigit(s[i])
  }

  lemma {:induction false} DigitsSnoc(s: string, c: char, n: nat)
    ensures Digits(s + [c], n) ==
            if Digits(s, n).Some? && Reader.IsDigit(c) then Some(10 * Digits(s, n).value + (c as int - '0' as int)) else None
  {
    var u := s + [c];
    if s == [] {
      assert u[1..] == [];
    } else {
      assert u[1..] == s[1..] + [c] && u[0] == s[0];
      if Reader.IsDigit(s[0]) { DigitsSnoc(s[1..], c, 10 * n + (s[0] as int - '0' as int)); }
    }
  }

  lemma {:induction false} DigitsExact(s: string)
    ensures Digits(s, 0) == if AllDigits(s) then Some(Reader.DigitsValue(s)) else None
  {
    if s != [] {
      var front, c := s[..|s| - 1], s[|s| - 1];
      assert s == front + [c];
      DigitsSnoc(front, c, 0);
      DigitsExact(front);
    }
  }

  /** Atoi reads an optional sign followed by at least one decimal digit, as the number these write, and
      nothing else; so it reads back every number. */
  lemma AtoiExact(s: string, signed: bool)
    requires signed <==> s != [] && (s[0] == '+' || s[0] == '-')
    ensures var digits := if signed then s[1..] else s;
      Atoi(s) == if digits == [] || !AllDigits(digits) then None
                 else Some(if signed && s[0] == '-' then -Reader.DigitsValue(digits) else Reader.DigitsValue(digits))
  {
    DigitsExact(if signed then s[1..] else s);
  }

  lemma AtoiReadsBack(n: int)
    ensures Atoi(Signed(n)) == Some(n)
  {
    var d := Decimal(if n < 0 then -n else n);
    Reader.DecimalIsDigits(if n < 0 then -n else n);
    assert Reader.IsDigit(d[0]);
    if n < 0 {
      assert Signed(n)[1..] == d;
      AtoiExact(Signed(n), true);
    } else {
      AtoiExact(d, false);
    }
  }

  /** A pointer that ends in the decimal of an index clears that element of an array and no other; beyond
      the end it changes nothing. */
  lemma ClearsElement(elems: seq<Json>, i: nat)
    ensures Removed(Array(elems), [Decimal(i)]) == Array(seq(|elems|, j requires 0 <= j < |elems| => if j == i then Null else elems[j]))
  {
    AtoiReadsBack(i);
    if i < |elems| { assert Removed(Array(elems), [Decimal(i)]) == Array(elems[i := Null]); }
    assert elems == seq(|elems|, j requires 0 <= j < |elems| => elems[j]);
  }
}
