/** Fields joined by NUL bytes. */
module Strings {

  const NUL: string := [0 as char]

  predicate NulFree(s: string) {
    (0 as char) !in s
  }

  /** The first NUL splits a joined string in only one way. */
  lemma NulSplit(a: string, s: string, b: string, t: string)
    requires NulFree(a) && NulFree(b) && a + NUL + s == b + NUL + t
    ensures a == b && s == t
  {
    var k := a + NUL + s;
    assert k[|a|] == 0 as char && k[|b|] == 0 as char;
    assert forall i :: 0 <= i < |a| ==> k[i] == a[i] && k[i] in a;
    assert forall i :: 0 <= i < |b| ==> k[i] == b[i] && k[i] in b;
    assert |a| == |b|;
    assert a == k[..|a|] && b == k[..|b|] && s == k[|a| + 1..] && t == k[|b| + 1..];
  }

  function Joined(fields: seq<string>): string
    requires fields != []
  {
    if |fields| == 1 then fields[0] else fields[0] + NUL + Joined(fields[1..])
  }

  lemma {:induction false} JoinedInjective(a: seq<string>, b: seq<string>)
    requires |a| == |b| > 0 && Joined(a) == Joined(b)
    requires forall i :: 0 <= i < |a| ==> NulFree(a[i]) && NulFree(b[i])
    ensures a == b
  {
    if |a| > 1 {
      NulSplit(a[0], Joined(a[1..]), b[0], Joined(b[1..]));
      JoinedInjective(a[1..], b[1..]);
      assert a == [a[0]] + a[1..] && b == [b[0]] + b[1..];
    }
  }
}
