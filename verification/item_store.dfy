/** The sharded in-memory store and its per-namespace mutation counters. */
module ItemStore {
  import opened Options
  import opened Envelope
  import opened Sorting

  type Bucket = map<string, Item>

  /** One target namespace: target name, then resource UID. */
  type Shard = map<string, Bucket>

  function Upserted(sh: Shard, item: Item): Shard {
    var bucket := if item.targetName in sh then sh[item.targetName] else map[];
    sh[item.targetName := bucket[item.uid := item]]
  }

  function Removed(sh: Shard, target: string, uid: string): Shard {
    if target !in sh then sh
    else if sh[target] - {uid} == map[] then sh - {target}
    else sh[target := sh[target] - {uid}]
  }

  function TargetRemoved(sh: Shard, target: string): Shard {
    sh - {target}
  }

  datatype Mutation = UpsertRow(item: Item) | RemoveRow(target: string, uid: string) | DropTarget(target: string)

  function Mutated(sh: Shard, m: Mutation): Shard {
    match m
    case UpsertRow(item) => Upserted(sh, item)
    case RemoveRow(target, uid) => Removed(sh, target, uid)
    case DropTarget(target) => TargetRemoved(sh, target)
  }

  /** Every row is filed under its own namespace, target and UID. */
  ghost predicate Filed(ns: string, sh: Shard) {
    forall t, u :: t in sh && u in sh[t] ==>
      sh[t][u].targetNamespace == ns && sh[t][u].targetName == t && sh[t][u].uid == u
  }

  lemma MutatedFiled(ns: string, sh: Shard, m: Mutation)
    requires Filed(ns, sh) && (m.UpsertRow? ==> m.item.targetNamespace == ns)
    ensures Filed(ns, Mutated(sh, m))
  {
  }

  /******* What a mutation does to each row *******/

  function RowAt(sh: Shard, t: string, u: string): Option<Item> {
    if t in sh && u in sh[t] then Some(sh[t][u]) else None
  }

  /** A target is listed only while it has rows. */
  ghost predicate NoEmptyTarget(sh: Shard) {
    forall t :: t in sh ==> exists u :: u in sh[t]
  }

  /** An upsert sets the row at the item's own place and no other. */
  lemma UpsertExact(sh: Shard, item: Item, t: string, u: string)
    ensures RowAt(Mutated(sh, UpsertRow(item)), t, u) ==
            if t == item.targetName && u == item.uid then Some(item) else RowAt(sh, t, u)
  {
  }

  /** A remove takes away that row and no other. */
  lemma RemoveExact(sh: Shard, target: string, uid: string, t: string, u: string)
    ensures RowAt(Mutated(sh, RemoveRow(target, uid)), t, u) ==
            if t == target && u == uid then None else RowAt(sh, t, u)
  {
    if target in sh && t == target && u != uid && u in sh[t] { assert u in sh[target] - {uid}; }
  }

  /** Dropping a target takes away its rows and no others. */
  lemma DropExact(sh: Shard, target: string, t: string, u: string)
    ensures RowAt(Mutated(sh, DropTarget(target)), t, u) == if t == target then None else RowAt(sh, t, u)
  {
  }

  lemma MutatedNoEmpty(sh: Shard, m: Mutation)
    requires NoEmptyTarget(sh)
    ensures NoEmptyTarget(Mutated(sh, m))
  {
    var r := Mutated(sh, m);
    forall t | t in r ensures exists u :: u in r[t] {
      match m
      case UpsertRow(item) => if t == item.targetName { assert item.uid in r[t]; }
      case RemoveRow(target, uid) =>
        if t == target {
          assert r[t] == sh[target] - {uid} && r[t] != map[];
          NotEmpty(r[t]);
        }
      case DropTarget(_) =>
    }
  }

  lemma NotEmpty(b: Bucket)
    requires b != map[]
    ensures exists u :: u in b
  {
    assert b.Keys != {};
  }

  /******* A history of mutations *******/

  function Replay(h: seq<Mutation>): Shard {
    if h == [] then map[] else Mutated(Replay(h[..|h| - 1]), h[|h| - 1])
  }

  /** The last upsert of a place, if neither that row nor its target was removed since. */
  function LastWrite(h: seq<Mutation>, t: string, u: string): Option<Item> {
    if h == [] then None
    else
      var front := h[..|h| - 1];
      match h[|h| - 1]
      case UpsertRow(item) => if item.targetName == t && item.uid == u then Some(item) else LastWrite(front, t, u)
      case RemoveRow(target, uid) => if target == t && uid == u then None else LastWrite(front, t, u)
      case DropTarget(target) => if target == t then None else LastWrite(front, t, u)
  }

  /** The store holds exactly the last writes of its history. */
  lemma {:induction false} ReplayIsLastWrites(h: seq<Mutation>, t: string, u: string)
    ensures RowAt(Replay(h), t, u) == LastWrite(h, t, u)
  {
    if h != [] {
      var front := h[..|h| - 1];
      ReplayIsLastWrites(front, t, u);
      match h[|h| - 1]
      case UpsertRow(item) => UpsertExact(Replay(front), item, t, u);
      case RemoveRow(target, uid) => RemoveExact(Replay(front), target, uid, t, u);
      case DropTarget(target) => DropExact(Replay(front), target, t, u);
    }
  }

  lemma {:induction false} ReplayNoEmpty(h: seq<Mutation>)
    ensures NoEmptyTarget(Replay(h))
  {
    if h != [] {
      ReplayNoEmpty(h[..|h| - 1]);
      MutatedNoEmpty(Replay(h[..|h| - 1]), h[|h| - 1]);
    }
  }

  lemma ReplaySnoc(h: seq<Mutation>, m: Mutation)
    ensures Replay(h + [m]) == Mutated(Replay(h), m)
  {
    assert (h + [m])[..|h|] == h;
  }

  /** out holds the last write of each place that has one, once. */
  ghost predicate ListsLastWrites(h: seq<Mutation>, keys: seq<(string, string)>, out: seq<Item>) {
    && |keys| == |out|
    && (forall i :: 0 <= i < |keys| ==> LastWrite(h, keys[i].0, keys[i].1) == Some(out[i]))
    && (forall i, j :: 0 <= i < j < |keys| ==> keys[i] != keys[j])
    && forall t, u :: LastWrite(h, t, u).Some? ==> (t, u) in keys
  }

  lemma SnapshotIsLastWrites(h: seq<Mutation>, keys: seq<(string, string)>, out: seq<Item>)
    requires Lists(Replay(h), keys, out)
    ensures ListsLastWrites(h, keys, out)
  {
    forall i | 0 <= i < |keys| ensures LastWrite(h, keys[i].0, keys[i].1) == Some(out[i]) {
      ReplayIsLastWrites(h, keys[i].0, keys[i].1);
    }
    forall t, u | LastWrite(h, t, u).Some? ensures (t, u) in keys { ReplayIsLastWrites(h, t, u); }
  }

  /******* Snapshots *******/

  /** keys names different rows, and out holds those rows in the same order. */
  ghost predicate RowsOf(sh: Shard, keys: seq<(string, string)>, out: seq<Item>) {
    && |keys| == |out|
    && (forall i :: 0 <= i < |keys| ==> keys[i].0 in sh && keys[i].1 in sh[keys[i].0] && out[i] == sh[keys[i].0][keys[i].1])
    && forall i, j :: 0 <= i < j < |keys| ==> keys[i] != keys[j]
  }

  /** out holds each row of the shard exactly once. */
  ghost predicate Lists(sh: Shard, keys: seq<(string, string)>, out: seq<Item>) {
    RowsOf(sh, keys, out) && forall t, u :: t in sh && u in sh[t] ==> (t, u) in keys
  }

  lemma DropRow(sh: Shard, keys: seq<(string, string)>, out: seq<Item>, i: nat)
    returns (keys': seq<(string, string)>, out': seq<Item>)
    requires RowsOf(sh, keys, out) && i < |keys|
    ensures RowsOf(sh, keys', out') && |keys'| == |keys| - 1
    ensures forall k :: k in keys' <==> k in keys && k != keys[i]
    ensures multiset(out) == multiset(out') + multiset{sh[keys[i].0][keys[i].1]}
  {
    keys', out' := keys[..i] + keys[i + 1..], out[..i] + out[i + 1..];
    assert keys == keys[..i] + [keys[i]] + keys[i + 1..];
    assert out == out[..i] + [out[i]] + out[i + 1..];
  }

  lemma HasMember<T>(s: seq<T>)
    ensures s == [] || exists x :: x in s
  {
    if s != [] { assert s[0] in s; }
  }

  lemma {:induction false} SameRowsSameItems(sh: Shard, one: seq<(string, string)>, a: seq<Item>,
                                             two: seq<(string, string)>, b: seq<Item>)
    requires RowsOf(sh, one, a) && RowsOf(sh, two, b) && forall k :: k in one <==> k in two
    ensures multiset(a) == multiset(b)
    decreases |one|
  {
    if one == [] {
      HasMember(two);
    } else {
      assert one[0] in two;
      var i :| 0 <= i < |two| && two[i] == one[0];
      var one', a' := DropRow(sh, one, a, 0);
      var two', b' := DropRow(sh, two, b, i);
      SameRowsSameItems(sh, one', a', two', b');
    }
  }

  /** Map order does not matter: two snapshots of the same shard are permutations of each other. */
  lemma SnapshotsPermute(sh: Shard, one: seq<(string, string)>, a: seq<Item>, two: seq<(string, string)>, b: seq<Item>)
    requires Lists(sh, one, a) && Lists(sh, two, b)
    ensures multiset(a) == multiset(b)
  {
    SameRowsSameItems(sh, one, a, two, b);
  }

  ghost predicate NulFreeRows(sh: Shard) {
    forall t, u :: t in sh && u in sh[t] ==> NulFreeItem(sh[t][u])
  }

  /** Rows filed apart have different canonical keys. */
  lemma SnapshotDistinguished(ns: string, sh: Shard, keys: seq<(string, string)>, out: seq<Item>)
    requires Filed(ns, sh) && NulFreeRows(sh) && Lists(sh, keys, out)
    ensures Distinguishes(CanonicalKey, out)
  {
    forall x, y | x in out && y in out && CanonicalKey(x) == CanonicalKey(y) ensures x == y {
      CanonicalKeyInjective(x, y);
      var i :| 0 <= i < |out| && out[i] == x;
      var j :| 0 <= j < |out| && out[j] == y;
      assert keys[i].0 == x.targetName && keys[i].1 == x.uid && keys[j].0 == y.targetName && keys[j].1 == y.uid;
      assert keys[i] == keys[j];
    }
  }

  /******* The store object *******/

  /** The version counts the contents published, the last of them is current, and it is what the history
      of mutations leaves. */
  ghost predicate Consistent(ns: string, sh: Shard, version: nat, published: seq<Shard>, history: seq<Mutation>) {
    && |published| == version + 1 && published[version] == sh
    && Filed(ns, sh) && sh == Replay(history)
  }

  lemma CommitConsistent(ns: string, sh: Shard, version: nat, published: seq<Shard>, history: seq<Mutation>, m: Mutation)
    requires Consistent(ns, sh, version, published, history) && (m.UpsertRow? ==> m.item.targetNamespace == ns)
    ensures Consistent(ns, Mutated(sh, m), version + 1, published + [Mutated(sh, m)], history + [m])
  {
    MutatedFiled(ns, sh, m);
    ReplaySnoc(history, m);
  }

  /** A target left without rows goes too. */
  method RemoveFrom(sh: Shard, target: string, uid: string) returns (r: Shard)
    requires target in sh
    ensures r == Removed(sh, target, uid)
  {
    var bucket := sh[target] - {uid};
    if |bucket| == 0 {
      r := sh - {target};
    } else {
      r := sh[target := bucket];
    }
  }

  class Store {
    var shards: map<string, Shard>
    var versions: map<string, nat>
    /** published[ns][v] is the namespace's content at version v. */
    ghost var published: map<string, seq<Shard>>

    /** Every mutation of the namespace so far. */
    ghost var history: map<string, seq<Mutation>>

    constructor ()
      ensures Valid() && shards == map[] && versions == map[]
      ensures forall ns :: History(ns) == []
    {
      shards, versions, published, history := map[], map[], map[], map[];
    }

    ghost function History(ns: string): seq<Mutation>
      reads this`history
    {
      if ns in history then history[ns] else []
    }

    ghost function Contents(ns: string): Shard
      reads this`shards
    {
      if ns in shards then shards[ns] else map[]
    }

    ghost function Version(ns: string): nat
      reads this`versions
    {
      if ns in versions then versions[ns] else 0
    }

    ghost function Published(ns: string): seq<Shard>
      reads this`published
    {
      if ns in published then published[ns] else [map[]]
    }

    ghost predicate ValidAt(ns: string)
      reads this
    {
      Consistent(ns, Contents(ns), Version(ns), Published(ns), History(ns))
    }

    ghost predicate Valid()
      reads this
    {
      forall ns :: ValidAt(ns)
    }

    method ShardFor(ns: string) returns (sh: Shard)
      requires Valid()
      modifies this`shards
      ensures Valid() && ns in shards && sh == shards[ns]
      ensures forall n :: Contents(n) == old(Contents(n))
    {
      if ns !in shards {
        shards := shards[ns := map[]];
        forall n ensures ValidAt(n) { assert old(ValidAt(n)); }
      }
      sh := shards[ns];
    }

    method BumpNamespaceVersion(ns: string)
      modifies this`versions
      ensures versions == old(versions)[ns := old(Version(ns)) + 1]
    {
      versions := versions[ns := (if ns in versions then versions[ns] else 0) + 1];
    }

    /** Nothing about any other namespace changed. */
    twostate predicate OnlyNamespace(ns: string)
      reads this
    {
      forall n :: n != ns ==>
        Contents(n) == old(Contents(n)) && Published(n) == old(Published(n)) && History(n) == old(History(n))
    }

    /** Content, version and their history, set for one namespace. */
    method Write(ns: string, sh: Shard, ghost m: Mutation)
      modifies this
      ensures OnlyNamespace(ns) && forall n :: n != ns ==> Version(n) == old(Version(n))
      ensures Contents(ns) == sh && Version(ns) == old(Version(ns)) + 1
      ensures Published(ns) == old(Published(ns)) + [sh] && History(ns) == old(History(ns)) + [m]
    {
      shards := shards[ns := sh];
      BumpNamespaceVersion(ns);
      published := published[ns := Published(ns) + [sh]];
      history := history[ns := History(ns) + [m]];
    }

    /** Content and version commit together; no other namespace changes. */
    method Commit(ns: string, sh: Shard, ghost m: Mutation)
      requires Valid() && sh == Mutated(Contents(ns), m) && (m.UpsertRow? ==> m.item.targetNamespace == ns)
      modifies this
      ensures Valid() && OnlyNamespace(ns)
      ensures Contents(ns) == sh && Published(ns) == old(Published(ns)) + [sh] && History(ns) == old(History(ns)) + [m]
    {
      assert ValidAt(ns);
      CommitConsistent(ns, Contents(ns), Version(ns), Published(ns), History(ns), m);
      Write(ns, sh, m);
      forall n ensures ValidAt(n) { if n != ns { assert old(ValidAt(n)); } }
    }

    /** A mutation without effect publishes nothing. */
    ghost method Note(ns: string, m: Mutation)
      requires Valid() && Mutated(Contents(ns), m) == Contents(ns)
      modifies this`history
      ensures Valid() && OnlyNamespace(ns) && History(ns) == old(History(ns)) + [m]
    {
      assert ValidAt(ns);
      ReplaySnoc(History(ns), m);
      history := history[ns := History(ns) + [m]];
      forall n ensures ValidAt(n) { assert old(ValidAt(n)); }
    }

    method Upsert(item: Item)
      requires Valid()
      modifies this
      ensures Valid() && OnlyNamespace(item.targetNamespace)
      ensures var ns := item.targetNamespace;
        && History(ns) == old(History(ns)) + [UpsertRow(item)] && Published(ns) == old(Published(ns)) + [Contents(ns)]
    {
      var sh := ShardFor(item.targetNamespace);
      if item.targetName !in sh {
        sh := sh[item.targetName := map[]];
      }
      sh := sh[item.targetName := sh[item.targetName][item.uid := item]];
      assert sh == Upserted(old(Contents(item.targetNamespace)), item);
      Commit(item.targetNamespace, sh, UpsertRow(item));
    }

    method RemoveTarget(ns: string, target: string)
      requires Valid()
      modifies this
      ensures Valid() && OnlyNamespace(ns)
      ensures History(ns) == old(History(ns)) + [DropTarget(target)] && Published(ns) == old(Published(ns)) + [Contents(ns)]
    {
      var sh := ShardFor(ns);
      Commit(ns, sh - {target}, DropTarget(target));
    }

    /** Bumps only when the target had rows. */
    method Remove(ns: string, target: string, uid: string)
      requires Valid()
      modifies this
      ensures Valid() && OnlyNamespace(ns) && History(ns) == old(History(ns)) + [RemoveRow(target, uid)]
      ensures Published(ns) ==
              if exists u :: LastWrite(old(History(ns)), target, u).Some? then old(Published(ns)) + [Contents(ns)]
              else old(Published(ns))
    {
      var sh := ShardFor(ns);
      TargetHasRows(ns, target);
      if target in sh {
        sh := RemoveFrom(sh, target, uid);
        Commit(ns, sh, RemoveRow(target, uid));
      } else {
        Note(ns, RemoveRow(target, uid));
      }
    }

    lemma TargetHasRows(ns: string, target: string)
      requires Valid()
      ensures target in Contents(ns) <==> exists u :: LastWrite(History(ns), target, u).Some?
    {
      assert ValidAt(ns);
      ReplayNoEmpty(History(ns));
      forall u ensures RowAt(Contents(ns), target, u) == LastWrite(History(ns), target, u) {
        ReplayIsLastWrites(History(ns), target, u);
      }
      if target in Contents(ns) {
        var u :| u in Contents(ns)[target];
        assert RowAt(Contents(ns), target, u) == LastWrite(History(ns), target, u);
        assert LastWrite(History(ns), target, u).Some?;
      }
    }

    method NamespaceVersion(ns: string) returns (v: nat)
      requires Valid()
      ensures v + 1 == |Published(ns)| && Published(ns)[v] == Contents(ns)
    {
      assert ValidAt(ns);
      v := if ns in versions then versions[ns] else 0;
    }

    method SnapshotNamespace(ns: string) returns (out: seq<Item>, ghost keys: seq<(string, string)>)
      requires Valid()
      modifies this`shards
      ensures Valid() && (forall n :: Contents(n) == old(Contents(n)))
      ensures Lists(Contents(ns), keys, out) && ListsLastWrites(History(ns), keys, out)
    {
      var sh := ShardFor(ns);
      out, keys := SnapshotShard(sh);
      assert ValidAt(ns);
      SnapshotIsLastWrites(History(ns), keys, out);
    }
  }

  /** The rows of the targets visited so far. */
  ghost predicate Visited(sh: Shard, pending: set<string>, keys: seq<(string, string)>, out: seq<Item>) {
    && pending <= sh.Keys
    && Lists(sh - pending, keys, out)
  }

  method SnapshotShard(sh: Shard) returns (out: seq<Item>, ghost keys: seq<(string, string)>)
    ensures Lists(sh, keys, out)
  {
    out, keys := [], [];
    var pending := sh.Keys;
    while pending != {}
      invariant Visited(sh, pending, keys, out)
      decreases pending
    {
      var t :| t in pending;
      var rows; ghost var uids;
      rows, uids := SnapshotBucket(sh[t]);
      ghost var named := seq(|uids|, i requires 0 <= i < |uids| => (t, uids[i]));
      AddBucket(sh, pending, keys, out, t, uids, named, rows);
      out, keys, pending := out + rows, keys + named, pending - {t};
    }
    assert sh - pending == sh;
  }

  ghost predicate ListsBucket(bucket: Bucket, uids: seq<string>, rows: seq<Item>) {
    && |uids| == |rows|
    && (forall i :: 0 <= i < |uids| ==> uids[i] in bucket && rows[i] == bucket[uids[i]])
    && (forall i, j :: 0 <= i < j < |uids| ==> uids[i] != uids[j])
    && forall u :: u in bucket ==> u in uids
  }

  method SnapshotBucket(bucket: Bucket) returns (rows: seq<Item>, ghost uids: seq<string>)
    ensures ListsBucket(bucket, uids, rows)
  {
    rows, uids := [], [];
    var pending := bucket.Keys;
    while pending != {}
      invariant pending <= bucket.Keys && ListsBucket(bucket - pending, uids, rows)
      decreases pending
    {
      var u :| u in pending;
      assert u !in uids;
      rows, uids, pending := rows + [bucket[u]], uids + [u], pending - {u};
    }
    assert bucket - pending == bucket;
  }

  lemma AddBucket(sh: Shard, pending: set<string>, keys: seq<(string, string)>, out: seq<Item>,
                  t: string, uids: seq<string>, named: seq<(string, string)>, rows: seq<Item>)
    requires Visited(sh, pending, keys, out) && t in pending && ListsBucket(sh[t], uids, rows)
    requires |named| == |uids| && forall i :: 0 <= i < |uids| ==> named[i] == (t, uids[i])
    ensures Visited(sh, pending - {t}, keys + named, out + rows)
  {
    AddRows(sh, pending, keys, out, t, uids, named, rows);
    var keys' := keys + named;
    forall t', u | t' in sh - (pending - {t}) && u in sh[t'] ensures (t', u) in keys' {
      if t' == t {
        var i :| 0 <= i < |uids| && uids[i] == u;
        assert named[i] in keys';
      } else {
        assert t' in sh - pending && (t', u) in keys;
      }
    }
  }

  lemma AddRows(sh: Shard, pending: set<string>, keys: seq<(string, string)>, out: seq<Item>,
                t: string, uids: seq<string>, named: seq<(string, string)>, rows: seq<Item>)
    requires Visited(sh, pending, keys, out) && t in pending && ListsBucket(sh[t], uids, rows)
    requires |named| == |uids| && forall i :: 0 <= i < |uids| ==> named[i] == (t, uids[i])
    ensures RowsOf(sh - (pending - {t}), keys + named, out + rows)
  {
    var keys' := keys + named;
    forall i, j | 0 <= i < j < |keys'| ensures keys'[i] != keys'[j] {
      if i < |keys| <= j { assert keys[i].0 in sh - pending && keys'[j].0 == t; }
    }
  }
}
