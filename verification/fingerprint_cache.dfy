/** The namespace fingerprint cache under concurrent mutators and reconcilers. A mutation takes the
    shard lock, writes, bumps the version and unlocks; a reconciler reads the version without that
    lock, looks the cache up, and on a miss snapshots under the lock and writes the cache later. */
module FingerprintCache {
  import opened Options
  import opened Envelope
  import opened ItemStore
  import PartitionTheorems

  /** fp is the fingerprint of some snapshot of the shard, whose rows all encode. */
  ghost predicate IsFingerprint(c: Codec, sh: Shard, fp: string) {
    exists keys, out :: Lists(sh, keys, out) && Encodable(c, out) && fp == ItemsFingerprint(c, out)
  }

  /** It is the same for every snapshot order. */
  lemma FingerprintUnique(c: Codec, ns: string, sh: Shard, one: string, two: string)
    requires Filed(ns, sh) && NulFreeRows(sh) && IsFingerprint(c, sh, one) && IsFingerprint(c, sh, two)
    ensures one == two
  {
    var ks, a :| Lists(sh, ks, a) && one == ItemsFingerprint(c, a);
    var ls, b :| Lists(sh, ls, b) && two == ItemsFingerprint(c, b);
    SnapshotsPermute(sh, ks, a, ls, b);
    SnapshotDistinguished(ns, sh, ks, a);
    PartitionTheorems.FingerprintOrderIndependent(c, a, b);
  }

  /** fp was the fingerprint of the content at some version since v. */
  ghost predicate Since(c: Codec, hist: seq<Shard>, v: nat, fp: string) {
    exists w :: v <= w < |hist| && IsFingerprint(c, hist[w], fp)
  }

  lemma SinceGrows(c: Codec, hist: seq<Shard>, more: seq<Shard>, v: nat, fp: string)
    requires Since(c, hist, v, fp) && hist <= more
    ensures Since(c, more, v, fp)
  {
    var w :| v <= w < |hist| && IsFingerprint(c, hist[w], fp);
    assert more[w] == hist[w];
  }

  /******* The cache object *******/

  datatype Entry = Entry(version: nat, fingerprint: string)

  function EntryOf(state: map<string, Entry>, ns: string): Option<Entry> {
    if ns in state then Some(state[ns]) else None
  }

  /** A hit needs an entry of exactly this version. */
  function Found(entry: Option<Entry>, version: nat): Option<string> {
    if entry.Some? && entry.value.version == version then Some(entry.value.fingerprint) else None
  }

  class NamespaceFingerprintCache {
    var state: map<string, Entry>

    constructor ()
      ensures state == map[]
    {
      state := map[];
    }

    /** Each cached fingerprint is that of a content published at or after its version. */
    ghost predicate Sound(c: Codec, store: Store)
      reads this, store
    {
      forall ns :: ns in state ==> Since(c, store.Published(ns), state[ns].version, state[ns].fingerprint)
    }

    method Lookup(ns: string, version: nat) returns (r: Option<string>)
      ensures r == Found(EntryOf(state, ns), version)
    {
      if ns in state && state[ns].version == version {
        return Some(state[ns].fingerprint);
      }
      r := None;
    }

    method Put(ns: string, version: nat, fingerprint: string)
      modifies this
      ensures Puts(ns, version, fingerprint)
    {
      state := state[ns := Entry(version, fingerprint)];
    }

    /** The namespace's entry is this one and the others are as they were. */
    twostate predicate Puts(ns: string, version: nat, fingerprint: string)
      reads this
    {
      EntryOf(state, ns) == Some(Entry(version, fingerprint)) &&
      forall n :: n != ns ==> EntryOf(state, n) == EntryOf(old(state), n)
    }

    /** Putting a fingerprint of a content at or after the version keeps the cache sound. */
    method PutSound(ghost c: Codec, store: Store, ns: string, version: nat, fingerprint: string)
      requires Sound(c, store) && Since(c, store.Published(ns), version, fingerprint)
      modifies this
      ensures Sound(c, store) && Puts(ns, version, fingerprint)
    {
      ghost var before := state;
      Put(ns, version, fingerprint);
      forall n | n in state ensures Since(c, store.Published(n), state[n].version, state[n].fingerprint) {
        assert EntryOf(state, n) == if n == ns then Some(Entry(version, fingerprint)) else EntryOf(before, n);
      }
    }

    /** A hit at the current version is the fingerprint of the current content. */
    method LookupSound(ghost c: Codec, store: Store, ns: string, version: nat) returns (hit: Option<string>)
      requires Sound(c, store) && version + 1 == |store.Published(ns)| && store.Published(ns)[version] == store.Contents(ns)
      ensures hit == Found(EntryOf(state, ns), version)
      ensures hit.Some? ==> IsFingerprint(c, store.Contents(ns), hit.value)
    {
      hit := Lookup(ns, version);
      ghost var hist := store.Published(ns);
      if hit.Some? {
        assert Since(c, hist, version, hit.value);
        SinceLatest(c, hist, hit.value);
      }
    }

    method ComputeAndPut(c: Codec, store: Store, ns: string, version: nat) returns (fingerprint: string)
      requires store.Valid() && Sound(c, store) && EncodableRows(c, store.Contents(ns))
      requires version + 1 == |store.Published(ns)| && store.Published(ns)[version] == store.Contents(ns)
      modifies this, store`shards
      ensures store.Valid() && Sound(c, store) && (forall n :: store.Contents(n) == old(store.Contents(n)))
      ensures IsFingerprint(c, store.Contents(ns), fingerprint) && Puts(ns, version, fingerprint)
    {
      fingerprint := Compute(c, store, ns);
      PutSound(c, store, ns, version, fingerprint);
    }

    /** Version read, lookup, and on a miss snapshot and write, when nobody interferes. */
    method GetOrCompute(c: Codec, store: Store, ns: string) returns (fingerprint: string, ghost version: nat)
      requires store.Valid() && Sound(c, store) && EncodableRows(c, store.Contents(ns))
      modifies this, store`shards
      ensures store.Valid() && Sound(c, store) && (forall n :: store.Contents(n) == old(store.Contents(n)))
      ensures IsFingerprint(c, store.Contents(ns), fingerprint)
      ensures version + 1 == |old(store.Published(ns))| && Puts(ns, version, fingerprint)
    {
      var current := store.NamespaceVersion(ns);
      version := current;
      var hit := LookupSound(c, store, ns, current);
      if hit.Some? {
        fingerprint := hit.value;
        return;
      }
      fingerprint := ComputeAndPut(c, store, ns, current);
    }
  }

  method Compute(c: Codec, store: Store, ns: string) returns (fingerprint: string)
    requires store.Valid() && EncodableRows(c, store.Contents(ns))
    modifies store`shards
    ensures store.Valid() && (forall n :: store.Contents(n) == old(store.Contents(n)))
    ensures IsFingerprint(c, store.Contents(ns), fingerprint)
  {
    var out; ghost var keys;
    out, keys := store.SnapshotNamespace(ns);
    fingerprint := ItemsFingerprint(c, out);
  }

  lemma SinceLatest(c: Codec, hist: seq<Shard>, fp: string)
    requires hist != [] && Since(c, hist, |hist| - 1, fp)
    ensures IsFingerprint(c, hist[|hist| - 1], fp)
  {
  }

  ghost predicate EncodableRows(c: Codec, sh: Shard) {
    forall t, u :: t in sh && u in sh[t] ==> c.encode(sh[t][u]).Some?
  }

  /******* The interleavings, for one namespace *******/

  /** Writing holds the shard lock with the content replaced; Bumped still holds it. */
  datatype Lock = Free | Writing(next: Shard) | Bumped

  datatype Reader = Read(v: nat) | Missed(v: nat) | Computed(v: nat, fp: string) | Returned(v: nat, fp: string)

  /** A mutation takes effect at its version bump, the linearization point: until then content is what
      was there before, which nobody can read while the lock is held. hist[v] is the content at version v. */
  datatype Sys = Sys(ns: string, content: Shard, version: nat, lock: Lock, cache: Option<Entry>,
                     readers: map<nat, Reader>, hist: seq<Shard>)

  datatype Action =
    | BeginWrite(m: Mutation) | Bump | Unlock
    | ReadVersion(r: nat) | Lookup(r: nat) | Snapshot(r: nat, fp: string) | Put(r: nat)

  ghost predicate Enabled(c: Codec, s: Sys, a: Action) {
    match a
    case BeginWrite(m) =>
      && s.lock.Free? && (m.UpsertRow? ==> m.item.targetNamespace == s.ns)
      && (m.RemoveRow? ==> m.target in s.content)      // otherwise nothing changes and nothing is bumped
    case Bump => s.lock.Writing?
    case Unlock => s.lock.Bumped?
    case ReadVersion(r) => r !in s.readers
    case Lookup(r) => r in s.readers && s.readers[r].Read?
    case Snapshot(r, fp) => s.lock.Free? && r in s.readers && s.readers[r].Missed? && IsFingerprint(c, s.content, fp)
    case Put(r) => r in s.readers && s.readers[r].Computed?
  }

  function Moved(s: Sys, r: nat, reader: Reader): Sys {
    s.(readers := s.readers[r := reader])
  }

  function Apply(c: Codec, s: Sys, a: Action): Sys
    requires Enabled(c, s, a)
  {
    match a
    case BeginWrite(m) => s.(lock := Writing(Mutated(s.content, m)))
    case Bump => s.(content := s.lock.next, version := s.version + 1, lock := Bumped, hist := s.hist + [s.lock.next])
    case Unlock => s.(lock := Free)
    case ReadVersion(r) => Moved(s, r, Read(s.version))
    case Lookup(r) =>
      var v := s.readers[r].v;
      var found := Found(s.cache, v);
      Moved(s, r, if found.Some? then Returned(v, found.value) else Missed(v))
    case Snapshot(r, fp) => Moved(s, r, Computed(s.readers[r].v, fp))
    case Put(r) =>
      var x := s.readers[r];
      Moved(s, r, Returned(x.v, x.fp)).(cache := Some(Entry(x.v, x.fp)))
  }

  ghost predicate Run(c: Codec, tr: seq<Sys>, xs: seq<Action>) {
    && |tr| == |xs| + 1
    && tr[0] == Sys(tr[0].ns, map[], 0, Free, None, map[], [map[]])
    && forall i :: 0 <= i < |xs| ==> Enabled(c, tr[i], xs[i]) && tr[i + 1] == Apply(c, tr[i], xs[i])
  }

  ghost predicate ReaderOk(c: Codec, s: Sys, reader: Reader) {
    && reader.v <= s.version
    && (reader.Computed? || reader.Returned? ==> Since(c, s.hist, reader.v, reader.fp))
  }

  ghost predicate Inv(c: Codec, s: Sys) {
    && |s.hist| == s.version + 1 && s.hist[s.version] == s.content
    && Filed(s.ns, s.content) && (s.lock.Writing? ==> Filed(s.ns, s.lock.next))
    && (s.cache.Some? ==> Since(c, s.hist, s.cache.value.version, s.cache.value.fingerprint))
    && forall r :: r in s.readers ==> ReaderOk(c, s, s.readers[r])
  }

  /** Versions go up by one, and no earlier content is rewritten. */
  lemma StepGrows(c: Codec, s: Sys, a: Action)
    requires Enabled(c, s, a)
    ensures s.hist <= Apply(c, s, a).hist && s.version <= Apply(c, s, a).version <= s.version + 1
  {
  }

  lemma BumpKeeps(c: Codec, s: Sys)
    requires Inv(c, s) && Enabled(c, s, Bump)
    ensures Inv(c, Apply(c, s, Bump))
  {
    var s' := Apply(c, s, Bump);
    if s.cache.Some? { SinceGrows(c, s.hist, s'.hist, s.cache.value.version, s.cache.value.fingerprint); }
    forall r | r in s.readers && (s.readers[r].Computed? || s.readers[r].Returned?)
      ensures Since(c, s'.hist, s.readers[r].v, s.readers[r].fp)
    {
      SinceGrows(c, s.hist, s'.hist, s.readers[r].v, s.readers[r].fp);
    }
  }

  /** Since looks at the history alone. */
  lemma MoveKeeps(c: Codec, s: Sys, r: nat, reader: Reader, cache: Option<Entry>)
    requires Inv(c, s) && ReaderOk(c, s, reader)
    requires cache == s.cache || (cache.Some? && Since(c, s.hist, cache.value.version, cache.value.fingerprint))
    ensures Inv(c, Moved(s, r, reader).(cache := cache))
  {
    var s' := Moved(s, r, reader).(cache := cache);
    forall x | x in s'.readers ensures ReaderOk(c, s', s'.readers[x]) {
      assert ReaderOk(c, s, s'.readers[x]);
    }
  }

  lemma LockKeeps(c: Codec, s: Sys, lock: Lock)
    requires Inv(c, s) && (lock.Writing? ==> Filed(s.ns, lock.next))
    ensures Inv(c, s.(lock := lock))
  {
    var s' := s.(lock := lock);
  }

  lemma StepKeeps(c: Codec, s: Sys, a: Action)
    requires Inv(c, s) && Enabled(c, s, a)
    ensures Inv(c, Apply(c, s, a))
  {
    match a
    case BeginWrite(m) =>
      MutatedFiled(s.ns, s.content, m);
      LockKeeps(c, s, Writing(Mutated(s.content, m)));
    case Bump => BumpKeeps(c, s);
    case Unlock => LockKeeps(c, s, Free);
    case ReadVersion(r) => MoveKeeps(c, s, r, Read(s.version), s.cache);
    case Lookup(r) => MoveKeeps(c, s, r, Apply(c, s, a).readers[r], s.cache);
    case Snapshot(r, fp) =>
      assert IsFingerprint(c, s.hist[s.version], fp);
      MoveKeeps(c, s, r, Computed(s.readers[r].v, fp), s.cache);
    case Put(r) => MoveKeeps(c, s, r, Apply(c, s, a).readers[r], Apply(c, s, a).cache);
  }

  lemma {:induction false} RunKeeps(c: Codec, tr: seq<Sys>, xs: seq<Action>, n: nat)
    requires Run(c, tr, xs) && n < |tr|
    ensures Inv(c, tr[n])
  {
    if n > 0 {
      RunKeeps(c, tr, xs, n - 1);
      StepKeeps(c, tr[n - 1], xs[n - 1]);
    }
  }

  /** Every version between two instants was current at an instant between them. */
  lemma {:induction false} VersionWasCurrent(c: Codec, tr: seq<Sys>, xs: seq<Action>, i: nat, j: nat, w: nat) returns (m: nat)
    requires Run(c, tr, xs) && i <= j < |tr| && tr[i].version <= w <= tr[j].version
    ensures i <= m <= j && tr[m].version == w && tr[m].hist <= tr[j].hist
    decreases j
  {
    if tr[j].version == w { return j; }
    if i == j { return j; }
    StepGrows(c, tr[j - 1], xs[j - 1]);
    m := VersionWasCurrent(c, tr, xs, i, j - 1, w);
  }

  lemma {:induction false} VersionIsKept(c: Codec, tr: seq<Sys>, xs: seq<Action>, i: nat, j: nat, r: nat)
    requires Run(c, tr, xs) && i < j < |tr| && xs[i] == ReadVersion(r)
    ensures r in tr[j].readers && tr[j].readers[r].v == tr[i].version
    decreases j
  {
    if j > i + 1 { VersionIsKept(c, tr, xs, i, j - 1, r); }
  }

  /** What a reconciler gets is the fingerprint of the namespace's content at an instant between its
      version read and its return, although slower reconcilers may overwrite newer cache entries. */
  lemma Linearizable(c: Codec, tr: seq<Sys>, xs: seq<Action>, i: nat, j: nat, r: nat) returns (m: nat)
    requires Run(c, tr, xs) && i < j < |tr| && xs[i] == ReadVersion(r)
    requires r in tr[j].readers && tr[j].readers[r].Returned?
    ensures i <= m <= j && IsFingerprint(c, tr[m].content, tr[j].readers[r].fp)
    ensures NulFreeRows(tr[m].content) ==>
              forall fp :: IsFingerprint(c, tr[m].content, fp) ==> fp == tr[j].readers[r].fp
  {
    VersionIsKept(c, tr, xs, i, j, r);
    RunKeeps(c, tr, xs, j);
    var v, fp := tr[j].readers[r].v, tr[j].readers[r].fp;
    var w :| v <= w < |tr[j].hist| && IsFingerprint(c, tr[j].hist[w], fp);
    m := VersionWasCurrent(c, tr, xs, i, j, w);
    RunKeeps(c, tr, xs, m);
    forall fp' | NulFreeRows(tr[m].content) && IsFingerprint(c, tr[m].content, fp') ensures fp' == fp {
      FingerprintUnique(c, tr[m].ns, tr[m].content, fp, fp');
    }
  }

  lemma {:induction false} CacheKept(c: Codec, tr: seq<Sys>, xs: seq<Action>, i: nat, j: nat)
    requires Run(c, tr, xs) && i <= j < |tr| && forall n :: i <= n < j ==> !xs[n].Put?
    ensures tr[j].cache == tr[i].cache
    decreases j
  {
    if i < j { CacheKept(c, tr, xs, i, j - 1); }
  }

  /** A reconciler that looks up a version returns at once what was last put under exactly that version,
      and computes only if the last put, if any, was for another version. */
  lemma LookupExact(c: Codec, tr: seq<Sys>, xs: seq<Action>, i: nat, j: nat, w: nat, r: nat)
    requires Run(c, tr, xs) && i < j < |xs| && xs[i] == Put(w) && xs[j] == Lookup(r)
    requires forall n :: i < n < j ==> !xs[n].Put?
    ensures w in tr[i].readers && tr[i].readers[w].Computed? && r in tr[j].readers && r in tr[j + 1].readers
    ensures tr[j + 1].readers[r] ==
            if tr[j].readers[r].v == tr[i].readers[w].v then Returned(tr[j].readers[r].v, tr[i].readers[w].fp)
            else Missed(tr[j].readers[r].v)
  {
    assert Enabled(c, tr[i], xs[i]) && tr[i + 1] == Apply(c, tr[i], xs[i]);
    CacheKept(c, tr, xs, i + 1, j);
    assert Enabled(c, tr[j], xs[j]) && tr[j + 1] == Apply(c, tr[j], xs[j]);
  }

  /** Two reads of the same version saw the same content. */
  lemma VersionDeterminesContent(c: Codec, tr: seq<Sys>, xs: seq<Action>, i: nat, j: nat)
    requires Run(c, tr, xs) && i <= j < |tr| && tr[i].version == tr[j].version
    ensures tr[i].content == tr[j].content
    decreases j
  {
    RunKeeps(c, tr, xs, i);
    RunKeeps(c, tr, xs, j);
    HistGrows(c, tr, xs, i, j);
  }

  lemma {:induction false} HistGrows(c: Codec, tr: seq<Sys>, xs: seq<Action>, i: nat, j: nat)
    requires Run(c, tr, xs) && i <= j < |tr|
    ensures tr[i].hist <= tr[j].hist
    decreases j
  {
    if i < j {
      HistGrows(c, tr, xs, i, j - 1);
      StepGrows(c, tr[j - 1], xs[j - 1]);
    }
  }
}
