/** What holds in every run of the backend pool. */
module PoolResults {
  import opened Options
  import opened PoolModel
  import opened PoolInvariants
  import opened PoolProtocol
  import opened PoolAccounting
  import opened PoolTheorems

  /******* Close safety and conservation *******/

  /** No backend is closed, or waiting to be closed, while an acquire holds or owns it, and none is
      closed twice. */
  lemma CloseSafety(tr: seq<Sys>, xs: seq<Action>, i: nat, o: nat, b: Backend)
    requires Run(tr, xs) && i < |tr|
    ensures tr[i].pool.due[b] + tr[i].pool.closed[b] <= 1
    ensures o < |tr[i].ops| && (Holds(tr[i].ops[o], b) || Owns(tr[i].ops[o], b)) ==>
              tr[i].pool.due[b] == 0 && tr[i].pool.closed[b] == 0
  {
    RunKeeps(tr, xs, i);
    var s := tr[i];
    assert Account(s.pool, HeldBy(s.ops, b), OwnedBy(s.ops, b), s.built, b);
    if o < |s.ops| { CountAt(s.ops, o, b); }
  }

  predicate InPool(s: Sys, b: Backend) { b in s.pool.cells && !s.pool.cells[b].retired }
  predicate RetiredHeld(s: Sys, b: Backend) { b in s.pool.cells && s.pool.cells[b].retired && HeldBy(s.ops, b) > 0 }
  predicate OwnedOutside(s: Sys, b: Backend) { OwnedBy(s.ops, b) == 1 && b !in s.pool.cells }
  predicate ClosePending(s: Sys, b: Backend) { s.pool.due[b] == 1 }
  predicate ClosedOnce(s: Sys, b: Backend) { s.pool.closed[b] == 1 }

  /** Every backend ever built is in exactly one place, and nothing else is anywhere. */
  lemma Conservation(tr: seq<Sys>, xs: seq<Action>, i: nat, b: Backend)
    requires Run(tr, xs) && i < |tr|
    ensures var s := tr[i];
      Bit(InPool(s, b)) + Bit(RetiredHeld(s, b)) + Bit(OwnedOutside(s, b)) + Bit(ClosePending(s, b)) + Bit(ClosedOnce(s, b))
        == Bit(b in s.built)
    ensures InPool(tr[i], b) <==> exists k :: k in tr[i].pool.entries && tr[i].pool.entries[k] == b
  {
    RunKeeps(tr, xs, i);
    var s := tr[i];
    assert Account(s.pool, HeldBy(s.ops, b), OwnedBy(s.ops, b), s.built, b);
  }

  ghost predicate Quiescent(s: Sys) {
    s.pool.due == multiset{} && forall o :: 0 <= o < |s.ops| ==> Neutral(s.ops[o])
  }

  lemma {:induction false} NeutralHoldsNothing(ops: seq<Op>, b: Backend)
    requires forall o :: 0 <= o < |ops| ==> Neutral(ops[o])
    ensures HeldBy(ops, b) == 0 && OwnedBy(ops, b) == 0
  {
    if ops != [] { NeutralHoldsNothing(ops[..|ops| - 1], b); }
  }

  /** Once every hold is released and every due Close ran, a backend is the one entry of its key or
      was closed exactly once. */
  lemma Drained(tr: seq<Sys>, xs: seq<Action>, i: nat, b: Backend)
    requires Run(tr, xs) && i < |tr| && Quiescent(tr[i]) && b in tr[i].built
    ensures var p := tr[i].pool;
      if p.closed[b] == 0
      then b in p.cells && EntryAt(p, p.cells[b].home) == Some(b)
      else p.closed[b] == 1 && forall k :: k in p.entries ==> p.entries[k] != b
  {
    Conservation(tr, xs, i, b);
    RunKeeps(tr, xs, i);
    NeutralHoldsNothing(tr[i].ops, b);
  }

  /******* The store fence *******/

  ghost predicate Later(s: Sys, t: Sys) {
    Evolves(s.pool, t.pool) && forall b :: b in s.built ==> b in t.built && t.built[b] == s.built[b]
  }

  lemma LaterTransitive(s: Sys, t: Sys, u: Sys)
    requires Later(s, t) && Later(t, u)
    ensures Later(s, u)
  {
    EvolvesTransitive(s.pool, t.pool, u.pool);
  }

  lemma NextLater(tr: seq<Sys>, xs: seq<Action>, i: nat)
    requires Run(tr, xs) && i < |xs|
    ensures Later(tr[i], tr[i + 1])
  {
    RunKeeps(tr, xs, i);
    assert Step(tr[i], xs[i], tr[i + 1]);
    StepEvolves(tr[i], xs[i]);
  }

  lemma {:induction false} RunLater(tr: seq<Sys>, xs: seq<Action>, i: nat, j: nat)
    requires Run(tr, xs) && i <= j < |tr|
    ensures Later(tr[i], tr[j])
    decreases j - i
  {
    if i == j {
      CellsOnlyEvolves(tr[i].pool, tr[i].pool);
    } else {
      NextLater(tr, xs, i);
      RunLater(tr, xs, i + 1, j);
      LaterTransitive(tr[i], tr[i + 1], tr[j]);
    }
  }

  /** A fence value that an event of its key superseded never comes back: not after the key's
      generation aged out and was issued anew, and absence reads as 0, which no acquire records. */
  lemma FenceValuesNeverReturn(tr: seq<Sys>, xs: seq<Action>, i: nat, j: nat, k: PoolKey)
    requires Run(tr, xs) && i <= j < |tr| && k in tr[i].pool.generations
    ensures FenceValue(tr[i].pool, k) > 0
    ensures FenceValue(tr[j].pool, k) == FenceValue(tr[i].pool, k) <==> Quiet(tr[j].pool.log, |tr[i].pool.log|, k)
    ensures Quiet(tr[j].pool.log, |tr[i].pool.log|, k) ==> EntryAt(tr[j].pool, k) == EntryAt(tr[i].pool, k)
  {
    RunKeeps(tr, xs, i);
    RunKeeps(tr, xs, j);
    RunLater(tr, xs, i, j);
  }

  /** A build that started with the miss in tr[m] and is stored by step i enters the pool exactly
      when its key is not tombstoned and no store, retire, eviction or ageing of that key
      happened in between. */
  lemma StoreFenceExact(tr: seq<Sys>, xs: seq<Action>, m: nat, i: nat, o: nat)
    requires Run(tr, xs) && m <= i < |xs| && xs[i] == StoreBuild(o)
    requires o < |tr[m].ops| && tr[m].ops[o].Missed? && tr[m].ops[o].since == |tr[m].pool.log|
    ensures o < |tr[i].ops| && tr[i].ops[o].Built?
    ensures var k := tr[m].ops[o].a.key; var b := tr[i].ops[o].b;
      EntryAt(tr[i + 1].pool, k) == Some(b) <==>
      k !in tr[i].pool.tombstones && Quiet(tr[i].pool.log, |tr[m].pool.log|, k)
  {
    assert Step(tr[i], xs[i], tr[i + 1]);
    BuildCarriesMiss(tr, xs, m, i, o);
    RunKeeps(tr, xs, i);
    var s, op := tr[i], tr[i].ops[o];
    assert OpInv(s.pool, s.built, op);
    OwnerAlone(s.pool, s.ops, s.built, o, op.b);
  }

  ghost predicate PastLookup(s: Sys, o: nat) {
    o < |s.ops| && !s.ops[o].Reading? && !s.ops[o].MustReread?
  }

  /** Past its lookup an acquire does not read again; until its store it keeps what its miss recorded. */
  ghost predicate CarryStep(s: Sys, t: Sys, o: nat) {
    PastLookup(s, o) ==>
      && PastLookup(t, o) && t.ops[o].a.key == s.ops[o].a.key
      && (t.ops[o].Missed? || t.ops[o].Built? ==>
            && (s.ops[o].Missed? || s.ops[o].Built?)
            && t.ops[o].since == s.ops[o].since && t.ops[o].generation == s.ops[o].generation)
  }

  lemma StepCarries(s: Sys, x: Action, t: Sys, o: nat)
    requires Step(s, x, t)
    ensures CarryStep(s, t, o)
  {
  }

  lemma {:induction false} CarriesMiss(tr: seq<Sys>, m: nat, i: nat, o: nat)
    requires m <= i < |tr| && (forall n :: m <= n < i ==> CarryStep(tr[n], tr[n + 1], o))
    requires o < |tr[m].ops| && tr[m].ops[o].Missed?
    ensures PastLookup(tr[i], o) && tr[i].ops[o].a.key == tr[m].ops[o].a.key
    ensures tr[i].ops[o].Missed? || tr[i].ops[o].Built? ==>
              tr[i].ops[o].since == tr[m].ops[o].since && tr[i].ops[o].generation == tr[m].ops[o].generation
    decreases i
  {
    if m < i {
      CarriesMiss(tr, m, i - 1, o);
      assert CarryStep(tr[i - 1], tr[i - 1 + 1], o);
    }
  }

  /** Up to its store, a build keeps the key, fence value and log position of its miss. */
  lemma BuildCarriesMiss(tr: seq<Sys>, xs: seq<Action>, m: nat, i: nat, o: nat)
    requires Run(tr, xs) && m <= i < |tr| && o < |tr[m].ops| && tr[m].ops[o].Missed?
    ensures o < |tr[i].ops|
    ensures var was, op := tr[m].ops[o], tr[i].ops[o];
      op.a.key == was.a.key && !op.Reading? && !op.MustReread? &&
      (op.Missed? || op.Built? ==> op.since == was.since && op.generation == was.generation)
  {
    forall n | m <= n < i ensures CarryStep(tr[n], tr[n + 1], o) { StepCarries(tr[n], xs[n], tr[n + 1], o); }
    CarriesMiss(tr, m, i, o);
  }

  lemma TombstonedNeverPooled(tr: seq<Sys>, xs: seq<Action>, i: nat, k: PoolKey)
    requires Run(tr, xs) && i < |tr| && k in tr[i].pool.tombstones
    ensures k !in tr[i].pool.entries
  {
    RunKeeps(tr, xs, i);
  }

  /******* What an acquire gets *******/

  /** The actions that read Secret versions for acquire o: its metadata reads and its full read. */
  predicate ReadsSecrets(x: Action, o: nat) {
    (x.ReadOk? || x.Build?) && x.o == o
  }

  /** The metadata reads of acquire o that observed something: the Secrets, or that one is missing. */
  predicate Observes(x: Action, o: nat) {
    (x.ReadOk? || x.ReadGone?) && x.o == o
  }

  /** Starting acquire o begins its first metadata read, ReadAgain a further one. */
  predicate BeginsRead(s: Sys, x: Action, o: nat) {
    (x.Begin? && o == |s.ops|) || (x.ReadAgain? && x.o == o)
  }

  /** What a step does to acquire o: a new one begins without versions, the others keep key and spec;
      versions change only by reading some, disagreement only by observing. */
  ghost predicate AcquireStep(s: Sys, x: Action, t: Sys, o: nat) {
    && |t.ops| == |s.ops| + (if x.Begin? then 1 else 0) && (x.ReadAgain? ==> x.o < |s.ops|)
    && (o < |s.ops| ==>
          && t.ops[o].a.key == s.ops[o].a.key && t.ops[o].a.specHash == s.ops[o].a.specHash
          && (t.ops[o].a.read.Some? ==>
                if ReadsSecrets(x, o) then t.ops[o].a.read == Some(EntryKey(t.ops[o].a.specHash, x.versions))
                else t.ops[o].a.read == s.ops[o].a.read)
          && (!Observes(x, o) ==> t.ops[o].a.rejected == s.ops[o].a.rejected)
          && t.ops[o].a.attempts == s.ops[o].a.attempts + (if BeginsRead(s, x, o) then 1 else 0))
    && (x.Begin? && o == |s.ops| ==>
          t.ops[o].a.key == x.key && t.ops[o].a.specHash == x.specHash && t.ops[o].a.read.None? &&
          t.ops[o].a.attempts == 1)
  }

  ghost predicate AcquireRun(tr: seq<Sys>, xs: seq<Action>, o: nat) {
    |tr| == |xs| + 1 && tr[0].ops == [] && forall i :: 0 <= i < |xs| ==> AcquireStep(tr[i], xs[i], tr[i + 1], o)
  }

  lemma StepAcquires(s: Sys, x: Action, t: Sys, o: nat)
    requires Step(s, x, t)
    ensures AcquireStep(s, x, t, o)
  {
  }

  lemma RunAcquires(tr: seq<Sys>, xs: seq<Action>, o: nat)
    requires Run(tr, xs)
    ensures AcquireRun(tr, xs, o)
  {
    forall i | 0 <= i < |xs| ensures AcquireStep(tr[i], xs[i], tr[i + 1], o) { StepAcquires(tr[i], xs[i], tr[i + 1], o); }
  }

  /** An acquire keeps its key and its spec. */
  lemma {:induction false} IdentityKept(tr: seq<Sys>, xs: seq<Action>, m: nat, i: nat, o: nat)
    requires AcquireRun(tr, xs, o) && m <= i < |tr| && o < |tr[m].ops|
    ensures o < |tr[i].ops| && tr[i].ops[o].a.key == tr[m].ops[o].a.key
    ensures tr[i].ops[o].a.specHash == tr[m].ops[o].a.specHash
    decreases i
  {
    if m < i {
      IdentityKept(tr, xs, m, i - 1, o);
      assert AcquireStep(tr[i - 1], xs[i - 1], tr[i], o);
    }
  }

  lemma {:induction false} AcquireBegan(tr: seq<Sys>, xs: seq<Action>, i: nat, o: nat) returns (m: nat)
    requires AcquireRun(tr, xs, o) && i < |tr| && o < |tr[i].ops|
    ensures m < i && xs[m].Begin? && |tr[m].ops| == o
    ensures xs[m].key == tr[i].ops[o].a.key && xs[m].specHash == tr[i].ops[o].a.specHash
    decreases i
  {
    assert i > 0;
    assert AcquireStep(tr[i - 1], xs[i - 1], tr[i], o);
    if o < |tr[i - 1].ops| {
      m := AcquireBegan(tr, xs, i - 1, o);
    } else {
      m := i - 1;
    }
  }

  /** The versions on record come from the last action that read any. */
  lemma {:induction false} LastRead(tr: seq<Sys>, xs: seq<Action>, i: nat, o: nat) returns (m: nat)
    requires AcquireRun(tr, xs, o) && i < |tr| && o < |tr[i].ops| && tr[i].ops[o].a.read.Some?
    ensures m < i && ReadsSecrets(xs[m], o) && o < |tr[m].ops|
    ensures forall n :: m < n < i ==> !ReadsSecrets(xs[n], o)
    ensures tr[i].ops[o].a.read == Some(EntryKey(tr[i].ops[o].a.specHash, xs[m].versions))
    decreases i
  {
    assert i > 0;
    assert AcquireStep(tr[i - 1], xs[i - 1], tr[i], o);
    if ReadsSecrets(xs[i - 1], o) {
      m := i - 1;
    } else {
      m := LastRead(tr, xs, i - 1, o);
    }
  }

  /** Whatever backend an acquire returns, by hit, by its own build or by sharing a racing build, it
      was built from the spec that the acquire began with and from the Secret versions that the
      acquire's own last read returned. */
  lemma BuiltFromWhatWasRead(tr: seq<Sys>, xs: seq<Action>, i: nat, o: nat) returns (begin: nat, m: nat)
    requires Run(tr, xs) && i < |tr| && o < |tr[i].ops| && (tr[i].ops[o].Holding? || tr[i].ops[o].Owning?)
    ensures begin < m < i && xs[begin].Begin? && |tr[begin].ops| == o && xs[begin].key == tr[i].ops[o].a.key
    ensures ReadsSecrets(xs[m], o) && forall n :: m < n < i ==> !ReadsSecrets(xs[n], o)
    ensures tr[i].ops[o].b in tr[i].built
    ensures tr[i].built[tr[i].ops[o].b] == EntryKey(xs[begin].specHash, xs[m].versions)
  {
    RunKeeps(tr, xs, i);
    assert OpInv(tr[i].pool, tr[i].built, tr[i].ops[o]);
    RunAcquires(tr, xs, o);
    m := LastRead(tr, xs, i, o);
    begin := AcquireBegan(tr, xs, m, o);
    IdentityKept(tr, xs, m, i, o);
  }

  /** How many metadata reads acquire o began in the first i steps. */
  function ReadsBegun(tr: seq<Sys>, xs: seq<Action>, i: nat, o: nat): nat
    requires i <= |xs| && i <= |tr|
  {
    if i == 0 then 0 else ReadsBegun(tr, xs, i - 1, o) + if BeginsRead(tr[i - 1], xs[i - 1], o) then 1 else 0
  }

  lemma {:induction false} ReadsCounted(tr: seq<Sys>, xs: seq<Action>, i: nat, o: nat)
    requires AcquireRun(tr, xs, o) && i < |tr|
    ensures ReadsBegun(tr, xs, i, o) == if o < |tr[i].ops| then tr[i].ops[o].a.attempts else 0
  {
    if i > 0 {
      assert AcquireStep(tr[i - 1], xs[i - 1], tr[i], o);
      ReadsCounted(tr, xs, i - 1, o);
      if xs[i - 1].ReadAgain? && xs[i - 1].o == o { assert o < |tr[i - 1].ops|; }
    }
  }

  lemma AtMostTwoReads(tr: seq<Sys>, xs: seq<Action>, i: nat, o: nat)
    requires Run(tr, xs) && i < |tr|
    ensures ReadsBegun(tr, xs, i, o) <= POOL_READ_ATTEMPTS
  {
    RunKeeps(tr, xs, i);
    RunAcquires(tr, xs, o);
    ReadsCounted(tr, xs, i, o);
    if o < |tr[i].ops| { assert OpInv(tr[i].pool, tr[i].built, tr[i].ops[o]); }
  }

  /** When an acquire is past its lookup, the entry its last observation disagreed with is out of
      the pool, and stays out, whatever the re-read or the rebuild did. */
  lemma RejectedEntryStaysOut(tr: seq<Sys>, xs: seq<Action>, i: nat, j: nat, o: nat, k: PoolKey)
    requires Run(tr, xs) && i <= j < |tr| && o < |tr[i].ops|
    requires !tr[i].ops[o].Reading? && !tr[i].ops[o].MustReread?
    ensures var d := tr[i].ops[o].a.rejected; d.Some? ==> EntryAt(tr[j].pool, k) != d
  {
    RunKeeps(tr, xs, i);
    RunKeeps(tr, xs, j);
    RunLater(tr, xs, i, j);
    assert OpInv(tr[i].pool, tr[i].built, tr[i].ops[o]);
    var d := tr[i].ops[o].a.rejected;
    if d.Some? { assert SameCell(tr[i].pool.cells[d.value], tr[j].pool.cells[d.value]); }
  }

  lemma {:induction false} RejectedKept(tr: seq<Sys>, xs: seq<Action>, m: nat, i: nat, o: nat)
    requires AcquireRun(tr, xs, o) && m <= i < |tr| && o < |tr[m].ops|
    requires forall n :: m <= n < i ==> !Observes(xs[n], o)
    ensures o < |tr[i].ops| && tr[i].ops[o].a.rejected == tr[m].ops[o].a.rejected
    decreases i
  {
    if m < i {
      RejectedKept(tr, xs, m, i - 1, o);
      assert AcquireStep(tr[i - 1], xs[i - 1], tr[i], o);
    }
  }

  /** An observation that does not end in a hold disagreed with the entry pooled for its key. */
  lemma ObservationRejects(tr: seq<Sys>, xs: seq<Action>, n: nat, o: nat)
    requires Run(tr, xs) && n < |xs| && Observes(xs[n], o) && o < |tr[n].ops| && tr[n].ops[o].Reading?
    requires var k := tr[n].ops[o].a.key; k in tr[n].pool.entries && !Idle(tr[n].pool, k, xs[n].now)
    ensures o < |tr[n + 1].ops|
    ensures !tr[n + 1].ops[o].Holding? ==> tr[n + 1].ops[o].a.rejected == EntryAt(tr[n].pool, tr[n].ops[o].a.key)
  {
    RunKeeps(tr, xs, n);
    assert Step(tr[n], xs[n], tr[n + 1]);
    if xs[n].ReadOk? { PruneKeepsBusy(tr[n].pool, xs[n].order, xs[n].now, tr[n].ops[o].a.key); }
  }

  /** The entry that an acquire's last successful observation disagreed with is out of the pool once the
      acquire is past its lookup, and stays out, although the re-read or the rebuild may have failed. */
  lemma DisagreeingEntryGoesOut(tr: seq<Sys>, xs: seq<Action>, n: nat, i: nat, j: nat, o: nat, k: PoolKey)
    requires Run(tr, xs) && n < i <= j < |tr| && Observes(xs[n], o) && o < |tr[n].ops| && tr[n].ops[o].Reading?
    requires forall m :: n < m < i ==> !Observes(xs[m], o)
    requires var home := tr[n].ops[o].a.key; home in tr[n].pool.entries && !Idle(tr[n].pool, home, xs[n].now)
    requires o < |tr[n + 1].ops| && !tr[n + 1].ops[o].Holding?
    requires o < |tr[i].ops| && !tr[i].ops[o].Reading? && !tr[i].ops[o].MustReread?
    ensures EntryAt(tr[j].pool, k) != EntryAt(tr[n].pool, tr[n].ops[o].a.key)
  {
    ObservationRejects(tr, xs, n, o);
    RunAcquires(tr, xs, o);
    RejectedKept(tr, xs, n + 1, i, o);
    RejectedEntryStaysOut(tr, xs, i, j, o, k);
  }

  /** q has the same entry as p for k, in the same state, and the same generation. */
  ghost predicate Unvisited(p: Pool, q: Pool, k: PoolKey) {
    && EntryAt(q, k) == EntryAt(p, k)
    && (k in p.entries ==> Has(p, k) && Has(q, k) && q.cells[p.entries[k]] == p.cells[p.entries[k]])
    && (k in p.generations <==> k in q.generations)
    && (k in p.generations ==> q.generations[k] == p.generations[k])
  }

  /** A visit of another key, or of a busy one, leaves k's entry alone. */
  lemma VisitKeeps(q: Pool, last: PoolKey, now: Time, k: PoolKey)
    requires PoolInv(q) && (k != last || !Idle(q, k, now))
    ensures Unvisited(q, PruneOne(q, last, now), k)
  {
  }

  lemma {:induction false} PruneKeepsBusy(p: Pool, order: seq<PoolKey>, now: Time, k: PoolKey)
    requires PoolInv(p) && (!Idle(p, k, now) || k !in order)
    ensures Unvisited(p, PruneEntries(p, order, now), k)
    decreases |order|
  {
    if order != [] {
      var front, last := order[..|order| - 1], order[|order| - 1];
      assert order == front + [last];
      PruneKeepsBusy(p, front, now, k);
      PruneEntriesPassive(p, front, now);
      VisitKeeps(PruneEntries(p, front, now), last, now, k);
    }
  }

  lemma RetireRemoves(q: Pool, k: PoolKey, now: Time)
    requires PoolInv(q)
    ensures k !in Retire(q, k, now).entries && Retire(q, k, now).entries.Keys <= q.entries.Keys
  {
  }

  lemma {:induction false} PruneDropsIdle(p: Pool, order: seq<PoolKey>, now: Time, k: PoolKey)
    requires PoolInv(p) && Idle(p, k, now) && k in order
    ensures k !in PruneEntries(p, order, now).entries
    decreases |order|
  {
    var front, last := order[..|order| - 1], order[|order| - 1];
    assert order == front + [last];
    var q := PruneEntries(p, front, now);
    PruneEntriesPassive(p, front, now);
    RetireRemoves(q, last, now);
    if k in front { PruneDropsIdle(p, front, now, k); } else { PruneKeepsBusy(p, front, now, k); }
  }

  /** Nobody holds k's entry and it was last used more than 48 hours ago. */
  ghost predicate LongIdle(p: Pool, k: PoolKey, now: Time) {
    && k in p.entries && p.entries[k] in p.cells
    && p.cells[p.entries[k]].holders == 0 && now > p.cells[p.entries[k]].lastUsed + 48 * 3600 * 1_000_000_000
  }

  /** The prune of an acquire retires exactly the entries nobody holds that were idle longer than
      the TTL, in whatever order the map yields them. */
  lemma PruneExact(p: Pool, order: seq<PoolKey>, now: Time, k: PoolKey)
    requires PoolInv(p) && Enumerates(order, p.entries.Keys)
    ensures k in Prune(p, order, now).entries <==> k in p.entries && !LongIdle(p, k, now)
  {
    if Idle(p, k, now) { PruneDropsIdle(p, order, now, k); } else { PruneKeepsBusy(p, order, now, k); }
  }

  /** A first metadata read makes an entry that is not idle past the TTL leave the pool only if that
      entry was already pooled when the read began. */
  lemma FirstReadRetiresOnlyOlder(tr: seq<Sys>, xs: seq<Action>, i: nat, o: nat, now: Time) returns (m: nat)
    requires Run(tr, xs) && i < |xs| && o < |tr[i].ops| && tr[i].ops[o].Reading? && tr[i].ops[o].a.attempts == 1
    requires xs[i] == ReadGone(o, now) || (xs[i].ReadOk? && xs[i].o == o && xs[i].now == now)
    requires var k := tr[i].ops[o].a.key;
      k in tr[i].pool.entries && !Idle(tr[i].pool, k, now) && k !in tr[i + 1].pool.entries
    ensures 0 < m <= i && o < |tr[m].ops| && tr[m].ops[o] == tr[i].ops[o]
    ensures o < |tr[m - 1].ops| ==> tr[m - 1].ops[o] != tr[m].ops[o]
    ensures var k := tr[i].ops[o].a.key; EntryAt(tr[m].pool, k) == EntryAt(tr[i].pool, k)
  {
    m := ReadBegan(tr, xs, i, o);
    RunKeeps(tr, xs, i);
    assert Step(tr[i], xs[i], tr[i + 1]);
    var s, op := tr[i], tr[i].ops[o];
    assert OpInv(s.pool, s.built, op);
    if xs[i].ReadOk? {
      var q := Prune(s.pool, xs[i].order, now);
      PrunePassive(s.pool, xs[i].order, now);
      PruneKeepsBusy(s.pool, xs[i].order, now, op.a.key);
      FenceKept(s.pool, q, op.a.key, op.readGeneration, op.since, op.entryAtRead);
    }
  }

  /** The step at which the read of a Reading acquire began, and what was pooled then. */
  lemma {:induction false} ReadBegan(tr: seq<Sys>, xs: seq<Action>, i: nat, o: nat) returns (m: nat)
    requires Run(tr, xs) && i < |tr| && o < |tr[i].ops| && tr[i].ops[o].Reading?
    ensures 0 < m <= i && o < |tr[m].ops| && tr[m].ops[o] == tr[i].ops[o]
    ensures o < |tr[m - 1].ops| ==> tr[m - 1].ops[o] != tr[m].ops[o]
    ensures EntryAt(tr[m].pool, tr[i].ops[o].a.key) == tr[i].ops[o].entryAtRead
    ensures FenceValue(tr[m].pool, tr[i].ops[o].a.key) == tr[i].ops[o].readGeneration
    decreases i
  {
    m := i;
    assert i > 0;
    assert Step(tr[i - 1], xs[i - 1], tr[i]);
    if o < |tr[i - 1].ops| && tr[i - 1].ops[o] == tr[i].ops[o] {
      m := ReadBegan(tr, xs, i - 1, o);
    }
  }
}
