/** What each action of the pool protocol does, exactly, in terms of what was pooled, read and held
    before it. */
module PoolOutcomes {
  import opened Options
  import opened PoolModel
  import opened PoolInvariants
  import opened PoolProtocol
  import opened PoolAccounting
  import opened PoolTheorems
  import opened PoolResults

  /******* Lookup *******/

  /** An entry is pooled for k that this acquire's prune does not retire. */
  ghost predicate Live(p: Pool, k: PoolKey, now: Time) {
    k in p.entries && p.entries[k] in p.cells && !LongIdle(p, k, now)
  }

  /** b is still the entry of k, with one holder more, and was used just now. */
  ghost predicate HeldNow(p: Pool, q: Pool, k: PoolKey, b: Backend, now: Time) {
    && EntryAt(q, k) == Some(b) && b in p.cells && b in q.cells
    && q.cells[b] == p.cells[b].(holders := p.cells[b].holders + 1, lastUsed := now)
  }

  /** b left the pool: retired, with its Close due at once exactly when nobody holds it. */
  ghost predicate Retired(p: Pool, q: Pool, k: PoolKey, b: Backend) {
    && k !in q.entries && b in p.cells && b in q.cells
    && q.cells[b] == p.cells[b].(retired := true)
    && (b in q.due <==> p.cells[b].holders == 0)
  }

  lemma PruneLive(p: Pool, order: seq<PoolKey>, k: PoolKey, now: Time)
    requires PoolInv(p) && Enumerates(order, p.entries.Keys)
    ensures PoolInv(Prune(p, order, now))
    ensures Live(p, k, now) <==> Has(Prune(p, order, now), k)
    ensures Live(p, k, now) ==>
      var q := Prune(p, order, now);
      && q.entries[k] == p.entries[k] && q.cells[p.entries[k]] == p.cells[p.entries[k]]
      && FenceValue(q, k) == FenceValue(p, k) && k in q.generations
  {
    PrunePassive(p, order, now);
    PruneExact(p, order, now, k);
    if Live(p, k, now) { PruneKeepsBusy(p, order, now, k); }
  }

  lemma DecideExact(q: Pool, k: PoolKey, key: EntryKey, g: nat, force: bool, now: Time)
    requires PoolInv(q)
    ensures var (r, look) := Decide(q, k, key, g, force, now);
      && (look.Hit? <==> Has(q, k) && q.cells[q.entries[k]].key == key)
      && (look.Hit? ==> look.b == q.entries[k] && HeldNow(q, r, k, look.b, now))
      && (look.Reread? <==> Has(q, k) && q.cells[q.entries[k]].key != key && !force && FenceValue(q, k) != g)
      && (look.Reread? ==> r == q)
      && (look.Miss? ==> k !in r.entries)
      && (look.Miss? && Has(q, k) ==> Retired(q, r, k, q.entries[k]))
      && (forall j :: j != k ==> EntryAt(r, j) == EntryAt(q, j))
  {
    if Has(q, k) { assert WithGeneration(q, k, now) == q; }
  }

  /** A metadata read that succeeds ends in a hold exactly when the pooled entry is live and was built
      from the very versions read; then that entry is held, stays pooled and counts as used now. It
      asks for a re-read exactly when the live entry is another one, this is the first read, and the
      key's fence moved since the read began. Otherwise it misses, with no entry left for the key and
      the one it disagreed with retired. */
  lemma LookupExact(tr: seq<Sys>, xs: seq<Action>, n: nat, o: nat)
    requires Run(tr, xs) && n < |xs| && xs[n].ReadOk? && xs[n].o == o
    ensures o < |tr[n].ops| && tr[n].ops[o].Reading? && o < |tr[n + 1].ops|
    ensures var s, t, op, now := tr[n], tr[n + 1], tr[n].ops[o], xs[n].now;
      var k, key := op.a.key, EntryKey(op.a.specHash, xs[n].versions);
      && (t.ops[o].Holding? <==> Live(s.pool, k, now) && s.pool.cells[s.pool.entries[k]].key == key)
      && (t.ops[o].Holding? ==> t.ops[o].b == s.pool.entries[k] && HeldNow(s.pool, t.pool, k, t.ops[o].b, now))
      && (t.ops[o].MustReread? <==>
            && Live(s.pool, k, now) && s.pool.cells[s.pool.entries[k]].key != key
            && op.a.attempts < 2 && FenceValue(s.pool, k) != op.readGeneration)
      && (t.ops[o].Holding? || t.ops[o].MustReread? || t.ops[o].Missed?)
      && (t.ops[o].Missed? ==> k !in t.pool.entries)
      && (t.ops[o].Missed? && Live(s.pool, k, now) ==> Retired(s.pool, t.pool, k, s.pool.entries[k]))
  {
    RunKeeps(tr, xs, n);
    assert Step(tr[n], xs[n], tr[n + 1]);
    var s, op, now := tr[n], tr[n].ops[o], xs[n].now;
    PruneLive(s.pool, xs[n].order, op.a.key, now);
    DecideExact(Prune(s.pool, xs[n].order, now), op.a.key, EntryKey(op.a.specHash, xs[n].versions),
                op.readGeneration, Forced(op.a), now);
  }

  /** Other keys only lose entries that are long idle. */
  lemma LookupOthers(tr: seq<Sys>, xs: seq<Action>, n: nat, o: nat, j: PoolKey)
    requires Run(tr, xs) && n < |xs| && xs[n].ReadOk? && xs[n].o == o
    requires o < |tr[n].ops| && j != tr[n].ops[o].a.key
    ensures EntryAt(tr[n + 1].pool, j) == if Live(tr[n].pool, j, xs[n].now) then EntryAt(tr[n].pool, j) else None
  {
    RunKeeps(tr, xs, n);
    assert Step(tr[n], xs[n], tr[n + 1]);
    var s, op, now := tr[n], tr[n].ops[o], xs[n].now;
    PruneLive(s.pool, xs[n].order, j, now);
    PruneLive(s.pool, xs[n].order, op.a.key, now);
    DecideExact(Prune(s.pool, xs[n].order, now), op.a.key, EntryKey(op.a.specHash, xs[n].versions),
                op.readGeneration, Forced(op.a), now);
  }

  /******* Failed reads, stores, evictions *******/

  /** A missing Secret keeps the entry for a re-read exactly when one is pooled, this is the first read,
      and the fence moved since it began; otherwise the acquire fails with the entry retired. */
  lemma GoneExact(tr: seq<Sys>, xs: seq<Action>, n: nat, o: nat)
    requires Run(tr, xs) && n < |xs| && xs[n].ReadGone? && xs[n].o == o
    ensures o < |tr[n].ops| && tr[n].ops[o].Reading? && o < |tr[n + 1].ops|
    ensures var s, t, op := tr[n], tr[n + 1], tr[n].ops[o];
      var k := op.a.key;
      && (t.ops[o].MustReread? <==> k in s.pool.entries && op.a.attempts < 2 && FenceValue(s.pool, k) != op.readGeneration)
      && (t.ops[o].MustReread? ==> t.pool == s.pool)
      && (!t.ops[o].MustReread? ==> t.ops[o].Finished? && k !in t.pool.entries)
      && (!t.ops[o].MustReread? && k in s.pool.entries ==> Retired(s.pool, t.pool, k, s.pool.entries[k]))
      && (forall j :: j != k ==> EntryAt(t.pool, j) == EntryAt(s.pool, j))
  {
    RunKeeps(tr, xs, n);
    assert Step(tr[n], xs[n], tr[n + 1]);
    var p, k := tr[n].pool, tr[n].ops[o].a.key;
    if k in p.entries { assert Has(p, k) && WithGeneration(p, k, xs[n].now) == p; }
  }

  /** A read that fails otherwise retires the entry only if an earlier read of the acquire disagreed
      with one and the pooled entry was built from the same versions as that one. */
  lemma FailedExact(tr: seq<Sys>, xs: seq<Action>, n: nat, o: nat)
    requires Run(tr, xs) && n < |xs| && xs[n].ReadFailed? && xs[n].o == o
    ensures o < |tr[n].ops| && tr[n].ops[o].Reading? && o < |tr[n + 1].ops| && tr[n + 1].ops[o].Finished?
    ensures var s, t, op := tr[n], tr[n + 1], tr[n].ops[o];
      var k, d := op.a.key, op.a.rejected;
      && (d.Some? <==> op.a.attempts == 2)
      && (d.Some? ==> d.value in s.pool.cells)
      && var again := k in s.pool.entries && s.pool.entries[k] in s.pool.cells && d.Some? &&
                      s.pool.cells[s.pool.entries[k]].key == s.pool.cells[d.value].key;
      && (again ==> Retired(s.pool, t.pool, k, s.pool.entries[k]))
      && (!again ==> t.pool == s.pool)
      && (forall j :: j != k ==> EntryAt(t.pool, j) == EntryAt(s.pool, j))
  {
    RunKeeps(tr, xs, n);
    assert Step(tr[n], xs[n], tr[n + 1]);
    assert OpInv(tr[n].pool, tr[n].built, tr[n].ops[o]);
  }

  /** A stored build is, in this order: owned by its builder when the key is tombstoned; surplus, to be
      closed, when an entry built from the same versions is pooled, which the builder then shares;
      pooled when no entry is there and the fence is that of the miss; else owned. */
  lemma StoreExact(tr: seq<Sys>, xs: seq<Action>, n: nat, o: nat)
    requires Run(tr, xs) && n < |xs| && xs[n] == StoreBuild(o)
    ensures o < |tr[n].ops| && tr[n].ops[o].Built? && o < |tr[n + 1].ops|
    ensures var s, t, op := tr[n], tr[n + 1], tr[n].ops[o];
      var k := op.a.key;
      var shared := k !in s.pool.tombstones && k in s.pool.entries && s.pool.entries[k] in s.pool.cells &&
                    s.pool.cells[s.pool.entries[k]].key == op.key;
      var pooled := k !in s.pool.tombstones && k !in s.pool.entries && FenceValue(s.pool, k) == op.generation;
      && (shared ==> t.ops[o] == Holding(op.a, s.pool.entries[k]) && HeldNow(s.pool, t.pool, k, s.pool.entries[k], op.now)
                     && t.pool.due == s.pool.due + multiset{op.b})
      && (pooled ==> t.ops[o] == Holding(op.a, op.b) && EntryAt(t.pool, k) == Some(op.b)
                     && op.b in t.pool.cells && t.pool.cells[op.b] == Cell(k, op.key, op.now, 1, false))
      && (!shared && !pooled ==> t.ops[o] == Owning(op.a, op.b) && t.pool == s.pool)
      && (forall j :: j != k ==> EntryAt(t.pool, j) == EntryAt(s.pool, j))
  {
    RunKeeps(tr, xs, n);
    assert Step(tr[n], xs[n], tr[n + 1]);
    assert OpInv(tr[n].pool, tr[n].built, tr[n].ops[o]);
    var p := tr[n].pool;
    if tr[n].ops[o].a.key in p.entries { assert Has(p, tr[n].ops[o].a.key); }
  }

  /** The actions that evict a key outright. */
  ghost predicate Evicts(s: Sys, x: Action, t: Sys, k: PoolKey) {
    match x
    case Evict(key, _) => key == k
    case EvictDeleted(key, _) => key == k
    case FullReadGone(o, _) => o < |s.ops| && s.ops[o].a.key == k
    case ReadGone(o, _) => o < |s.ops| && s.ops[o].a.key == k && o < |t.ops| && t.ops[o].Finished?
    case _ => false
  }

  lemma EvictExact(tr: seq<Sys>, xs: seq<Action>, n: nat, k: PoolKey)
    requires Run(tr, xs) && n < |xs| && Evicts(tr[n], xs[n], tr[n + 1], k)
    ensures k !in tr[n + 1].pool.entries
    ensures k in tr[n].pool.entries ==> Retired(tr[n].pool, tr[n + 1].pool, k, tr[n].pool.entries[k])
    ensures forall j :: j != k ==> EntryAt(tr[n + 1].pool, j) == EntryAt(tr[n].pool, j)
  {
    RunKeeps(tr, xs, n);
    assert Step(tr[n], xs[n], tr[n + 1]);
    var p := tr[n].pool;
    if k in p.entries { assert Has(p, k) && WithGeneration(p, k, 0) == p; }
    if xs[n].ReadGone? { GoneExact(tr, xs, n, xs[n].o); }
  }

  /** A release drops one hold; the backend becomes due exactly when it was retired and this was the last
      hold, or when the releaser owns it. No entry changes. */
  lemma ReleaseExact(tr: seq<Sys>, xs: seq<Action>, n: nat, o: nat)
    requires Run(tr, xs) && n < |xs| && xs[n] == ReleaseHold(o)
    ensures o < |tr[n].ops| && (tr[n].ops[o].Holding? || tr[n].ops[o].Owning?)
    ensures tr[n + 1].pool.entries == tr[n].pool.entries
    ensures var p, q, b := tr[n].pool, tr[n + 1].pool, tr[n].ops[o].b;
      if tr[n].ops[o].Owning? then q == p.(due := p.due + multiset{b})
      else
        && b in p.cells && p.cells[b].holders > 0 && b in q.cells
        && q.cells[b] == p.cells[b].(holders := p.cells[b].holders - 1)
        && q.due == if p.cells[b].retired && p.cells[b].holders == 1 then p.due + multiset{b} else p.due
  {
    RunKeeps(tr, xs, n);
    assert Step(tr[n], xs[n], tr[n + 1]);
    var s, op := tr[n], tr[n].ops[o];
    if op.Holding? {
      HolderCounted(s.pool, s.ops, s.built, o, op.b);
    }
  }

  /******* Tombstones *******/

  /** The actions that sweep expired tombstones and generations, with their clock. */
  predicate Sweeps(x: Action) {
    x.ReadOk? || x.EvictDeleted?
  }

  const TTL: int := 48 * 3600 * 1_000_000_000

  lemma PruneTombstones(p: Pool, order: seq<PoolKey>, now: Time, k: PoolKey)
    requires PoolInv(p)
    ensures k in Prune(p, order, now).tombstones <==> k in p.tombstones && now <= p.tombstones[k] + TTL
    ensures k in Prune(p, order, now).tombstones ==> Prune(p, order, now).tombstones[k] == p.tombstones[k]
  {
    PruneEntriesPassive(p, order, now);
  }

  /** Only a delete eviction of k writes its tombstone, and only a sweep past the TTL drops it. */
  ghost predicate TombstoneStep(s: Sys, x: Action, t: Sys, k: PoolKey) {
    if x.EvictDeleted? && x.key == k then k in t.pool.tombstones && t.pool.tombstones[k] == x.now
    else
      && (k in t.pool.tombstones <==> k in s.pool.tombstones && (Sweeps(x) ==> x.now <= s.pool.tombstones[k] + TTL))
      && (k in t.pool.tombstones ==> t.pool.tombstones[k] == s.pool.tombstones[k])
  }

  lemma LookupTombstones(p: Pool, k: PoolKey, key: EntryKey, g: nat, force: bool, order: seq<PoolKey>, now: Time)
    ensures LookupOrRetire(p, k, key, g, force, order, now).0.tombstones == Prune(p, order, now).tombstones
  {
    DecideTombstones(Prune(p, order, now), k, key, g, force, now);
  }

  lemma DecideTombstones(q: Pool, k: PoolKey, key: EntryKey, g: nat, force: bool, now: Time)
    ensures Decide(q, k, key, g, force, now).0.tombstones == q.tombstones
  {
  }

  lemma EvictTombstones(p: Pool, key: PoolKey, now: Time, k: PoolKey)
    ensures var q := EvictForDelete(p, key, now);
      if k == key then k in q.tombstones && q.tombstones[k] == now
      else
        && (k in q.tombstones <==> k in p.tombstones && now <= p.tombstones[k] + TTL)
        && (k in q.tombstones ==> q.tombstones[k] == p.tombstones[k])
  {
  }

  lemma OtherTombstones(s: Sys, x: Action, t: Sys)
    requires Step(s, x, t) && !Sweeps(x)
    ensures t.pool.tombstones == s.pool.tombstones
  {
  }

  lemma StepTombstones(s: Sys, x: Action, t: Sys, k: PoolKey)
    requires PoolInv(s.pool) && Step(s, x, t)
    ensures TombstoneStep(s, x, t, k)
  {
    if x.ReadOk? {
      var op := s.ops[x.o];
      PruneTombstones(s.pool, x.order, x.now, k);
      LookupTombstones(s.pool, op.a.key, EntryKey(op.a.specHash, x.versions), op.readGeneration, Forced(op.a), x.order, x.now);
    } else if x.EvictDeleted? {
      EvictTombstones(s.pool, x.key, x.now, k);
    } else {
      OtherTombstones(s, x, t);
    }
  }

  ghost predicate TombstoneRun(tr: seq<Sys>, xs: seq<Action>, k: PoolKey) {
    && |tr| == |xs| + 1 && k !in tr[0].pool.tombstones
    && forall i :: 0 <= i < |xs| ==> TombstoneStep(tr[i], xs[i], tr[i + 1], k)
  }

  lemma RunTombstones(tr: seq<Sys>, xs: seq<Action>, k: PoolKey)
    requires Run(tr, xs)
    ensures TombstoneRun(tr, xs, k)
  {
    forall i | 0 <= i < |xs| ensures TombstoneStep(tr[i], xs[i], tr[i + 1], k) {
      RunKeeps(tr, xs, i);
      StepTombstones(tr[i], xs[i], tr[i + 1], k);
    }
  }

  predicate Deletes(x: Action, k: PoolKey) {
    x.EvictDeleted? && x.key == k
  }

  /** Step n is the last delete eviction of k before i, and no sweep since was more than a TTL past it. */
  ghost predicate DeletedAt(xs: seq<Action>, k: PoolKey, i: nat, n: nat) {
    && n < i <= |xs| && Deletes(xs[n], k)
    && forall m :: n < m < i ==> !Deletes(xs[m], k) && (Sweeps(xs[m]) ==> xs[m].now <= xs[n].now + TTL)
  }

  lemma {:induction false} TombstoneFound(tr: seq<Sys>, xs: seq<Action>, k: PoolKey, i: nat) returns (n: nat)
    requires TombstoneRun(tr, xs, k) && i < |tr| && k in tr[i].pool.tombstones
    ensures DeletedAt(xs, k, i, n) && tr[i].pool.tombstones[k] == xs[n].now
    decreases i
  {
    assert i > 0;
    assert TombstoneStep(tr[i - 1], xs[i - 1], tr[i], k);
    if Deletes(xs[i - 1], k) { return i - 1; }
    n := TombstoneFound(tr, xs, k, i - 1);
  }

  lemma {:induction false} TombstoneLasts(tr: seq<Sys>, xs: seq<Action>, k: PoolKey, i: nat, n: nat)
    requires TombstoneRun(tr, xs, k) && i < |tr| && DeletedAt(xs, k, i, n)
    ensures k in tr[i].pool.tombstones && tr[i].pool.tombstones[k] == xs[n].now
    decreases i
  {
    assert TombstoneStep(tr[i - 1], xs[i - 1], tr[i], k);
    if n < i - 1 { TombstoneLasts(tr, xs, k, i - 1, n); }
  }

  /** A key is tombstoned exactly from a delete eviction of it until a sweep more than a TTL later. */
  lemma TombstonedExactly(tr: seq<Sys>, xs: seq<Action>, k: PoolKey, i: nat)
    requires Run(tr, xs) && i < |tr|
    ensures k in tr[i].pool.tombstones <==> exists n :: DeletedAt(xs, k, i, n)
  {
    RunTombstones(tr, xs, k);
    if k in tr[i].pool.tombstones {
      var n := TombstoneFound(tr, xs, k, i);
    } else if n :| DeletedAt(xs, k, i, n) {
      TombstoneLasts(tr, xs, k, i, n);
    }
  }

  /** All that time nothing is pooled for the deleted sink, and a build stored for it is its builder's. */
  lemma DeletedSinkIsNeverPooled(tr: seq<Sys>, xs: seq<Action>, k: PoolKey, i: nat, n: nat)
    requires Run(tr, xs) && i < |tr| && DeletedAt(xs, k, i, n)
    ensures k !in tr[i].pool.entries
    ensures i < |xs| && xs[i].StoreBuild? && xs[i].o < |tr[i].ops| && tr[i].ops[xs[i].o].a.key == k ==>
              xs[i].o < |tr[i + 1].ops| && tr[i + 1].ops[xs[i].o].Owning? && k !in tr[i + 1].pool.entries
  {
    TombstonedExactly(tr, xs, k, i);
    TombstonedNeverPooled(tr, xs, i, k);
    if i < |xs| && xs[i].StoreBuild? { StoreExact(tr, xs, i, xs[i].o); }
  }

  /******* The store fence, by actions *******/

  /** A sweep that drops k's generation: no entry is pooled for k and it last changed over a TTL ago. */
  ghost predicate AgesOut(s: Sys, x: Action, k: PoolKey) {
    Sweeps(x) && k in s.pool.generations && k !in s.pool.entries && x.now > s.pool.generations[k].changed + TTL
  }

  /** The step evicts k, changes which entry is pooled for it, or ages its generation out. */
  ghost predicate Disturbs(s: Sys, x: Action, t: Sys, k: PoolKey) {
    Evicts(s, x, t, k) || EntryAt(t.pool, k) != EntryAt(s.pool, k) || AgesOut(s, x, k)
  }

  /** The log of q continues that of p, with an event of k exactly when hit. */
  ghost predicate Logs(p: Pool, q: Pool, k: PoolKey, hit: bool) {
    p.log <= q.log && (Quiet(q.log, |p.log|, k) <==> !hit)
  }

  lemma LogsTwice(p: Pool, q: Pool, r: Pool, k: PoolKey, one: bool, two: bool)
    requires Logs(p, q, k, one) && Logs(q, r, k, two)
    ensures Logs(p, r, k, one || two)
  {
    assert forall i :: 0 <= i < |q.log| ==> q.log[i] == r.log[i];
    if !one && !two {
      forall i | |p.log| <= i < |r.log| ensures !Touches(r.log[i], k) {
        if i < |q.log| { assert q.log[i] == r.log[i]; }
      }
    } else if one {
      var i :| |p.log| <= i < |q.log| && Touches(q.log[i], k);
      assert Touches(r.log[i], k);
    }
  }

  lemma RetireLogs(p: Pool, j: PoolKey, now: Time, k: PoolKey)
    ensures Logs(p, Retire(p, j, now), k, j == k)
  {
    QuietAfter(p.log, Changed(j), k);
  }

  lemma {:induction false} PruneEntriesLogs(p: Pool, order: seq<PoolKey>, now: Time, k: PoolKey)
    requires PoolInv(p) && forall i, j :: 0 <= i < j < |order| ==> order[i] != order[j]
    ensures Logs(p, PruneEntries(p, order, now), k, k in order && LongIdle(p, k, now))
    ensures k in order && LongIdle(p, k, now) ==>
              k in PruneEntries(p, order, now).generations && PruneEntries(p, order, now).generations[k].changed == now
    decreases |order|
  {
    if order != [] {
      var front, last := order[..|order| - 1], order[|order| - 1];
      assert order == front + [last];
      var q := PruneEntries(p, front, now);
      PruneEntriesLogs(p, front, now, k);
      PruneEntriesPassive(p, front, now);
      if k == last {
        assert k !in front;
        PruneKeepsBusy(p, front, now, k);
      }
      PruneOneLogs(q, last, now, k);
      LogsTwice(p, q, PruneOne(q, last, now), k, k in front && LongIdle(p, k, now), k == last && LongIdle(q, k, now));
    }
  }

  lemma PruneOneLogs(q: Pool, last: PoolKey, now: Time, k: PoolKey)
    ensures Logs(q, PruneOne(q, last, now), k, k == last && LongIdle(q, k, now))
    ensures k != last && k in q.generations ==>
              k in PruneOne(q, last, now).generations && PruneOne(q, last, now).generations[k] == q.generations[k]
    ensures k == last && LongIdle(q, k, now) ==>
              k in PruneOne(q, last, now).generations && PruneOne(q, last, now).generations[k].changed == now
  {
    if Idle(q, last, now) { RetireLogs(q, last, now, k); }
  }

  lemma AgeOutLogs(p: Pool, now: Time, k: PoolKey)
    ensures Logs(p, AgeOut(p, now), k, k in p.generations && k !in p.entries && now > p.generations[k].changed + TTL)
  {
    QuietAfter(p.log, Aged(Expired(p, now)), k);
  }

  lemma PruneLogs(p: Pool, order: seq<PoolKey>, now: Time, k: PoolKey)
    requires PoolInv(p) && Enumerates(order, p.entries.Keys)
    ensures Logs(p, Prune(p, order, now), k,
      LongIdle(p, k, now) || (k in p.generations && k !in p.entries && now > p.generations[k].changed + TTL))
  {
    var q := PruneEntries(p, order, now);
    PruneEntriesLogs(p, order, now, k);
    AgeOutLogs(q, now, k);
    if !LongIdle(p, k, now) { PruneKeepsBusy(p, order, now, k); }
    LogsTwice(p, q, AgeOut(q, now), k, LongIdle(p, k, now),
              k in q.generations && k !in q.entries && now > q.generations[k].changed + TTL);
  }

  lemma DecideLogs(q: Pool, k0: PoolKey, key: EntryKey, g: nat, force: bool, now: Time, k: PoolKey)
    requires PoolInv(q)
    ensures var r := Decide(q, k0, key, g, force, now).0; Logs(q, r, k, EntryAt(r, k) != EntryAt(q, k))
  {
    DecideExact(q, k0, key, g, force, now);
    if Has(q, k0) {
      assert WithGeneration(q, k0, now) == q;
      RetireLogs(q, k0, now, k);
    }
  }

  lemma ReadOkLogs(s: Sys, x: Action, t: Sys, k: PoolKey)
    requires PoolInv(s.pool) && Step(s, x, t) && x.ReadOk?
    ensures Logs(s.pool, t.pool, k, Disturbs(s, x, t, k))
  {
    var op := s.ops[x.o];
    var q := Prune(s.pool, x.order, x.now);
    var key := EntryKey(op.a.specHash, x.versions);
    var r := Decide(q, op.a.key, key, op.readGeneration, Forced(op.a), x.now).0;
    PruneLogs(s.pool, x.order, x.now, k);
    PruneLive(s.pool, x.order, k, x.now);
    PruneExact(s.pool, x.order, x.now, k);
    DecideLogs(q, op.a.key, key, op.readGeneration, Forced(op.a), x.now, k);
    LogsTwice(s.pool, q, r, k, LongIdle(s.pool, k, x.now) || AgesOut(s, x, k), EntryAt(r, k) != EntryAt(q, k));
    DecideExact(q, op.a.key, key, op.readGeneration, Forced(op.a), x.now);
    assert t.pool.log == r.log && t.pool.entries == r.entries;
  }

  lemma EvictDeletedLogs(s: Sys, x: Action, t: Sys, k: PoolKey)
    requires PoolInv(s.pool) && Step(s, x, t) && x.EvictDeleted?
    ensures Logs(s.pool, t.pool, k, Disturbs(s, x, t, k))
  {
    var q := Retire(s.pool, x.key, x.now);
    var tomb := q.(tombstones := q.tombstones[x.key := x.now]);
    RetireLogs(s.pool, x.key, x.now, k);
    AgeOutLogs(tomb, x.now, k);
    LogsTwice(s.pool, q, t.pool, k, x.key == k, k in q.generations && k !in q.entries && x.now > q.generations[k].changed + TTL);
  }

  lemma GoneLogs(s: Sys, x: Action, t: Sys, k: PoolKey)
    requires PoolInv(s.pool) && Step(s, x, t) && x.ReadGone?
    ensures Logs(s.pool, t.pool, k, Evicts(s, x, t, k) || EntryAt(t.pool, k) != EntryAt(s.pool, k))
  {
    var home := s.ops[x.o].a.key;
    if home in s.pool.entries { assert Has(s.pool, home) && WithGeneration(s.pool, home, x.now) == s.pool; }
    RetireLogs(s.pool, home, x.now, k);
  }

  lemma RetiringLogs(s: Sys, x: Action, t: Sys, k: PoolKey)
    requires PoolInv(s.pool) && Step(s, x, t) && (x.ReadFailed? || x.FullReadGone? || x.Evict?)
    ensures Logs(s.pool, t.pool, k, Evicts(s, x, t, k) || EntryAt(t.pool, k) != EntryAt(s.pool, k))
  {
    RetireLogs(s.pool, if x.Evict? then x.key else s.ops[x.o].a.key, x.now, k);
  }

  lemma StoreLogs(s: Sys, x: Action, t: Sys, k: PoolKey)
    requires PoolInv(s.pool) && Step(s, x, t) && x.StoreBuild?
    ensures Logs(s.pool, t.pool, k, EntryAt(t.pool, k) != EntryAt(s.pool, k))
  {
    QuietAfter(s.pool.log, Changed(s.ops[x.o].a.key), k);
  }

  lemma SilentLogs(s: Sys, x: Action, t: Sys, k: PoolKey)
    requires PoolInv(s.pool) && Step(s, x, t)
    requires x.Begin? || x.ReadAgain? || x.BuildFailed? || x.Build? || x.ReleaseHold? || x.CloseDue?
    ensures Logs(s.pool, t.pool, k, EntryAt(t.pool, k) != EntryAt(s.pool, k))
  {
    assert t.pool.log == s.pool.log && t.pool.entries == s.pool.entries;
  }

  lemma StepLogs(tr: seq<Sys>, xs: seq<Action>, n: nat, k: PoolKey)
    requires Run(tr, xs) && n < |xs|
    ensures Logs(tr[n].pool, tr[n + 1].pool, k, Disturbs(tr[n], xs[n], tr[n + 1], k))
  {
    RunKeeps(tr, xs, n);
    assert Step(tr[n], xs[n], tr[n + 1]);
    if xs[n].ReadOk? { ReadOkLogs(tr[n], xs[n], tr[n + 1], k); }
    else if xs[n].EvictDeleted? { EvictDeletedLogs(tr[n], xs[n], tr[n + 1], k); }
    else if xs[n].ReadGone? { GoneLogs(tr[n], xs[n], tr[n + 1], k); }
    else if xs[n].StoreBuild? { StoreLogs(tr[n], xs[n], tr[n + 1], k); }
    else if xs[n].ReadFailed? || xs[n].FullReadGone? || xs[n].Evict? { RetiringLogs(tr[n], xs[n], tr[n + 1], k); }
    else { SilentLogs(tr[n], xs[n], tr[n + 1], k); }
  }

  /** Some step from m on and before i disturbs k. */
  ghost predicate Disturbed(tr: seq<Sys>, xs: seq<Action>, m: nat, i: nat, k: PoolKey)
    requires m <= i <= |xs| && |tr| == |xs| + 1
  {
    exists n :: m <= n < i && Disturbs(tr[n], xs[n], tr[n + 1], k)
  }

  lemma {:induction false} RunLogs(tr: seq<Sys>, xs: seq<Action>, m: nat, i: nat, k: PoolKey)
    requires Run(tr, xs) && m <= i <= |xs|
    ensures Logs(tr[m].pool, tr[i].pool, k, Disturbed(tr, xs, m, i, k))
    decreases i
  {
    if m < i {
      RunLogs(tr, xs, m, i - 1, k);
      StepLogs(tr, xs, i - 1, k);
      var last := Disturbs(tr[i - 1], xs[i - 1], tr[i - 1 + 1], k);
      LogsTwice(tr[m].pool, tr[i - 1].pool, tr[i].pool, k, Disturbed(tr, xs, m, i - 1, k), last);
      DisturbedSplits(tr, xs, m, i, k);
    }
  }

  lemma DisturbedSplits(tr: seq<Sys>, xs: seq<Action>, m: nat, i: nat, k: PoolKey)
    requires m < i <= |xs| && |tr| == |xs| + 1
    ensures Disturbed(tr, xs, m, i, k) <==>
            Disturbed(tr, xs, m, i - 1, k) || Disturbs(tr[i - 1], xs[i - 1], tr[i - 1 + 1], k)
  {
  }

  /** A step that ends in a miss records the log as it is then. */
  lemma MissRecordsNow(tr: seq<Sys>, xs: seq<Action>, n: nat, o: nat)
    requires Run(tr, xs) && n < |xs| && xs[n].ReadOk? && xs[n].o == o && o < |tr[n + 1].ops| && tr[n + 1].ops[o].Missed?
    ensures tr[n + 1].ops[o].since == |tr[n + 1].pool.log|
  {
    assert Step(tr[n], xs[n], tr[n + 1]);
  }

  /** A build whose lookup missed at step m and that is stored at step i enters the pool exactly when no
      delete eviction of its key is in force and, in between, no action evicted the key, changed the
      entry pooled for it, or aged its generation out. */
  lemma StoreFenceByActions(tr: seq<Sys>, xs: seq<Action>, m: nat, i: nat, o: nat, k: PoolKey)
    requires Run(tr, xs) && m < i < |xs| && xs[i] == StoreBuild(o) && xs[m].ReadOk? && xs[m].o == o
    requires o < |tr[m + 1].ops| && tr[m + 1].ops[o].Missed? && tr[m + 1].ops[o].a.key == k
    ensures o < |tr[i].ops| && tr[i].ops[o].Built?
    ensures EntryAt(tr[i + 1].pool, k) == Some(tr[i].ops[o].b) <==>
            !(exists n :: DeletedAt(xs, k, i, n)) && !Disturbed(tr, xs, m + 1, i, k)
  {
    MissRecordsNow(tr, xs, m, o);
    StoreFenceExact(tr, xs, m + 1, i, o);
    RunLogs(tr, xs, m + 1, i, k);
    TombstonedExactly(tr, xs, k, i);
  }

  /** A key's generation is dropped by a sweep exactly when no entry is pooled for it and it last
      changed over a TTL ago; issued or renewed, it is never a value seen before. */
  lemma GenerationsAgeExactly(tr: seq<Sys>, xs: seq<Action>, n: nat, k: PoolKey)
    requires Run(tr, xs) && n < |xs| && k in tr[n].pool.generations
    ensures FenceValue(tr[n + 1].pool, k) == FenceValue(tr[n].pool, k) <==> !Disturbs(tr[n], xs[n], tr[n + 1], k)
  {
    StepLogs(tr, xs, n, k);
    FenceValuesNeverReturn(tr, xs, n, n + 1, k);
  }
}
