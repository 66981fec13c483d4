/** The invariant of the pool protocol and the theorems about every run. */
module PoolTheorems {
  import opened Options
  import opened PoolModel
  import opened PoolInvariants
  import opened PoolProtocol
  import opened PoolAccounting

  /** What a recorded fence value g of key k still means: it is never exceeded backwards, it is
      current exactly while k had no event since, and then k's entry is still e. */
  ghost predicate Fence(p: Pool, k: PoolKey, g: nat, since: nat, e: Option<Backend>) {
    && 0 < g <= p.counter && since <= |p.log|
    && (k in p.generations ==> p.generations[k].value >= g)
    && (k in p.generations && p.generations[k].value == g ==> Quiet(p.log, since, k))
    && (Quiet(p.log, since, k) ==> k in p.generations && p.generations[k].value == g && EntryAt(p, k) == e)
  }

  /** d is the entry an earlier read of the acquire left pooled, under the remembered key. */
  ghost predicate Stale(p: Pool, a: Acquire) {
    && a.attempts < POOL_READ_ATTEMPTS + 1
    && a.staleKey.Some? && a.rejected.Some? && a.rejected.value in p.cells
    && p.cells[a.rejected.value].key == a.staleKey.value && p.cells[a.rejected.value].home == a.key
  }

  ghost predicate RejectedIsOut(p: Pool, a: Acquire) {
    a.rejected.Some? ==> a.rejected.value in p.cells && p.cells[a.rejected.value].retired
  }

  ghost predicate OpInv(p: Pool, built: map<Backend, EntryKey>, op: Op) {
    && op.a.attempts <= POOL_READ_ATTEMPTS && (op.Finished? || 0 < op.a.attempts)
    && match op
       case Reading(a, g, e, since) =>
         Fence(p, a.key, g, since, e) &&
         (if a.attempts == 1 then a.staleKey.None? && a.rejected.None? else Stale(p, a))
       case MustReread(a) => a.attempts == 1 && Stale(p, a)
       case Missed(a, g, _, since) => Fence(p, a.key, g, since, None) && RejectedIsOut(p, a)
       case Built(a, g, _, since, b, key) =>
         Fence(p, a.key, g, since, None) && RejectedIsOut(p, a) && b in built && built[b] == key && a.read == Some(key)
       case Holding(a, b) => RejectedIsOut(p, a) && b in built && a.read == Some(built[b])
       case Owning(a, b) => RejectedIsOut(p, a) && b in built && a.read == Some(built[b])
       case Finished(a) => RejectedIsOut(p, a)
  }

  ghost predicate OpsInv(p: Pool, built: map<Backend, EntryKey>, ops: seq<Op>) {
    forall o :: 0 <= o < |ops| ==> OpInv(p, built, ops[o])
  }

  ghost predicate SysInv(s: Sys) {
    PoolInv(s.pool) && Accounting(s.pool, s.ops, s.built) && OpsInv(s.pool, s.built, s.ops)
  }

  /******* Preservation *******/

  lemma FenceKept(p: Pool, q: Pool, k: PoolKey, g: nat, since: nat, e: Option<Backend>)
    requires Fence(p, k, g, since, e) && Evolves(p, q)
    ensures Fence(q, k, g, since, e)
  {
    assert Quiet(q.log, since, k) ==> Quiet(p.log, since, k) && Quiet(q.log, |p.log|, k) by {
      assert forall i :: 0 <= i < |p.log| ==> p.log[i] == q.log[i];
    }
    assert Quiet(p.log, since, k) && Quiet(q.log, |p.log|, k) ==> Quiet(q.log, since, k) by {
      assert forall i :: 0 <= i < |p.log| ==> p.log[i] == q.log[i];
    }
  }

  lemma OpKept(p: Pool, q: Pool, built: map<Backend, EntryKey>, built': map<Backend, EntryKey>, op: Op)
    requires OpInv(p, built, op) && Evolves(p, q)
    requires forall b :: b in built ==> b in built' && built'[b] == built[b]
    ensures OpInv(q, built', op)
  {
    match op
    case Reading(a, g, e, since) => FenceKept(p, q, a.key, g, since, e);
    case Missed(a, g, _, since) => FenceKept(p, q, a.key, g, since, None);
    case Built(a, g, _, since, _, _) => FenceKept(p, q, a.key, g, since, None);
    case _ =>
  }

  lemma OpsKept(p: Pool, q: Pool, built: map<Backend, EntryKey>, built': map<Backend, EntryKey>, ops: seq<Op>)
    requires OpsInv(p, built, ops) && Evolves(p, q)
    requires forall b :: b in built ==> b in built' && built'[b] == built[b]
    ensures OpsInv(q, built', ops)
  {
    forall o | 0 <= o < |ops| ensures OpInv(q, built', ops[o]) { OpKept(p, q, built, built', ops[o]); }
  }

  /** A passive section keeps the invariant while the acquire at o stays without a backend. */
  lemma PassiveStep(s: Sys, q: Pool, o: nat, op: Op)
    requires SysInv(s) && Passive(s.pool, q) && o < |s.ops| && Neutral(s.ops[o]) && Neutral(op)
    requires OpInv(q, s.built, op)
    ensures SysInv(s.(pool := q, ops := s.ops[o := op]))
  {
    PassiveAccounting(s.pool, q, s.ops, s.built);
    NeutralAccounting(q, s.ops, s.built, o, op);
    OpsKept(s.pool, q, s.built, s.built, s.ops);
  }

  lemma PassiveAlone(s: Sys, q: Pool)
    requires SysInv(s) && Passive(s.pool, q)
    ensures SysInv(s.(pool := q))
  {
    PassiveAccounting(s.pool, q, s.ops, s.built);
    OpsKept(s.pool, q, s.built, s.built, s.ops);
  }

  lemma FreshFence(p: Pool, k: PoolKey)
    requires PoolInv(p) && k in p.generations
    ensures Fence(p, k, FenceValue(p, k), |p.log|, EntryAt(p, k))
  {
  }

  lemma BeginReadKeeps(s: Sys, o: nat, a: Acquire, now: Time)
    requires SysInv(s) && o < |s.ops| && Neutral(s.ops[o])
    requires if a.attempts == 0 then a.staleKey.None? && a.rejected.None? else a.attempts == 1 && Stale(s.pool, a)
    ensures SysInv(BeginRead(s, o, a, now))
  {
    var q := WithGeneration(s.pool, a.key, now);
    WithGenerationPassive(s.pool, a.key, now);
    FreshFence(q, a.key);
    PassiveStep(s, q, o, Reading(a.(attempts := a.attempts + 1), FenceValue(q, a.key), EntryAt(q, a.key), |q.log|));
  }

  lemma BeginKeeps(s: Sys, key: PoolKey, specHash: string, now: Time)
    requires SysInv(s)
    ensures SysInv(Apply(s, Begin(key, specHash, now)))
  {
    var op := Finished(Fresh(key, specHash));
    AppendAccounting(s.pool, s.ops, s.built, op);
    BeginReadKeeps(s.(ops := s.ops + [op]), |s.ops|, Fresh(key, specHash), now);
  }

  /** After a decision that is not a hit: the pool changed passively, and the entry the read
      disagreed with is retired unless the acquire must read again. */
  lemma DecideOutcome(q: Pool, k: PoolKey, key: EntryKey, g: nat, force: bool, now: Time)
    requires PoolInv(q)
    ensures var (r, look) := Decide(q, k, key, g, force, now);
      match look
      case Hit(b) => b in q.cells && !q.cells[b].retired && q.cells[b].key == key && r == Hold(Touch(q, b, now), b)
      case Reread(stale) =>
        Passive(q, r) && !force && FenceValue(q, k) != g && Has(q, k) && q.cells[q.entries[k]].key == stale
      case Miss =>
        && Passive(q, r) && k !in r.entries
        && (Has(q, k) ==> r.cells[q.entries[k]].retired && (force || FenceValue(q, k) == g))
  {
    if Has(q, k) {
      assert WithGeneration(q, k, now) == q;
      RetirePassive(q, k, now);
    }
    PassiveReflexive(q);
  }

  lemma HoldKeeps(s: Sys, o: nat, a: Acquire, b: Backend, now: Time)
    requires SysInv(s) && o < |s.ops| && Neutral(s.ops[o]) && b in s.pool.cells && !s.pool.cells[b].retired
    requires 0 < a.attempts <= POOL_READ_ATTEMPTS && RejectedIsOut(s.pool, a) && a.read == Some(s.pool.cells[b].key)
    ensures SysInv(s.(pool := Hold(Touch(s.pool, b, now), b), ops := s.ops[o := Holding(a, b)]))
  {
    HoldGood(s.pool, b, now);
    HoldAccounting(s.pool, s.ops, s.built, o, a, b, now);
    OpsKept(s.pool, Hold(Touch(s.pool, b, now), b), s.built, s.built, s.ops);
    assert Account(s.pool, HeldBy(s.ops, b), OwnedBy(s.ops, b), s.built, b);
  }

  lemma SurrenderKeeps(s: Sys, o: nat)
    requires SysInv(s) && o < |s.ops| && (s.ops[o].Built? || s.ops[o].Owning?)
    ensures SysInv(s.(pool := Surrender(s.pool, s.ops[o].b), ops := s.ops[o := Finished(s.ops[o].a)]))
  {
    OwnerAlone(s.pool, s.ops, s.built, o, s.ops[o].b);
    SurrenderGood(s.pool, s.ops[o].b);
    SurrenderAccounting(s.pool, s.ops, s.built, o, s.ops[o].a);
    OpsKept(s.pool, Surrender(s.pool, s.ops[o].b), s.built, s.built, s.ops);
  }

  lemma ReadOkKeeps(s: Sys, o: nat, versions: seq<SecretVersion>, order: seq<PoolKey>, now: Time)
    requires SysInv(s) && o < |s.ops| && s.ops[o].Reading?
    ensures SysInv(Lookup(s, o, s.ops[o], versions, order, now))
  {
    var op := s.ops[o];
    var k, key := op.a.key, EntryKey(op.a.specHash, versions);
    var q := Prune(s.pool, order, now);
    PrunePassive(s.pool, order, now);
    PassiveAlone(s, q);
    DecideOutcome(q, k, key, op.readGeneration, Forced(op.a), now);
    var (r, look) := Decide(q, k, key, op.readGeneration, Forced(op.a), now);
    var a := op.a.(read := Some(key), rejected := if look.Hit? then None else EntryAt(q, k));
    if look.Hit? {
      HoldKeeps(s.(pool := q), o, a, look.b, now);
      WithGenerationPassive(r, k, now);
      PassiveAlone(s.(pool := r, ops := s.ops[o := Holding(a, look.b)]), WithGeneration(r, k, now));
    } else {
      WithGenerationPassive(r, k, now);
      var t := WithGeneration(r, k, now);
      PassiveTransitive(s.pool, q, r);
      PassiveTransitive(s.pool, r, t);
      FreshFence(t, k);
      assert Has(q, k) ==> SameCell(q.cells[q.entries[k]], r.cells[q.entries[k]]);
      PassiveStep(s, t, o, Lookup(s, o, op, versions, order, now).ops[o]);
    }
  }

  lemma ReadGoneKeeps(s: Sys, o: nat, now: Time)
    requires SysInv(s) && o < |s.ops| && s.ops[o].Reading?
    ensures SysInv(Gone(s, o, s.ops[o], now))
  {
    var op := s.ops[o];
    RetirePoolEntryPassive(s.pool, op.a.key, op.readGeneration, Forced(op.a), now);
    WithGenerationPassive(s.pool, op.a.key, now);
    RetirePassive(s.pool, op.a.key, now);
    RetirePassive(WithGeneration(s.pool, op.a.key, now), op.a.key, now);
    var t := Gone(s, o, op, now);
    PassiveStep(s, t.pool, o, t.ops[o]);
  }

  lemma ReadFailedKeeps(s: Sys, o: nat, now: Time)
    requires SysInv(s) && o < |s.ops| && s.ops[o].Reading?
    ensures SysInv(Failed(s, o, s.ops[o], now))
  {
    var a := s.ops[o].a;
    if a.staleKey.Some? {
      RetireEntryWithKeyPassive(s.pool, a.key, a.staleKey.value, now);
      RetirePassive(s.pool, a.key, now);
      PassiveStep(s, RetireEntryWithKey(s.pool, a.key, a.staleKey.value, now), o, Finished(a));
    } else {
      NeutralAccounting(s.pool, s.ops, s.built, o, Finished(a));
    }
  }

  lemma SharedKeeps(s: Sys, o: nat, b: Backend)
    requires SysInv(s) && o < |s.ops| && s.ops[o].Built? && b in s.pool.cells && !s.pool.cells[b].retired
    requires s.pool.cells[b].key == s.ops[o].key
    ensures var q := Hold(Touch(Surrender(s.pool, s.ops[o].b), b, s.ops[o].now), b);
      SysInv(s.(pool := q, ops := s.ops[o := Holding(s.ops[o].a, b)]))
  {
    var op := s.ops[o];
    var t := s.(pool := Surrender(s.pool, op.b), ops := s.ops[o := Finished(op.a)]);
    SurrenderKeeps(s, o);
    assert OpInv(s.pool, s.built, op);
    HoldKeeps(t, o, op.a, b, op.now);
    assert t.ops[o := Holding(op.a, b)] == s.ops[o := Holding(op.a, b)];
  }

  lemma PooledKeeps(s: Sys, o: nat)
    requires SysInv(s) && o < |s.ops| && s.ops[o].Built?
    requires s.ops[o].a.key !in s.pool.entries && s.ops[o].a.key !in s.pool.tombstones
    ensures var op := s.ops[o];
      SysInv(s.(pool := Insert(s.pool, op.a.key, op.b, op.key, op.now), ops := s.ops[o := Holding(op.a, op.b)]))
  {
    var op := s.ops[o];
    var q := Insert(s.pool, op.a.key, op.b, op.key, op.now);
    OwnerAlone(s.pool, s.ops, s.built, o, op.b);
    InsertGood(s.pool, op.a.key, op.b, op.key, op.now);
    PooledAccounting(s.pool, s.ops, s.built, o, op.a, op.a.key, op.now);
    OpsKept(s.pool, q, s.built, s.built, s.ops);
  }

  lemma StoreKeeps(s: Sys, o: nat)
    requires SysInv(s) && o < |s.ops| && s.ops[o].Built?
    ensures SysInv(StoreOf(s, o, s.ops[o]))
  {
    var op := s.ops[o];
    match StoreVerdict(s.pool, op.a.key, op.generation, op.key)
    case Owned => OwningAccounting(s.pool, s.ops, s.built, o, op.a);
    case Shared(b) => SharedKeeps(s, o, b);
    case Pooled => PooledKeeps(s, o);
  }

  lemma ReleaseKeeps(s: Sys, o: nat)
    requires SysInv(s) && o < |s.ops| && (s.ops[o].Holding? || s.ops[o].Owning?)
    ensures SysInv(Apply(s, ReleaseHold(o)))
  {
    var op := s.ops[o];
    if op.Owning? {
      SurrenderKeeps(s, o);
    } else {
      ReleaseAccounting(s.pool, s.ops, s.built, o, op.a);
      ReleaseGood(s.pool, op.b);
      OpsKept(s.pool, Release(s.pool, op.b), s.built, s.built, s.ops);
    }
  }

  lemma StepKeeps(s: Sys, x: Action)
    requires SysInv(s) && Enabled(s, x)
    ensures SysInv(Apply(s, x))
  {
    match x
    case Begin(key, specHash, now) => BeginKeeps(s, key, specHash, now);
    case ReadAgain(o, now) => BeginReadKeeps(s, o, s.ops[o].a, now);
    case ReadOk(o, versions, order, now) => ReadOkKeeps(s, o, versions, order, now);
    case ReadGone(o, now) => ReadGoneKeeps(s, o, now);
    case ReadFailed(o, now) => ReadFailedKeeps(s, o, now);
    case FullReadGone(o, now) =>
      RetirePoolEntryPassive(s.pool, s.ops[o].a.key, 0, true, now);
      OpKept(s.pool, Apply(s, x).pool, s.built, s.built, s.ops[o]);
      PassiveStep(s, Apply(s, x).pool, o, Finished(s.ops[o].a));
    case BuildFailed(o) => NeutralAccounting(s.pool, s.ops, s.built, o, Finished(s.ops[o].a));
    case Build(o, b, versions) =>
      BuildAccounting(s.pool, s.ops, s.built, o, Apply(s, x).ops[o]);
      OpsKept(s.pool, s.pool, s.built, Apply(s, x).built, s.ops);
    case StoreBuild(o) => StoreKeeps(s, o);
    case ReleaseHold(o) => ReleaseKeeps(s, o);
    case CloseDue(b) =>
      CloseGood(s.pool, b);
      CloseAccounting(s.pool, s.ops, s.built, b);
      OpsKept(s.pool, Close(s.pool, b), s.built, s.built, s.ops);
    case Evict(key, now) =>
      RetirePassive(s.pool, key, now);
      PassiveAlone(s, Retire(s.pool, key, now));
    case EvictDeleted(key, now) =>
      EvictForDeletePassive(s.pool, key, now);
      PassiveAlone(s, EvictForDelete(s.pool, key, now));
  }

  /******* Evolution *******/

  lemma LookupEvolves(s: Sys, o: nat, op: Op, versions: seq<SecretVersion>, order: seq<PoolKey>, now: Time)
    requires SysInv(s) && o < |s.ops| && op.Reading?
    ensures Evolves(s.pool, Lookup(s, o, op, versions, order, now).pool)
  {
    var k, key := op.a.key, EntryKey(op.a.specHash, versions);
    var q := Prune(s.pool, order, now);
    PrunePassive(s.pool, order, now);
    DecideOutcome(q, k, key, op.readGeneration, Forced(op.a), now);
    var (r, look) := Decide(q, k, key, op.readGeneration, Forced(op.a), now);
    if look.Hit? { HoldGood(q, look.b, now); }
    WithGenerationPassive(r, k, now);
    EvolvesTransitive(s.pool, q, r);
    EvolvesTransitive(s.pool, r, WithGeneration(r, k, now));
  }

  lemma StoreEvolves(s: Sys, o: nat)
    requires SysInv(s) && o < |s.ops| && s.ops[o].Built?
    ensures Evolves(s.pool, StoreOf(s, o, s.ops[o]).pool)
  {
    var op := s.ops[o];
    OwnerAlone(s.pool, s.ops, s.built, o, op.b);
    match StoreVerdict(s.pool, op.a.key, op.generation, op.key)
    case Owned => CellsOnlyEvolves(s.pool, s.pool);
    case Shared(_) => CellsOnlyEvolves(s.pool, StoreOf(s, o, op).pool);
    case Pooled => InsertGood(s.pool, op.a.key, op.b, op.key, op.now);
  }

  lemma StepEvolves(s: Sys, x: Action)
    requires SysInv(s) && Enabled(s, x)
    ensures Evolves(s.pool, Apply(s, x).pool)
    ensures forall b :: b in s.built ==> b in Apply(s, x).built && Apply(s, x).built[b] == s.built[b]
  {
    match x
    case Begin(key, _, now) => WithGenerationPassive(s.pool, key, now);
    case ReadAgain(o, now) => WithGenerationPassive(s.pool, s.ops[o].a.key, now);
    case ReadOk(o, versions, order, now) => LookupEvolves(s, o, s.ops[o], versions, order, now);
    case ReadGone(o, now) =>
      RetirePoolEntryPassive(s.pool, s.ops[o].a.key, s.ops[o].readGeneration, Forced(s.ops[o].a), now);
    case ReadFailed(o, now) =>
      PassiveReflexive(s.pool);
      if s.ops[o].a.staleKey.Some? {
        RetireEntryWithKeyPassive(s.pool, s.ops[o].a.key, s.ops[o].a.staleKey.value, now);
      }
    case FullReadGone(o, now) => RetirePoolEntryPassive(s.pool, s.ops[o].a.key, 0, true, now);
    case BuildFailed(o) => PassiveReflexive(s.pool);
    case Build(o, b, versions) => PassiveReflexive(s.pool);
    case StoreBuild(o) => StoreEvolves(s, o);
    case ReleaseHold(o) => CellsOnlyEvolves(s.pool, Apply(s, x).pool);
    case CloseDue(b) => CloseGood(s.pool, b);
    case Evict(key, now) => RetirePassive(s.pool, key, now);
    case EvictDeleted(key, now) => EvictForDeletePassive(s.pool, key, now);
  }

  lemma {:induction false} RunKeeps(tr: seq<Sys>, xs: seq<Action>, i: nat)
    requires Run(tr, xs) && i < |tr|
    ensures SysInv(tr[i])
  {
    if i == 0 {
      forall b ensures Account(Initial.pool, HeldBy(Initial.ops, b), OwnedBy(Initial.ops, b), Initial.built, b) {}
    } else {
      RunKeeps(tr, xs, i - 1);
      assert Step(tr[i - 1], xs[i - 1], tr[i]);
      StepKeeps(tr[i - 1], xs[i - 1]);
    }
  }
}
