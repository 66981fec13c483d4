/** The backend pool as a concurrent protocol. Acquires, releases, evictions and Closes interleave
    freely; each action below is one lock-held section, one build, one failed read or one Close.
    Reads of Secrets return arbitrary versions or fail arbitrarily. */
module PoolProtocol {
  import opened Options
  import opened PoolModel

  /** One acquire. `read` is the key of the last Secret versions it read, `rejected` the entry its
      last observation disagreed with; both are history, as are `entryAtRead` and `since` below. */
  datatype Acquire = Acquire(
    key: PoolKey, specHash: string,
    attempts: nat,               // metadata reads begun so far
    staleKey: Option<EntryKey>,  // the entry an earlier read of this acquire did not retire
    read: Option<EntryKey>,
    rejected: Option<Backend>)

  datatype Op =
    | Reading(a: Acquire, readGeneration: nat, entryAtRead: Option<Backend>, since: nat)
    | MustReread(a: Acquire)
    | Missed(a: Acquire, generation: nat, now: Time, since: nat)
    | Built(a: Acquire, generation: nat, now: Time, since: nat, b: Backend, key: EntryKey)
    | Holding(a: Acquire, b: Backend)
    | Owning(a: Acquire, b: Backend)
    | Finished(a: Acquire)

  datatype Sys = Sys(pool: Pool, ops: seq<Op>, built: map<Backend, EntryKey>)

  const POOL_READ_ATTEMPTS: nat := 2

  datatype Action =
    | Begin(key: PoolKey, specHash: string, now: Time)
    | ReadAgain(o: nat, now: Time)
    | ReadOk(o: nat, versions: seq<SecretVersion>, order: seq<PoolKey>, now: Time)
    | ReadGone(o: nat, now: Time)
    | ReadFailed(o: nat, now: Time)
    | FullReadGone(o: nat, now: Time)
    | BuildFailed(o: nat)
    | Build(o: nat, b: Backend, versions: seq<SecretVersion>)
    | StoreBuild(o: nat)
    | ReleaseHold(o: nat)
    | CloseDue(b: Backend)
    | Evict(key: PoolKey, now: Time)
    | EvictDeleted(key: PoolKey, now: Time)

  const Initial := Sys(EmptyPool, [], map[])

  ghost predicate Enabled(s: Sys, x: Action) {
    match x
    case Begin(_, _, _) => true
    case ReadAgain(o, _) => o < |s.ops| && s.ops[o].MustReread?
    case ReadOk(o, _, order, _) => o < |s.ops| && s.ops[o].Reading? && Enumerates(order, s.pool.entries.Keys)
    case ReadGone(o, _) => o < |s.ops| && s.ops[o].Reading?
    case ReadFailed(o, _) => o < |s.ops| && s.ops[o].Reading?
    case FullReadGone(o, _) => o < |s.ops| && s.ops[o].Missed?
    case BuildFailed(o) => o < |s.ops| && s.ops[o].Missed?
    case Build(o, b, _) => o < |s.ops| && s.ops[o].Missed? && b !in s.built
    case StoreBuild(o) => o < |s.ops| && s.ops[o].Built?
    case ReleaseHold(o) => o < |s.ops| && (s.ops[o].Holding? || s.ops[o].Owning?)
    case CloseDue(b) => b in s.pool.due
    case Evict(_, _) => true
    case EvictDeleted(_, _) => true
  }

  /** poolGenerationOf: the key's fence value is recorded before each metadata read. */
  function BeginRead(s: Sys, o: nat, a: Acquire, now: Time): Sys
    requires o < |s.ops|
  {
    var q := WithGeneration(s.pool, a.key, now);
    s.(pool := q,
       ops := s.ops[o := Reading(a.(attempts := a.attempts + 1), FenceValue(q, a.key), EntryAt(q, a.key), |q.log|)])
  }

  function Fresh(key: PoolKey, specHash: string): Acquire {
    Acquire(key, specHash, 0, None, None, None)
  }

  function Forced(a: Acquire): bool {
    a.attempts >= POOL_READ_ATTEMPTS
  }

  function Lookup(s: Sys, o: nat, op: Op, versions: seq<SecretVersion>, order: seq<PoolKey>, now: Time): Sys
    requires op.Reading? && o < |s.ops|
  {
    var key := EntryKey(op.a.specHash, versions);
    var pruned := Prune(s.pool, order, now);
    var (q, look) := LookupOrRetire(s.pool, op.a.key, key, op.readGeneration, Forced(op.a), order, now);
    var a := op.a.(read := Some(key), rejected := if look.Hit? then None else EntryAt(pruned, op.a.key));
    s.(pool := q, ops := s.ops[o :=
      match look
      case Hit(b) => Holding(a, b)
      case Reread(stale) => MustReread(a.(staleKey := Some(stale)))
      case Miss => Missed(a, FenceValue(q, op.a.key), now, |q.log|)])
  }

  function Gone(s: Sys, o: nat, op: Op, now: Time): Sys
    requires op.Reading? && o < |s.ops|
  {
    var (q, kept) := RetirePoolEntry(s.pool, op.a.key, op.readGeneration, Forced(op.a), now);
    var a := op.a.(read := None, rejected := EntryAt(s.pool, op.a.key));
    s.(pool := q, ops := s.ops[o := if kept.Some? then MustReread(a.(staleKey := kept)) else Finished(a)])
  }

  function Failed(s: Sys, o: nat, op: Op, now: Time): Sys
    requires op.Reading? && o < |s.ops|
  {
    s.(pool := if op.a.staleKey.Some? then RetireEntryWithKey(s.pool, op.a.key, op.a.staleKey.value, now) else s.pool,
       ops := s.ops[o := Finished(op.a)])
  }

  function Apply(s: Sys, x: Action): Sys
    requires Enabled(s, x)
  {
    match x
    case Begin(key, specHash, now) =>
      BeginRead(s.(ops := s.ops + [Finished(Fresh(key, specHash))]), |s.ops|, Fresh(key, specHash), now)
    case ReadAgain(o, now) => BeginRead(s, o, s.ops[o].a, now)
    case ReadOk(o, versions, order, now) => Lookup(s, o, s.ops[o], versions, order, now)
    case ReadGone(o, now) => Gone(s, o, s.ops[o], now)
    case ReadFailed(o, now) => Failed(s, o, s.ops[o], now)
    case FullReadGone(o, now) =>
      s.(pool := RetirePoolEntry(s.pool, s.ops[o].a.key, 0, true, now).0, ops := s.ops[o := Finished(s.ops[o].a)])
    case BuildFailed(o) => s.(ops := s.ops[o := Finished(s.ops[o].a)])
    case Build(o, b, versions) =>
      var op := s.ops[o];
      var key := EntryKey(op.a.specHash, versions);
      s.(built := s.built[b := key],
         ops := s.ops[o := Built(op.a.(read := Some(key)), op.generation, op.now, op.since, b, key)])
    case StoreBuild(o) => StoreOf(s, o, s.ops[o])
    case ReleaseHold(o) =>
      var op := s.ops[o];
      s.(pool := if op.Owning? then Surrender(s.pool, op.b)
                 else if op.b in s.pool.cells && s.pool.cells[op.b].holders > 0 then Release(s.pool, op.b) else s.pool,
         ops := s.ops[o := Finished(op.a)])
    case CloseDue(b) => s.(pool := Close(s.pool, b))
    case Evict(key, now) => s.(pool := Retire(s.pool, key, now))
    case EvictDeleted(key, now) => s.(pool := EvictForDelete(s.pool, key, now))
  }

  function StoreOf(s: Sys, o: nat, op: Op): Sys
    requires op.Built? && o < |s.ops|
  {
    s.(pool := Store(s.pool, op.a.key, op.generation, op.b, op.key, op.now),
       ops := s.ops[o :=
         match StoreVerdict(s.pool, op.a.key, op.generation, op.key)
         case Owned => Owning(op.a, op.b)
         case Shared(b) => Holding(op.a, b)
         case Pooled => Holding(op.a, op.b)])
  }

  ghost predicate Step(s: Sys, x: Action, t: Sys) {
    Enabled(s, x) && t == Apply(s, x)
  }

  /** A run: xs[i] leads from tr[i] to tr[i + 1], starting from the empty pool. */
  ghost predicate Run(tr: seq<Sys>, xs: seq<Action>) {
    && |tr| == |xs| + 1
    && tr[0] == Initial
    && forall i :: 0 <= i < |xs| ==> Step(tr[i], xs[i], tr[i + 1])
  }
}
