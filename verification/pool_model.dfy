/** The lock-held sections of the sink backend pool, as functions on a pool value.

    `cells` is the arena of every entry ever pooled (release closures keep pointing at an entry
    after it left `entries`), `due` holds the backends whose Close was decided under the lock and
    has not run yet, `closed` the Close calls that ran, and `log` is the history of the events that
    concern the store fence. Clock readings are arbitrary integers: nothing here relies on a
    monotone clock. Go's map iteration order is the parameter `order`. */
module PoolModel {
  import opened Options

  type PoolKey = string
  type Backend = nat
  type Time = int

  datatype SecretVersion = SecretVersion(namespace: string, name: string, uid: string, resourceVersion: string)

  /** poolEntryKey(specHash, versions), taken as injective. */
  datatype EntryKey = EntryKey(specHash: string, secrets: seq<SecretVersion>)

  datatype Cell = Cell(home: PoolKey, key: EntryKey, lastUsed: Time, holders: nat, retired: bool)

  datatype Generation = Generation(value: nat, changed: Time)

  /** Changed: a store or a retire of the key. Aged: the generations a sweep dropped. */
  datatype Event = Changed(key: PoolKey) | Aged(keys: set<PoolKey>)

  datatype Pool = Pool(
    entries: map<PoolKey, Backend>,
    cells: map<Backend, Cell>,
    tombstones: map<PoolKey, Time>,
    generations: map<PoolKey, Generation>,
    counter: nat,
    due: multiset<Backend>,
    closed: multiset<Backend>,
    log: seq<Event>)

  // 2 * validation.MaxExportInterval, in nanoseconds.
  const BACKEND_POOL_TTL: int := 2 * 24 * 3600 * 1_000_000_000

  const EmptyPool := Pool(map[], map[], map[], map[], 0, multiset{}, multiset{}, [])

  /** An entry of the pool; the second conjunct holds in every reachable pool. */
  predicate Has(p: Pool, k: PoolKey) {
    k in p.entries && p.entries[k] in p.cells
  }

  /******* Generations *******/

  function Bump(p: Pool, k: PoolKey, now: Time): Pool {
    p.(counter := p.counter + 1, generations := p.generations[k := Generation(p.counter + 1, now)])
  }

  function WithGeneration(p: Pool, k: PoolKey, now: Time): Pool {
    if k in p.generations then p else Bump(p, k, now)
  }

  /** The fence value a map read sees: an absent key reads as Go's zero value. */
  function FenceValue(p: Pool, k: PoolKey): nat {
    if k in p.generations then p.generations[k].value else 0
  }

  /******* Retire, hold, release, close *******/

  /** Takes k's entry out of the pool; its Close is due at once unless it is held. */
  function Detach(p: Pool, k: PoolKey): Pool {
    if Has(p, k) then
      var b := p.entries[k];
      p.(entries := p.entries - {k},
         cells := p.cells[b := p.cells[b].(retired := true)],
         due := if p.cells[b].holders > 0 then p.due else p.due + multiset{b})
    else
      p
  }

  /** The fence moves even when nothing is pooled, so a build in flight is not pooled later. */
  function Retire(p: Pool, k: PoolKey, now: Time): Pool {
    Detach(Bump(p, k, now).(log := p.log + [Changed(k)]), k)
  }

  function Touch(p: Pool, b: Backend, now: Time): Pool
    requires b in p.cells
  {
    p.(cells := p.cells[b := p.cells[b].(lastUsed := now)])
  }

  function Hold(p: Pool, b: Backend): Pool
    requires b in p.cells
  {
    p.(cells := p.cells[b := p.cells[b].(holders := p.cells[b].holders + 1)])
  }

  function Release(p: Pool, b: Backend): Pool
    requires b in p.cells && p.cells[b].holders > 0
  {
    var c := p.cells[b].(holders := p.cells[b].holders - 1);
    p.(cells := p.cells[b := c], due := if c.retired && c.holders == 0 then p.due + multiset{b} else p.due)
  }

  function Surrender(p: Pool, b: Backend): Pool {
    p.(due := p.due + multiset{b})
  }

  function Close(p: Pool, b: Backend): Pool {
    p.(due := p.due - multiset{b}, closed := p.closed + multiset{b})
  }

  /******* Pruning *******/

  predicate Idle(p: Pool, k: PoolKey, now: Time) {
    Has(p, k) &&
    p.cells[p.entries[k]].holders == 0 && now - p.cells[p.entries[k]].lastUsed > BACKEND_POOL_TTL
  }

  /** One visit of the prune loop: a held entry is in use and the TTL never retires it. */
  function PruneOne(p: Pool, k: PoolKey, now: Time): Pool {
    if Idle(p, k, now) then Retire(p, k, now) else p
  }

  function PruneEntries(p: Pool, order: seq<PoolKey>, now: Time): Pool {
    if order == [] then p else PruneOne(PruneEntries(p, order[..|order| - 1], now), order[|order| - 1], now)
  }

  function Expired(p: Pool, now: Time): set<PoolKey> {
    set k | k in p.generations && k !in p.entries && now - p.generations[k].changed > BACKEND_POOL_TTL
  }

  function AgeOut(p: Pool, now: Time): Pool {
    p.(tombstones := map k | k in p.tombstones && now - p.tombstones[k] <= BACKEND_POOL_TTL :: p.tombstones[k],
       generations := map k | k in p.generations && k !in Expired(p, now) :: p.generations[k],
       log := p.log + [Aged(Expired(p, now))])
  }

  function Prune(p: Pool, order: seq<PoolKey>, now: Time): Pool {
    AgeOut(PruneEntries(p, order, now), now)
  }

  /** A range over the entries map visits every key present at its start, once. */
  ghost predicate Enumerates(order: seq<PoolKey>, keys: set<PoolKey>) {
    && (forall i, j :: 0 <= i < j < |order| ==> order[i] != order[j])
    && (forall k :: k in keys <==> k in order)
  }

  /******* The sections acquire and evict run under the mutex *******/

  datatype Look =
    | Hit(b: Backend)
    | Reread(staleKey: EntryKey)
    | Miss

  function EntryAt(p: Pool, k: PoolKey): Option<Backend> {
    if k in p.entries then Some(p.entries[k]) else None
  }

  /** What lookupOrRetire does after its prune, up to the final generation read. */
  function Decide(q: Pool, k: PoolKey, key: EntryKey, readGeneration: nat, force: bool, now: Time): (Pool, Look) {
    if Has(q, k) then
      var b := q.entries[k];
      if q.cells[b].key == key then
        (Hold(Touch(q, b, now), b), Hit(b))
      else if !force && FenceValue(WithGeneration(q, k, now), k) != readGeneration then
        (WithGeneration(q, k, now), Reread(q.cells[b].key))
      else
        (Retire(if force then q else WithGeneration(q, k, now), k, now), Miss)
    else
      (q, Miss)
  }

  function LookupOrRetire(p: Pool, k: PoolKey, key: EntryKey, readGeneration: nat, force: bool,
                          order: seq<PoolKey>, now: Time): (Pool, Look)
  {
    var (q, look) := Decide(Prune(p, order, now), k, key, readGeneration, force, now);
    (WithGeneration(q, k, now), look)
  }

  /** None: retired. Some(key): the entry is newer than the read and stays, under that key. */
  function RetirePoolEntry(p: Pool, k: PoolKey, readGeneration: nat, force: bool, now: Time): (Pool, Option<EntryKey>) {
    if Has(p, k) && !force &&
       FenceValue(WithGeneration(p, k, now), k) != readGeneration
    then
      (WithGeneration(p, k, now), Some(p.cells[p.entries[k]].key))
    else
      (Retire(if k in p.entries && !force then WithGeneration(p, k, now) else p, k, now), None)
  }

  function RetireEntryWithKey(p: Pool, k: PoolKey, key: EntryKey, now: Time): Pool {
    if Has(p, k) && p.cells[p.entries[k]].key == key then Retire(p, k, now) else p
  }

  datatype Stored =
    | Owned             // not pooled: the caller closes the build itself
    | Shared(b: Backend)  // a racing build of the same key is shared, the new one is surplus
    | Pooled

  function StoreVerdict(p: Pool, k: PoolKey, generation: nat, key: EntryKey): Stored {
    if k in p.tombstones then Owned
    else if Has(p, k) && p.cells[p.entries[k]].key == key then Shared(p.entries[k])
    else if k !in p.entries && FenceValue(p, k) == generation then Pooled
    else Owned
  }

  /** The new entry, already held by its builder. */
  function Insert(p: Pool, k: PoolKey, b: Backend, key: EntryKey, now: Time): Pool {
    Bump(p, k, now).(entries := p.entries[k := b],
                     cells := p.cells[b := Cell(k, key, now, 1, false)],
                     log := p.log + [Changed(k)])
  }

  function Store(p: Pool, k: PoolKey, generation: nat, b: Backend, key: EntryKey, now: Time): Pool {
    match StoreVerdict(p, k, generation, key)
    case Owned => p
    case Shared(shared) => Hold(Touch(Surrender(p, b), shared, now), shared)
    case Pooled => Insert(p, k, b, key, now)
  }

  function EvictForDelete(p: Pool, k: PoolKey, now: Time): Pool {
    var q := Retire(p, k, now);
    AgeOut(q.(tombstones := q.tombstones[k := now]), now)
  }
}
