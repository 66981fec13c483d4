/** What every lock-held section of the pool keeps, and how a pool may evolve. */
module PoolInvariants {
  import opened PoolModel

  /** Every entry sits at its own key, is live, has a fence value and no tombstone; a cell outside
      the pool is retired. */
  ghost predicate Shape(p: Pool) {
    && (forall k :: k in p.entries ==>
          Has(p, k) && p.cells[p.entries[k]].home == k && !p.cells[p.entries[k]].retired &&
          k !in p.tombstones && k in p.generations)
    && (forall b :: b in p.cells && !p.cells[b].retired ==>
          p.cells[b].home in p.entries && p.entries[p.cells[b].home] == b)
    && (forall k :: k in p.generations ==> 0 < p.generations[k].value <= p.counter)
  }

  /** How often Close was decided for a pooled backend: once when it is retired and drained, else never. */
  ghost predicate Settled(p: Pool) {
    forall b :: b in p.cells ==>
      p.due[b] + p.closed[b] == if p.cells[b].retired && p.cells[b].holders == 0 then 1 else 0
  }

  ghost predicate PoolInv(p: Pool) {
    Shape(p) && Settled(p)
  }

  /******* Evolution *******/

  predicate Touches(e: Event, k: PoolKey) {
    match e
    case Changed(key) => key == k
    case Aged(keys) => k in keys
  }

  ghost predicate Quiet(log: seq<Event>, since: nat, k: PoolKey) {
    forall i :: since <= i < |log| ==> !Touches(log[i], k)
  }

  predicate SameCell(c: Cell, d: Cell) {
    c.home == d.home && c.key == d.key && (c.retired ==> d.retired)
  }

  /** From p to q: the log and the counter only grow, cells stay and never return from retirement,
      a key without events keeps its fence value and its entry, and a key with one loses its fence
      value or gets one never issued before. */
  ghost predicate Evolves(p: Pool, q: Pool) {
    && p.log <= q.log
    && p.counter <= q.counter
    && (forall b :: b in p.cells ==> b in q.cells && SameCell(p.cells[b], q.cells[b]))
    && (forall k :: Quiet(q.log, |p.log|, k) ==>
          EntryAt(q, k) == EntryAt(p, k) &&
          (k in p.generations ==> k in q.generations && q.generations[k].value == p.generations[k].value))
    && (forall k :: k in q.generations ==>
          (k in p.generations && q.generations[k].value == p.generations[k].value && Quiet(q.log, |p.log|, k)) ||
          q.generations[k].value > p.counter)
  }

  lemma EvolvesTransitive(p: Pool, q: Pool, r: Pool)
    requires Evolves(p, q) && Evolves(q, r)
    ensures Evolves(p, r)
  {
    forall k | Quiet(r.log, |p.log|, k)
      ensures Quiet(q.log, |p.log|, k) && Quiet(r.log, |q.log|, k)
    {
      forall i | |p.log| <= i < |q.log| ensures !Touches(q.log[i], k) { assert q.log[i] == r.log[i]; }
    }
    forall k | Quiet(q.log, |p.log|, k) && Quiet(r.log, |q.log|, k)
      ensures Quiet(r.log, |p.log|, k)
    {
      forall i | |p.log| <= i < |r.log| ensures !Touches(r.log[i], k) {
        if i < |q.log| { assert q.log[i] == r.log[i]; }
      }
    }
  }

  /** The step relation every section satisfies. */
  ghost predicate Good(p: Pool, q: Pool) {
    PoolInv(q) && Evolves(p, q)
  }

  lemma GoodTransitive(p: Pool, q: Pool, r: Pool)
    requires Good(p, q) && Good(q, r)
    ensures Good(p, r)
  {
    EvolvesTransitive(p, q, r);
  }

  /** A section that takes and drops no hold and touches no backend outside the arena. */
  ghost predicate Passive(p: Pool, q: Pool) {
    && Good(p, q)
    && q.cells.Keys == p.cells.Keys
    && (forall b :: b in p.cells ==> q.cells[b].holders == p.cells[b].holders)
    && (forall b :: b !in p.cells ==> q.due[b] == p.due[b] && q.closed[b] == p.closed[b])
  }

  lemma PassiveReflexive(p: Pool)
    requires PoolInv(p)
    ensures Passive(p, p)
  {
  }

  lemma PassiveTransitive(p: Pool, q: Pool, r: Pool)
    requires Passive(p, q) && Passive(q, r)
    ensures Passive(p, r)
  {
    GoodTransitive(p, q, r);
  }

  /******* The building blocks *******/

  lemma WithGenerationPassive(p: Pool, k: PoolKey, now: Time)
    requires PoolInv(p)
    ensures Passive(p, WithGeneration(p, k, now))
    ensures k in WithGeneration(p, k, now).generations
  {
  }

  lemma QuietAfter(log: seq<Event>, e: Event, k: PoolKey)
    ensures Quiet(log + [e], |log|, k) <==> !Touches(e, k)
  {
    assert (log + [e])[|log|] == e;
  }

  /** A section that logs one event for k and gives k a new fence value evolves the pool when it
      leaves the other keys and the old cells alone. */
  lemma ChangedEvolves(p: Pool, q: Pool, k: PoolKey)
    requires q.log == p.log + [Changed(k)] && q.counter == p.counter + 1
    requires k in q.generations && q.generations[k].value == q.counter
    requires forall j :: j != k ==> EntryAt(q, j) == EntryAt(p, j)
    requires forall j :: j != k ==> (j in q.generations <==> j in p.generations)
    requires forall j :: j != k && j in p.generations ==> q.generations[j] == p.generations[j]
    requires forall b :: b in p.cells ==> b in q.cells && SameCell(p.cells[b], q.cells[b])
    ensures Evolves(p, q)
  {
    forall j ensures Quiet(q.log, |p.log|, j) <==> j != k { QuietAfter(p.log, Changed(k), j); }
  }

  lemma RetireShape(p: Pool, k: PoolKey, now: Time)
    requires PoolInv(p)
    ensures Shape(Retire(p, k, now))
  {
  }

  lemma RetireSettled(p: Pool, k: PoolKey, now: Time)
    requires PoolInv(p)
    ensures Settled(Retire(p, k, now))
    ensures forall b :: b !in p.cells ==> Retire(p, k, now).due[b] == p.due[b]
  {
  }

  lemma RetireEvolves(p: Pool, k: PoolKey, now: Time)
    requires PoolInv(p)
    ensures Evolves(p, Retire(p, k, now))
  {
    var q := Retire(p, k, now);
    assert q.log == p.log + [Changed(k)] && q.generations == Bump(p, k, now).generations;
    assert forall b :: b in p.cells ==> b in q.cells && SameCell(p.cells[b], q.cells[b]);
    ChangedEvolves(p, q, k);
  }

  lemma RetirePassive(p: Pool, k: PoolKey, now: Time)
    requires PoolInv(p)
    ensures Passive(p, Retire(p, k, now))
    ensures k !in Retire(p, k, now).entries
    ensures Has(p, k) ==> Retire(p, k, now).cells[p.entries[k]].retired
  {
    RetireShape(p, k, now);
    RetireSettled(p, k, now);
    RetireEvolves(p, k, now);
  }

  /** A section that leaves entries, fence and log alone evolves the pool. */
  lemma CellsOnlyEvolves(p: Pool, q: Pool)
    requires q.log == p.log && q.counter == p.counter && q.generations == p.generations && q.entries == p.entries
    requires forall b :: b in p.cells ==> b in q.cells && SameCell(p.cells[b], q.cells[b])
    ensures Evolves(p, q)
  {
  }

  lemma HoldGood(p: Pool, b: Backend, now: Time)
    requires PoolInv(p) && b in p.cells && !p.cells[b].retired
    ensures Good(p, Hold(Touch(p, b, now), b))
  {
    CellsOnlyEvolves(p, Hold(Touch(p, b, now), b));
  }

  lemma ReleaseGood(p: Pool, b: Backend)
    requires PoolInv(p) && b in p.cells && p.cells[b].holders > 0
    ensures Good(p, Release(p, b))
  {
    CellsOnlyEvolves(p, Release(p, b));
  }

  lemma SurrenderGood(p: Pool, b: Backend)
    requires PoolInv(p) && b !in p.cells
    ensures Good(p, Surrender(p, b))
  {
    CellsOnlyEvolves(p, Surrender(p, b));
  }

  lemma CloseGood(p: Pool, b: Backend)
    requires PoolInv(p) && b in p.due
    ensures Good(p, Close(p, b))
  {
    CellsOnlyEvolves(p, Close(p, b));
  }

  lemma InsertKeepsPool(p: Pool, k: PoolKey, b: Backend, key: EntryKey, now: Time)
    requires PoolInv(p) && k !in p.entries && k !in p.tombstones && b !in p.cells
    requires p.due[b] == p.closed[b] == 0
    ensures PoolInv(Insert(p, k, b, key, now))
  {
    var q := Insert(p, k, b, key, now);
    assert forall j :: j in q.entries ==> Has(q, j);
  }

  lemma InsertGood(p: Pool, k: PoolKey, b: Backend, key: EntryKey, now: Time)
    requires PoolInv(p) && k !in p.entries && k !in p.tombstones && b !in p.cells
    requires p.due[b] == p.closed[b] == 0
    ensures Good(p, Insert(p, k, b, key, now))
  {
    InsertKeepsPool(p, k, b, key, now);
    ChangedEvolves(p, Insert(p, k, b, key, now), k);
  }

  lemma {:induction false} PruneEntriesPassive(p: Pool, order: seq<PoolKey>, now: Time)
    requires PoolInv(p)
    ensures Passive(p, PruneEntries(p, order, now))
    ensures PruneEntries(p, order, now).tombstones == p.tombstones
    decreases |order|
  {
    if order != [] {
      var q := PruneEntries(p, order[..|order| - 1], now);
      var k := order[|order| - 1];
      PruneEntriesPassive(p, order[..|order| - 1], now);
      if Idle(q, k, now) {
        RetirePassive(q, k, now);
        PassiveTransitive(p, q, Retire(q, k, now));
      }
    }
  }

  lemma AgeOutPassive(p: Pool, now: Time)
    requires PoolInv(p)
    ensures Passive(p, AgeOut(p, now))
  {
    var q := AgeOut(p, now);
    forall k ensures Quiet(q.log, |p.log|, k) <==> k !in Expired(p, now) {
      QuietAfter(p.log, Aged(Expired(p, now)), k);
    }
  }

  lemma PrunePassive(p: Pool, order: seq<PoolKey>, now: Time)
    requires PoolInv(p)
    ensures Passive(p, Prune(p, order, now))
  {
    PruneEntriesPassive(p, order, now);
    AgeOutPassive(PruneEntries(p, order, now), now);
    PassiveTransitive(p, PruneEntries(p, order, now), Prune(p, order, now));
  }

  lemma RetirePoolEntryPassive(p: Pool, k: PoolKey, readGeneration: nat, force: bool, now: Time)
    requires PoolInv(p)
    ensures Passive(p, RetirePoolEntry(p, k, readGeneration, force, now).0)
  {
    WithGenerationPassive(p, k, now);
    RetirePassive(p, k, now);
    RetirePassive(WithGeneration(p, k, now), k, now);
    PassiveTransitive(p, WithGeneration(p, k, now), Retire(WithGeneration(p, k, now), k, now));
  }

  lemma RetireEntryWithKeyPassive(p: Pool, k: PoolKey, key: EntryKey, now: Time)
    requires PoolInv(p)
    ensures Passive(p, RetireEntryWithKey(p, k, key, now))
  {
    RetirePassive(p, k, now);
  }

  lemma TombstonePassive(p: Pool, k: PoolKey, now: Time)
    requires PoolInv(p) && k !in p.entries
    ensures Passive(p, p.(tombstones := p.tombstones[k := now]))
  {
    CellsOnlyEvolves(p, p.(tombstones := p.tombstones[k := now]));
  }

  lemma EvictForDeletePassive(p: Pool, k: PoolKey, now: Time)
    requires PoolInv(p)
    ensures Passive(p, EvictForDelete(p, k, now))
  {
    var q := Retire(p, k, now);
    var t := q.(tombstones := q.tombstones[k := now]);
    RetirePassive(p, k, now);
    TombstonePassive(q, k, now);
    AgeOutPassive(t, now);
    PassiveTransitive(p, q, t);
    PassiveTransitive(p, t, AgeOut(t, now));
  }
}
