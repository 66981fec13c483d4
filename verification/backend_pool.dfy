/** The pool object itself. Each method is one section run under the pool's mutex and is proved to
    compute the corresponding function of PoolModel on `model`, the abstract pool that Valid ties to
    the fields; `closeNow` and `stale` are the backends the caller closes after unlocking. */
module BackendPool {
  import opened Options
  import opened PoolModel

  class PooledEntry {
    const backend: Backend
    const key: EntryKey
    var lastUsed: Time
    var holders: nat
    var retired: bool
    ghost const home: PoolKey

    constructor (backend: Backend, key: EntryKey, lastUsed: Time, holders: nat, ghost home: PoolKey)
      ensures this.backend == backend && View() == Cell(home, key, lastUsed, holders, false)
    {
      this.backend, this.key, this.lastUsed, this.holders := backend, key, lastUsed, holders;
      this.retired, this.home := false, home;
    }

    ghost function View(): Cell
      reads this
    {
      Cell(home, key, lastUsed, holders, retired)
    }
  }

  /** The release closure of one hold: `done` is its sync.Once. */
  class Hold {
    const entry: PooledEntry
    var done: bool

    constructor (entry: PooledEntry)
      ensures this.entry == entry && !done
    {
      this.entry, this.done := entry, false;
    }
  }

  /** The Closes still due once closeNow is handed to the caller. */
  function Plus(due: multiset<Backend>, closeNow: Option<Backend>): multiset<Backend> {
    if closeNow.Some? then due + multiset{closeNow.value} else due
  }

  /** A Close of the list that has not run yet is still due. */
  lemma StillDue(before: multiset<Backend>, now: multiset<Backend>, backends: seq<Backend>, i: nat)
    requires multiset(backends) <= before && i < |backends| && now + multiset(backends[..i]) == before
    ensures backends[i] in now && now - multiset{backends[i]} + multiset(backends[..i + 1]) == before
    ensures multiset(backends[..i + 1]) == multiset(backends[..i]) + multiset{backends[i]}
  {
    assert backends[..i + 1] == backends[..i] + [backends[i]];
    assert backends == backends[..i + 1] + backends[i + 1..];
    var b := backends[i];
    assert now[b] + multiset(backends[..i])[b] == before[b] >= multiset(backends)[b] >= multiset(backends[..i + 1])[b];
  }

  lemma VisitOneMore(order: seq<PoolKey>, all: set<PoolKey>, keys: set<PoolKey>, k: PoolKey)
    requires Enumerates(order, all - keys) && k in keys && keys <= all
    ensures Enumerates(order + [k], all - (keys - {k}))
  {
  }

  class Pool {
    var entries: map<PoolKey, PooledEntry>
    var tombstones: map<PoolKey, Time>
    var generations: map<PoolKey, Generation>
    var counter: nat
    ghost var cells: map<Backend, PooledEntry>
    ghost var model: PoolModel.Pool

    constructor ()
      ensures Valid() && model == EmptyPool
    {
      entries, tombstones, generations, counter := map[], map[], map[], 0;
      cells, model := map[], EmptyPool;
    }

    ghost predicate Valid()
      reads this, cells.Values
    {
      && model.tombstones == tombstones && model.generations == generations && model.counter == counter
      && model.entries.Keys == entries.Keys && model.cells.Keys == cells.Keys
      && (forall b :: b in cells ==> cells[b].backend == b && model.cells[b] == cells[b].View())
      && (forall k :: k in entries ==> model.entries[k] in cells && cells[model.entries[k]] == entries[k])
    }

    /** An entry the pool knows, pooled or retired. */
    ghost predicate Knows(e: PooledEntry)
      reads this
    {
      e.backend in cells && cells[e.backend] == e
    }

    method BumpGeneration(key: PoolKey, now: Time)
      requires Valid()
      modifies this`counter, this`generations, this`model
      ensures Valid() && model == Bump(old(model), key, now)
    {
      counter := counter + 1;
      generations := generations[key := Generation(counter, now)];
      model := Bump(model, key, now);
    }

    method GenerationLocked(key: PoolKey, now: Time) returns (value: nat)
      requires Valid()
      modifies this`counter, this`generations, this`model
      ensures Valid() && model == WithGeneration(old(model), key, now) && value == FenceValue(model, key)
      ensures model.due == old(model).due
    {
      if key !in generations {
        BumpGeneration(key, now);
      }
      value := generations[key].value;
    }

    method MarkRetired(entry: PooledEntry)
      requires Valid() && Knows(entry)
      modifies this`model, entry`retired
      ensures Valid()
      ensures model == old(model).(cells := old(model).cells[entry.backend := old(entry.View()).(retired := true)])
    {
      entry.retired := true;
      model := model.(cells := model.cells[entry.backend := entry.View()]);
    }

    method RemoveEntry(key: PoolKey, closeNow: Option<Backend>)
      requires Valid() && key in entries
      modifies this`entries, this`model
      ensures Valid() && entries == old(entries) - {key}
      ensures model == old(model).(entries := old(model).entries - {key}, due := Plus(old(model).due, closeNow))
    {
      entries := entries - {key};
      model := model.(entries := model.entries - {key}, due := Plus(model.due, closeNow));
    }

    method Detach(key: PoolKey, entry: PooledEntry) returns (closeNow: Option<Backend>)
      requires Valid() && key in entries && entries[key] == entry
      modifies this`entries, this`model, entry`retired
      ensures Valid() && entries == old(entries) - {key}
      ensures model == PoolModel.Detach(old(model), key) && model.due == Plus(old(model).due, closeNow)
    {
      MarkRetired(entry);
      closeNow := if entry.holders > 0 then None else Some(entry.backend);
      RemoveEntry(key, closeNow);
    }

    method RetireLocked(key: PoolKey, now: Time) returns (closeNow: Option<Backend>)
      requires Valid()
      modifies this`entries, this`counter, this`generations, this`model, if key in entries then {entries[key]} else {}
      ensures Valid() && entries == old(entries) - {key}
      ensures model == Retire(old(model), key, now) && model.due == Plus(old(model).due, closeNow)
    {
      BumpGeneration(key, now);
      model := model.(log := model.log + [Changed(key)]);
      closeNow := None;
      if key in entries {
        closeNow := Detach(key, entries[key]);
      }
    }

    method HoldLocked(entry: PooledEntry) returns (release: Hold)
      requires Valid() && Knows(entry)
      modifies this`model, entry`holders
      ensures Valid() && model == PoolModel.Hold(old(model), entry.backend)
      ensures fresh(release) && release.entry == entry && !release.done
    {
      entry.holders := entry.holders + 1;
      model := PoolModel.Hold(model, entry.backend);
      release := new Hold(entry);
    }

    /** Idempotent: only the first call drops the hold. */
    method ReleaseLocked(release: Hold) returns (closeNow: Option<Backend>)
      requires Valid() && Knows(release.entry)
      requires !release.done ==> release.entry.holders > 0
      modifies this`model, release, release.entry`holders
      ensures Valid() && release.done && model.due == Plus(old(model).due, closeNow)
      ensures model == if old(release.done) then old(model) else Release(old(model), release.entry.backend)
    {
      if release.done {
        return None;
      }
      release.done := true;
      var entry := release.entry;
      model := Release(model, entry.backend);
      entry.holders := entry.holders - 1;
      closeNow := if entry.retired && entry.holders == 0 then Some(entry.backend) else None;
    }

    /** closeBackendsLogged, after Unlock: each Close handed to the caller runs once. */
    method CloseBackends(backends: seq<Backend>)
      requires Valid() && multiset(backends) <= model.due
      modifies this`model
      ensures Valid() && model.due + multiset(backends) == old(model).due
      ensures model.closed == old(model).closed + multiset(backends)
      ensures model == old(model).(due := model.due, closed := model.closed)
    {
      for i := 0 to |backends|
        invariant Valid() && model.due + multiset(backends[..i]) == old(model).due
        invariant model.closed == old(model).closed + multiset(backends[..i])
        invariant model == old(model).(due := model.due, closed := model.closed)
      {
        StillDue(old(model).due, model.due, backends, i);
        model := Close(model, backends[i]);
      }
      assert backends[..|backends|] == backends;
    }

    method EvictKey(key: PoolKey, now: Time) returns (closeNow: Option<Backend>)
      requires Valid()
      modifies this, if key in entries then {entries[key]} else {}
      ensures Valid() && model == Retire(old(model), key, now) && model.due == Plus(old(model).due, closeNow)
    {
      closeNow := RetireLocked(key, now);
    }

    method RetireEntryWithKey(key: PoolKey, entryKey: EntryKey, now: Time) returns (closeNow: Option<Backend>)
      requires Valid()
      modifies this, if key in entries then {entries[key]} else {}
      ensures Valid() && model == PoolModel.RetireEntryWithKey(old(model), key, entryKey, now)
      ensures model.due == Plus(old(model).due, closeNow)
    {
      closeNow := None;
      if key in entries && entries[key].key == entryKey {
        closeNow := RetireLocked(key, now);
      }
    }

    method RetirePoolEntry(key: PoolKey, readGeneration: nat, force: bool, now: Time)
      returns (kept: Option<EntryKey>, closeNow: Option<Backend>)
      requires Valid()
      modifies this, if key in entries then {entries[key]} else {}
      ensures Valid() && (model, kept) == PoolModel.RetirePoolEntry(old(model), key, readGeneration, force, now)
      ensures model.due == Plus(old(model).due, closeNow)
    {
      if key in entries && !force {
        var value := GenerationLocked(key, now);
        if value != readGeneration {
          return Some(entries[key].key), None;
        }
      }
      closeNow := RetireLocked(key, now);
      kept := None;
    }

    method PruneTombstones(now: Time)
      requires Valid()
      modifies this`tombstones
      ensures tombstones == AgeOut(old(model), now).tombstones
    {
      var keys := tombstones.Keys;
      while keys != {}
        invariant keys <= old(tombstones).Keys && tombstones.Keys <= old(tombstones).Keys
        invariant forall k :: k in old(tombstones) ==>
          (k in tombstones <==> k in keys || now - old(tombstones)[k] <= BACKEND_POOL_TTL)
        invariant forall k :: k in tombstones ==> tombstones[k] == old(tombstones)[k]
        decreases keys
      {
        var k :| k in keys;
        keys := keys - {k};
        if now - tombstones[k] > BACKEND_POOL_TTL {
          tombstones := tombstones - {k};
        }
      }
    }

    method PruneGenerations(now: Time)
      requires model.generations == generations && model.entries.Keys == entries.Keys
      modifies this`generations
      ensures generations == AgeOut(model, now).generations
    {
      var keys := generations.Keys;
      ghost var expired := Expired(model, now);
      while keys != {}
        invariant keys <= old(generations).Keys && generations.Keys <= old(generations).Keys
        invariant forall k :: k in old(generations) ==> (k in generations <==> k in keys || k !in expired)
        invariant forall k :: k in generations ==> generations[k] == old(generations)[k]
        decreases keys
      {
        var k :| k in keys;
        keys := keys - {k};
        if k !in entries && now - generations[k].changed > BACKEND_POOL_TTL {
          generations := generations - {k};
        }
      }
    }

    method PruneExpired(now: Time)
      requires Valid()
      modifies this`tombstones, this`generations, this`model
      ensures Valid() && model == AgeOut(old(model), now)
    {
      PruneTombstones(now);
      PruneGenerations(now);
      model := AgeOut(model, now);
    }

    /** One visit of the range over the entries: an idle entry past the TTL is retired. */
    method PruneOne(key: PoolKey, now: Time) returns (closeNow: Option<Backend>)
      requires Valid() && key in entries
      modifies this`entries, this`counter, this`generations, this`model, entries.Values
      ensures Valid() && entries.Keys == old(entries).Keys - (if Idle(old(model), key, now) then {key} else {})
      ensures entries.Values <= old(entries).Values
      ensures model == PoolModel.PruneOne(old(model), key, now)
      ensures model.due == Plus(old(model).due, closeNow)
    {
      closeNow := None;
      if entries[key].holders == 0 && now - entries[key].lastUsed > BACKEND_POOL_TTL {
        closeNow := RetireLocked(key, now);
      }
    }

    method PruneVisit(key: PoolKey, now: Time, stale: seq<Backend>, ghost start: PoolModel.Pool, ghost order: seq<PoolKey>)
      returns (more: seq<Backend>)
      requires Valid() && key in entries && model == PruneEntries(start, order, now)
      requires model.due == start.due + multiset(stale)
      modifies this`entries, this`counter, this`generations, this`model, entries.Values
      ensures Valid() && old(entries).Keys - {key} <= entries.Keys && entries.Values <= old(entries).Values
      ensures model == PruneEntries(start, order + [key], now) && model.due == start.due + multiset(more)
    {
      var closeNow := PruneOne(key, now);
      more := if closeNow.Some? then stale + [closeNow.value] else stale;
      assert (order + [key])[..|order|] == order;
    }

    /** `order` is the order in which the range over the entries happened to visit them. */
    method PruneIdle(now: Time) returns (stale: seq<Backend>, ghost order: seq<PoolKey>)
      requires Valid()
      modifies this`entries, this`counter, this`generations, this`model, entries.Values
      ensures Valid() && entries.Values <= old(entries).Values
      ensures Enumerates(order, old(entries.Keys)) && model == PruneEntries(old(model), order, now)
      ensures model.due == old(model).due + multiset(stale)
    {
      stale, order := [], [];
      var keys := entries.Keys;
      while keys != {}
        invariant Valid() && keys <= entries.Keys && entries.Values <= old(entries).Values
        invariant keys <= old(entries).Keys && Enumerates(order, old(entries).Keys - keys)
        invariant model == PruneEntries(old(model), order, now) && model.due == old(model).due + multiset(stale)
        decreases keys
      {
        var k :| k in keys;
        stale := PruneVisit(k, now, stale, old(model), order);
        VisitOneMore(order, old(entries).Keys, keys, k);
        keys, order := keys - {k}, order + [k];
      }
    }

    method PruneStaleEntries(now: Time) returns (stale: seq<Backend>, ghost order: seq<PoolKey>)
      requires Valid()
      modifies this`entries, this`tombstones, this`counter, this`generations, this`model, entries.Values
      ensures Valid() && entries.Values <= old(entries).Values
      ensures Enumerates(order, old(entries.Keys)) && model == Prune(old(model), order, now)
      ensures model.due == old(model).due + multiset(stale)
    {
      stale, order := PruneIdle(now);
      PruneExpired(now);
    }

    method EvictForDelete(key: PoolKey, now: Time) returns (closeNow: Option<Backend>)
      requires Valid()
      modifies this, if key in entries then {entries[key]} else {}
      ensures Valid() && model == PoolModel.EvictForDelete(old(model), key, now)
      ensures model.due == Plus(old(model).due, closeNow)
    {
      closeNow := RetireLocked(key, now);
      tombstones := tombstones[key := now];
      model := model.(tombstones := model.tombstones[key := now]);
      PruneExpired(now);
    }

    method TouchEntry(entry: PooledEntry, now: Time)
      requires Valid() && Knows(entry)
      modifies this`model, entry`lastUsed
      ensures Valid() && model == Touch(old(model), entry.backend, now)
    {
      entry.lastUsed := now;
      model := Touch(model, entry.backend, now);
    }

    /** The hit, re-read or retire decision of lookupOrRetire, between its prune and its final
        generation read. */
    method DecideLocked(key: PoolKey, entryKey: EntryKey, readGeneration: nat, force: bool, now: Time)
      returns (look: Look, release: Option<Hold>, closeNow: Option<Backend>)
      requires Valid()
      modifies this`entries, this`counter, this`generations, this`model, if key in entries then {entries[key]} else {}
      ensures Valid() && (model, look) == Decide(old(model), key, entryKey, readGeneration, force, now)
      ensures model.due == Plus(old(model).due, closeNow)
      ensures look.Hit? <==> release.Some?
      ensures look.Hit? ==> !release.value.done && release.value.entry.backend == look.b && Knows(release.value.entry)
    {
      look, release, closeNow := Miss, None, None;
      if key in entries {
        var entry := entries[key];
        if entry.key == entryKey {
          TouchEntry(entry, now);
          var hold := HoldLocked(entry);
          return Hit(entry.backend), Some(hold), None;
        }
        if !force {
          var value := GenerationLocked(key, now);
          if value != readGeneration {
            return Reread(entry.key), None, None;
          }
        }
        closeNow := RetireLocked(key, now);
      }
    }

    /** lookupOrRetire: prune, decide, and record the fence value of a miss. */
    method LookupOrRetire(key: PoolKey, entryKey: EntryKey, readGeneration: nat, force: bool, now: Time)
      returns (look: Look, release: Option<Hold>, generation: nat,
               stale: seq<Backend>, closeNow: Option<Backend>, ghost order: seq<PoolKey>)
      requires Valid()
      modifies this`entries, this`tombstones, this`counter, this`generations, this`model, entries.Values
      ensures Valid() && Enumerates(order, old(entries.Keys))
      ensures (model, look) == PoolModel.LookupOrRetire(old(model), key, entryKey, readGeneration, force, order, now)
      ensures generation == FenceValue(model, key)
      ensures model.due == Plus(old(model).due + multiset(stale), closeNow)
      ensures look.Hit? ==> release.Some? && !release.value.done && release.value.entry.backend == look.b
    {
      stale, order := PruneStaleEntries(now);
      ghost var due := model.due;
      look, release, closeNow := DecideLocked(key, entryKey, readGeneration, force, now);
      assert model.due == Plus(due, closeNow);
      generation := GenerationLocked(key, now);
    }

    method AdoptEntry(key: PoolKey, entry: PooledEntry)
      requires Valid() && key !in entries && entry.backend !in cells
      modifies this`entries, this`cells, this`model
      ensures Valid() && Knows(entry)
      ensures var p := old(model);
        model == p.(entries := p.entries[key := entry.backend], cells := p.cells[entry.backend := entry.View()],
                    log := p.log + [Changed(key)])
    {
      entries, cells := entries[key := entry], cells[entry.backend := entry];
      model := model.(entries := model.entries[key := entry.backend], cells := model.cells[entry.backend := entry.View()],
                      log := model.log + [Changed(key)]);
    }

    method InsertEntry(key: PoolKey, b: Backend, entryKey: EntryKey, now: Time) returns (release: Hold)
      requires Valid() && key !in entries && b !in cells
      modifies this
      ensures Valid() && model == Insert(old(model), key, b, entryKey, now)
      ensures fresh(release) && !release.done && release.entry.backend == b
    {
      var entry := new PooledEntry(b, entryKey, now, 1, key);
      release := new Hold(entry);
      AdoptEntry(key, entry);
      BumpGeneration(key, now);
    }

    /** storePooledBackend: release is None when the caller keeps its own build and closes it; the
        backend to use is release's, else b; `surplus` is the build to close now. */
    method StorePooledBackend(key: PoolKey, generation: nat, b: Backend, entryKey: EntryKey, now: Time)
      returns (release: Option<Hold>, surplus: Option<Backend>)
      requires Valid() && b !in cells
      modifies this, if key in entries then {entries[key]} else {}
      ensures Valid() && model == Store(old(model), key, generation, b, entryKey, now)
      ensures model.due == Plus(old(model).due, surplus)
      ensures match StoreVerdict(old(model), key, generation, entryKey)
        case Owned => release.None?
        case Shared(other) => release.Some? && release.value.entry.backend == other && !release.value.done
        case Pooled => release.Some? && release.value.entry.backend == b && !release.value.done
    {
      release, surplus := None, None;
      if key in tombstones {
        return;
      }
      if key in entries && entries[key].key == entryKey {
        var entry := entries[key];
        surplus := Some(b);
        model := Surrender(model, b);
        TouchEntry(entry, now);
        var hold := HoldLocked(entry);
        release := Some(hold);
      } else if key !in entries && (if key in generations then generations[key].value else 0) == generation {
        var hold := InsertEntry(key, b, entryKey, now);
        release := Some(hold);
      }
    }
  }
}
