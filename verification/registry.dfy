/** The engine's target registry and its index by resource. */
module Registry {
  import opened Sequences

  /** A namespaced name; the source joins the two with a slash, which namespaces cannot contain. */
  datatype TargetKey = TargetKey(ns: string, name: string)

  datatype Gvr = Gvr(group: string, version: string, resource: string)

  datatype TargetState = TargetState(gvr: Gvr, effective: set<string>, fingerprint: string)

  type Targets = map<TargetKey, TargetState>

  /** keys is the plain scan of the targets for a resource: each target once, and no others. */
  ghost predicate ScanOf(targets: Targets, gvr: Gvr, keys: seq<TargetKey>) {
    Distinct(keys) && forall k :: k in keys <==> k in targets && targets[k].gvr == gvr
  }

  function Without(keys: seq<TargetKey>, key: TargetKey): seq<TargetKey> {
    if keys == [] then [] else if keys[0] == key then keys[1..] else [keys[0]] + Without(keys[1..], key)
  }

  lemma {:induction false} WithoutDrops(keys: seq<TargetKey>, key: TargetKey)
    requires Distinct(keys)
    ensures Distinct(Without(keys, key))
    ensures forall k :: k in Without(keys, key) <==> k in keys && k != key
  {
    if keys != [] {
      assert keys == [keys[0]] + keys[1..];
      WithoutDrops(keys[1..], key);
      assert keys[0] !in keys[1..];
      assert forall k :: k in Without(keys[1..], key) ==> k != keys[0];
    }
  }

  lemma {:induction false} WithoutSplits(keys: seq<TargetKey>, i: nat)
    requires i < |keys| && keys[i] !in keys[..i]
    ensures Without(keys, keys[i]) == keys[..i] + keys[i + 1..]
  {
    if i > 0 {
      assert keys[1..][i - 1] == keys[i] && keys[1..][..i - 1] == keys[1..i] && keys[0] == keys[..i][0];
      assert forall k :: k in keys[1..i] ==> k in keys[..i];
      WithoutSplits(keys[1..], i - 1);
      assert keys[1..][i..] == keys[i + 1..];
    }
  }

  lemma {:induction false} WithoutAbsent(keys: seq<TargetKey>, key: TargetKey)
    requires key !in keys
    ensures Without(keys, key) == keys
  {
    if keys != [] { WithoutAbsent(keys[1..], key); }
  }

  class Engine {
    var targets: Targets
    var targetsByGVR: map<Gvr, seq<TargetKey>>

    constructor ()
      ensures Valid() && targets == map[]
    {
      targets, targetsByGVR := map[], map[];
    }

    ghost function Index(gvr: Gvr): seq<TargetKey>
      reads this`targetsByGVR
    {
      if gvr in targetsByGVR then targetsByGVR[gvr] else []
    }

    /** The index agrees with the plain scan for every resource. */
    ghost predicate Valid()
      reads this
    {
      forall gvr :: ScanOf(targets, gvr, Index(gvr))
    }

    method IndexTargetLocked(key: TargetKey, gvr: Gvr)
      modifies this`targetsByGVR
      ensures Index(gvr) == if key in old(Index(gvr)) then old(Index(gvr)) else old(Index(gvr)) + [key]
      ensures forall g :: g != gvr ==> Index(g) == old(Index(g))
    {
      var keys := if gvr in targetsByGVR then targetsByGVR[gvr] else [];
      for i := 0 to |keys|
        invariant key !in keys[..i]
      {
        if keys[i] == key {
          return;
        }
      }
      targetsByGVR := targetsByGVR[gvr := keys + [key]];
    }

    method UnindexTargetLocked(key: TargetKey, gvr: Gvr)
      modifies this`targetsByGVR
      ensures Index(gvr) == Without(old(Index(gvr)), key)
      ensures forall g :: g != gvr ==> Index(g) == old(Index(g))
    {
      var keys := if gvr in targetsByGVR then targetsByGVR[gvr] else [];
      for i := 0 to |keys|
        invariant key !in keys[..i]
      {
        if keys[i] == key {
          WithoutSplits(keys, i);
          targetsByGVR := targetsByGVR[gvr := keys[..i] + keys[i + 1..]];
          return;
        }
      }
      WithoutAbsent(keys, key);
    }

    /** Registers or re-registers, possibly for another resource; a new or changed state is backfilled. */
    method RegisterTarget(key: TargetKey, state: TargetState) returns (needsBackfill: bool)
      requires Valid()
      modifies this
      ensures Valid() && targets == old(targets)[key := state]
      ensures needsBackfill <==> key !in old(targets) || old(targets)[key].fingerprint != state.fingerprint
    {
      needsBackfill := key !in targets || targets[key].fingerprint != state.fingerprint;
      if key in targets {
        ghost var gvr := targets[key].gvr;
        assert ScanOf(targets, gvr, Index(gvr));
        WithoutDrops(Index(gvr), key);
        UnindexTargetLocked(key, targets[key].gvr);
      }
      assert forall g :: old(ScanOf(targets, g, Index(g))) ==> ScanOf(targets - {key}, g, Index(g));
      targets := targets[key := state];
      IndexTargetLocked(key, state.gvr);
      forall g ensures ScanOf(targets, g, Index(g)) { assert old(ScanOf(targets, g, Index(g))); }
    }

    /** The first half of an unregister; the second clears the store. */
    method UnregisterTarget(key: TargetKey)
      requires Valid()
      modifies this
      ensures Valid() && targets == old(targets) - {key}
    {
      if key in targets {
        ghost var gvr := targets[key].gvr;
        assert ScanOf(targets, gvr, Index(gvr));
        WithoutDrops(Index(gvr), key);
        UnindexTargetLocked(key, targets[key].gvr);
      }
      targets := targets - {key};
      forall g ensures ScanOf(targets, g, Index(g)) { assert old(ScanOf(targets, g, Index(g))); }
    }

    /** The states a dispatch works from: through the index, it sees each target of the resource once. */
    method DispatchStates(gvr: Gvr) returns (keys: seq<TargetKey>, states: seq<TargetState>)
      requires Valid()
      ensures ScanOf(targets, gvr, keys) && |states| == |keys|
      ensures forall i :: 0 <= i < |keys| ==> keys[i] in targets && states[i] == targets[keys[i]]
    {
      assert ScanOf(targets, gvr, Index(gvr));
      keys, states := [], [];
      var indexed := if gvr in targetsByGVR then targetsByGVR[gvr] else [];
      for i := 0 to |indexed|
        invariant keys == indexed[..i] && |states| == i
        invariant forall j :: 0 <= j < i ==> keys[j] in targets && states[j] == targets[keys[j]]
      {
        assert indexed[i] in indexed;
        if indexed[i] in targets {
          keys, states := keys + [indexed[i]], states + [targets[indexed[i]]];
        }
      }
    }
  }
}
