/** Informer scopes under concurrent registration. A register writes the target, then takes the
    informer lock, looks at all targets, and either finds the running scope wide enough or builds a
    replacement, which may fail; other registers and unregisters interleave throughout. */
module InformerScope {
  import opened Registry

  /** metav1.NamespaceAll. */
  const ALL: string := ""

  /******* watchNamespaceForGVR *******/

  /** The one namespace that every list names, when there is one. */
  ghost predicate Agrees(lists: seq<set<string>>, ns: string) {
    lists != [] && forall i :: 0 <= i < |lists| ==> lists[i] == {ns}
  }

  method WatchNamespaceForGVR(lists: seq<set<string>>) returns (ns: string)
    ensures forall n :: Agrees(lists, n) ==> ns == n
    ensures (forall n :: !Agrees(lists, n)) ==> ns == ALL
  {
    var single, seen := ALL, false;
    for i := 0 to |lists|
      invariant seen <==> i > 0
      invariant forall j :: 0 <= j < i ==> lists[j] == {single}
      invariant !seen ==> single == ALL
    {
      if |lists[i]| != 1 {
        NoneAgree(lists, i);
        return ALL;
      }
      var n :| n in lists[i];
      Singleton(lists[i], n);
      if !seen {
        single, seen := n, true;
        continue;
      }
      if n != single {
        assert lists[0] == {single} && lists[i] == {n};
        assert forall m :: Agrees(lists, m) ==> lists[0] == {m} && lists[i] == {m};
        return ALL;
      }
    }
    if !seen {
      return ALL;
    }
    assert Agrees(lists, single);
    assert lists[0] == {single};
    ns := single;
  }

  lemma NoneAgree(lists: seq<set<string>>, i: nat)
    requires i < |lists|
    ensures forall n :: Agrees(lists, n) ==> |lists[i]| == 1
  {
  }

  lemma Singleton(s: set<string>, x: string)
    requires x in s && |s| == 1
    ensures s == {x}
  {
    assert |s - {x}| == 0;
    assert s == {x} + (s - {x});
  }

  /******* The engine *******/

  /** A registration is known by the number of the register call that made it. */
  datatype Registration = Registration(state: TargetState, call: nat)

  /** Looked: the calls whose registrations the running lifecycle transition took into account. */
  datatype Lifecycle = Unlocked | Building(call: nat, gvr: Gvr, desired: string, looked: set<nat>)

  /** covered: registrations that a successful startInformer looked at. */
  datatype Sys = Sys(targets: map<TargetKey, Registration>, scopes: map<Gvr, string>, lifecycle: Lifecycle,
                     calls: nat, inFlight: map<nat, Gvr>, covered: set<nat>)

  /** intent: what the selectors match just now, used for targets with no effective namespaces. */
  datatype Action =
    | Register(key: TargetKey, state: TargetState)
    | Unregister(key: TargetKey)
    | StartInformer(call: nat, intent: map<TargetKey, set<string>>, desired: string)
    | Synced
    | SyncFailed

  function MatchedNamespaces(state: TargetState, key: TargetKey, intent: map<TargetKey, set<string>>): set<string> {
    if state.effective != {} then state.effective else if key in intent then intent[key] else {}
  }

  ghost predicate IsTarget(s: Sys, gvr: Gvr, k: TargetKey) {
    k in s.targets && s.targets[k].state.gvr == gvr
  }

  /** The registered targets of the resource all watch this one namespace. */
  ghost predicate AllWatch(s: Sys, gvr: Gvr, intent: map<TargetKey, set<string>>, ns: string) {
    && (exists k :: IsTarget(s, gvr, k))
    && forall k :: IsTarget(s, gvr, k) ==> MatchedNamespaces(s.targets[k].state, k, intent) == {ns}
  }

  ghost predicate Desired(s: Sys, gvr: Gvr, intent: map<TargetKey, set<string>>, ns: string) {
    && (forall n :: AllWatch(s, gvr, intent, n) ==> ns == n)
    && ((forall n :: !AllWatch(s, gvr, intent, n)) ==> ns == ALL)
  }

  /** The loop's answer over any scan of the targets is the desired scope. */
  lemma LoopIsDesired(s: Sys, gvr: Gvr, intent: map<TargetKey, set<string>>, keys: seq<TargetKey>,
                      lists: seq<set<string>>, ns: string)
    requires forall k :: k in keys <==> IsTarget(s, gvr, k)
    requires |lists| == |keys|
    requires forall i :: 0 <= i < |keys| ==>
               keys[i] in s.targets && lists[i] == MatchedNamespaces(s.targets[keys[i]].state, keys[i], intent)
    requires (forall n :: Agrees(lists, n) ==> ns == n) && ((forall n :: !Agrees(lists, n)) ==> ns == ALL)
    ensures Desired(s, gvr, intent, ns)
  {
    forall n ensures AllWatch(s, gvr, intent, n) <==> Agrees(lists, n) {
      if Agrees(lists, n) {
        assert IsTarget(s, gvr, keys[0]);
        forall k | IsTarget(s, gvr, k) ensures MatchedNamespaces(s.targets[k].state, k, intent) == {n} {
          var i :| 0 <= i < |keys| && keys[i] == k;
          assert lists[i] == {n};
        }
      }
      if AllWatch(s, gvr, intent, n) {
        var k :| IsTarget(s, gvr, k);
        assert k in keys;
        forall i | 0 <= i < |lists| ensures lists[i] == {n} { assert keys[i] in keys; }
      }
    }
  }

  predicate WideEnough(s: Sys, gvr: Gvr, desired: string) {
    gvr in s.scopes && (s.scopes[gvr] == ALL || s.scopes[gvr] == desired)
  }

  ghost function CallsFor(s: Sys, gvr: Gvr): set<nat> {
    set k | k in s.targets && s.targets[k].state.gvr == gvr :: s.targets[k].call
  }

  ghost predicate Enabled(s: Sys, a: Action) {
    match a
    case Register(_, _) => true
    case Unregister(_) => true
    case StartInformer(call, intent, desired) =>
      s.lifecycle.Unlocked? && call in s.inFlight && Desired(s, s.inFlight[call], intent, desired)
    case Synced => s.lifecycle.Building?
    case SyncFailed => s.lifecycle.Building?
  }

  ghost function Apply(s: Sys, a: Action): Sys
    requires Enabled(s, a)
  {
    match a
    case Register(key, state) =>
      s.(targets := s.targets[key := Registration(state, s.calls)], calls := s.calls + 1,
         inFlight := s.inFlight[s.calls := state.gvr])
    case Unregister(key) => s.(targets := s.targets - {key})
    case StartInformer(call, _, desired) =>
      var gvr := s.inFlight[call];
      if WideEnough(s, gvr, desired) then s.(inFlight := s.inFlight - {call}, covered := s.covered + CallsFor(s, gvr))
      else s.(inFlight := s.inFlight - {call}, lifecycle := Building(call, gvr, desired, CallsFor(s, gvr)))
    case Synced =>
      var b := s.lifecycle;
      s.(scopes := s.scopes[b.gvr := b.desired], lifecycle := Unlocked, covered := s.covered + b.looked)
    case SyncFailed => s.(lifecycle := Unlocked)
  }

  ghost predicate Run(tr: seq<Sys>, xs: seq<Action>) {
    && |tr| == |xs| + 1 && tr[0] == Sys(map[], map[], Unlocked, 0, map[], {})
    && forall i :: 0 <= i < |xs| ==> Enabled(tr[i], xs[i]) && tr[i + 1] == Apply(tr[i], xs[i])
  }

  /******* Coverage *******/

  ghost predicate Covers(scope: string, effective: set<string>) {
    scope == ALL || effective <= {scope}
  }

  ghost predicate ScopeCovers(s: Sys, state: TargetState) {
    state.gvr in s.scopes && Covers(s.scopes[state.gvr], state.effective)
  }

  /** A register call makes one registration. */
  ghost predicate CallsOk(s: Sys) {
    && (forall k :: k in s.targets ==> s.targets[k].call < s.calls)
    && (forall c :: c in s.covered ==> c < s.calls)
    && (forall c :: c in s.inFlight ==> c < s.calls)
    && (forall k :: k in s.targets && s.targets[k].call in s.inFlight ==>
          s.inFlight[s.targets[k].call] == s.targets[k].state.gvr)
    && forall j, k :: j in s.targets && k in s.targets && s.targets[j].call == s.targets[k].call ==> j == k
  }

  ghost predicate CoveredOk(s: Sys) {
    forall k :: k in s.targets && s.targets[k].call in s.covered ==> ScopeCovers(s, s.targets[k].state)
  }

  /** The scope being built covers all that was covered or looked at. */
  ghost predicate BuildingOk(s: Sys) {
    s.lifecycle.Building? ==>
      var b := s.lifecycle;
      && (b.gvr in s.scopes ==> s.scopes[b.gvr] != ALL)
      && (forall c :: c in b.looked ==> c < s.calls)
      && (forall k :: k in s.targets && s.targets[k].call in b.looked ==> s.targets[k].state.gvr == b.gvr)
      && (forall k :: IsTarget(s, b.gvr, k) && s.targets[k].call in s.covered + b.looked ==>
            Covers(b.desired, s.targets[k].state.effective))
      && (forall k :: IsTarget(s, b.gvr, k) ==> s.targets[k].call in b.looked || s.targets[k].call in s.inFlight)
  }

  ghost predicate Inv(s: Sys) {
    CallsOk(s) && CoveredOk(s) && BuildingOk(s)
  }

  lemma DesiredCovers(s: Sys, gvr: Gvr, intent: map<TargetKey, set<string>>, ns: string, k: TargetKey)
    requires Desired(s, gvr, intent, ns) && IsTarget(s, gvr, k)
    ensures Covers(ns, s.targets[k].state.effective)
  {
  }

  lemma RegisterKeeps(s: Sys, key: TargetKey, state: TargetState)
    requires Inv(s)
    ensures Inv(Apply(s, Register(key, state)))
  {
  }

  lemma CallsForIsLook(s: Sys, gvr: Gvr, k: TargetKey)
    requires CallsOk(s) && k in s.targets
    ensures s.targets[k].call in CallsFor(s, gvr) <==> IsTarget(s, gvr, k)
  {
  }

  lemma StartKeeps(s: Sys, call: nat, intent: map<TargetKey, set<string>>, desired: string)
    requires Inv(s) && Enabled(s, StartInformer(call, intent, desired))
    ensures Inv(Apply(s, StartInformer(call, intent, desired)))
  {
    var gvr := s.inFlight[call];
    forall k | k in s.targets ensures s.targets[k].call in CallsFor(s, gvr) <==> IsTarget(s, gvr, k) {
      CallsForIsLook(s, gvr, k);
    }
    forall k | IsTarget(s, gvr, k) ensures Covers(desired, s.targets[k].state.effective) {
      DesiredCovers(s, gvr, intent, desired, k);
    }
  }

  lemma StepKeeps(s: Sys, a: Action)
    requires Inv(s) && Enabled(s, a)
    ensures Inv(Apply(s, a))
  {
    match a
    case Register(key, state) => RegisterKeeps(s, key, state);
    case Unregister(key) =>
    case StartInformer(call, intent, desired) => StartKeeps(s, call, intent, desired);
    case Synced =>
    case SyncFailed =>
  }

  lemma {:induction false} RunKeeps(tr: seq<Sys>, xs: seq<Action>, n: nat)
    requires Run(tr, xs) && n < |tr|
    ensures Inv(tr[n])
  {
    if n > 0 {
      RunKeeps(tr, xs, n - 1);
      StepKeeps(tr[n - 1], xs[n - 1]);
    }
  }

  /******* Main results *******/

  /** The step lets the register call return without an error. */
  ghost predicate Succeeds(s: Sys, a: Action, gvr: Gvr) {
    match a
    case StartInformer(call, _, desired) => call in s.inFlight && s.inFlight[call] == gvr && WideEnough(s, gvr, desired)
    case Synced => s.lifecycle.Building? && s.lifecycle.gvr == gvr
    case _ => false
  }

  /** When it looked: now, or when it took the informer lock. */
  ghost predicate LookedAt(s: Sys, a: Action, call: nat) {
    a.StartInformer? || (s.lifecycle.Building? && call in s.lifecycle.looked)
  }

  /** After a register succeeds, the informer scope covers the namespaces of every registered target
      of that resource that it looked at, and goes on covering them while they stay registered. */
  lemma RegisterCovers(tr: seq<Sys>, xs: seq<Action>, i: nat, j: nat, gvr: Gvr, k: TargetKey)
    requires Run(tr, xs) && i < j < |tr| && Succeeds(tr[i], xs[i], gvr)
    requires IsTarget(tr[i], gvr, k) && LookedAt(tr[i], xs[i], tr[i].targets[k].call)
    requires k in tr[j].targets && tr[j].targets[k] == tr[i].targets[k]
    ensures ScopeCovers(tr[j], tr[i].targets[k].state)
  {
    CoveredGrows(tr, xs, i + 1, j);
    RunKeeps(tr, xs, j);
  }

  lemma {:induction false} CoveredGrows(tr: seq<Sys>, xs: seq<Action>, i: nat, j: nat)
    requires Run(tr, xs) && i <= j < |tr|
    ensures tr[i].covered <= tr[j].covered
    decreases j
  {
    if i < j { CoveredGrows(tr, xs, i, j - 1); }
  }

  /** After a register succeeds, every registered target of the resource is covered, except perhaps
      one whose own register has yet to take the informer lock. */
  lemma RegisterCoversOrWaits(tr: seq<Sys>, xs: seq<Action>, n: nat, gvr: Gvr, k: TargetKey)
    requires Run(tr, xs) && n < |xs| && Succeeds(tr[n], xs[n], gvr) && IsTarget(tr[n + 1], gvr, k)
    ensures ScopeCovers(tr[n + 1], tr[n + 1].targets[k].state) || tr[n + 1].targets[k].call in tr[n + 1].inFlight
  {
    RunKeeps(tr, xs, n);
    RunKeeps(tr, xs, n + 1);
    assert tr[n + 1] == Apply(tr[n], xs[n]);
    assert tr[n + 1].targets == tr[n].targets && IsTarget(tr[n], gvr, k);
  }

  ghost predicate QuietFor(s: Sys, gvr: Gvr) {
    forall c :: c in s.inFlight ==> s.inFlight[c] != gvr
  }

  /** So with no such register it is every registered target, whatever became of its own register. */
  lemma QuietRegisterCoversAll(tr: seq<Sys>, xs: seq<Action>, n: nat, gvr: Gvr, k: TargetKey)
    requires Run(tr, xs) && n < |xs| && Succeeds(tr[n], xs[n], gvr)
    requires QuietFor(tr[n + 1], gvr)
    requires IsTarget(tr[n + 1], gvr, k)
    ensures ScopeCovers(tr[n + 1], tr[n + 1].targets[k].state)
  {
    RegisterCoversOrWaits(tr, xs, n, gvr, k);
    RunKeeps(tr, xs, n + 1);
  }

  /** A cluster-wide scope never narrows. */
  lemma {:induction false} ClusterWideNeverNarrows(tr: seq<Sys>, xs: seq<Action>, i: nat, j: nat, gvr: Gvr)
    requires Run(tr, xs) && i <= j < |tr| && gvr in tr[i].scopes && tr[i].scopes[gvr] == ALL
    ensures gvr in tr[j].scopes && tr[j].scopes[gvr] == ALL
    decreases j
  {
    if i < j {
      ClusterWideNeverNarrows(tr, xs, i, j - 1, gvr);
      RunKeeps(tr, xs, j - 1);
    }
  }

  /** A replacement keeps what a namespaced scope covered exactly when the targets registered at the
      look do not all watch one namespace. */
  lemma WidensExactly(s: Sys, call: nat, intent: map<TargetKey, set<string>>, desired: string)
    requires Enabled(s, StartInformer(call, intent, desired))
    requires s.inFlight[call] in s.scopes && !WideEnough(s, s.inFlight[call], desired)
    ensures Covers(desired, {s.scopes[s.inFlight[call]]}) <==>
            forall n :: n != ALL ==> !AllWatch(s, s.inFlight[call], intent, n)
  {
    var gvr := s.inFlight[call];
    if n :| n != ALL && AllWatch(s, gvr, intent, n) {
      assert desired == n;
      assert s.scopes[gvr] in {s.scopes[gvr]};
    } else if m :| AllWatch(s, gvr, intent, m) {
      assert m == ALL && desired == m;
    }
  }

  /** A register call that finds its resource watched cluster-wide, or in just the desired namespace,
      leaves the informer alone; any other starts one, and only its sync moves the scope. */
  lemma ScopesMoveExactly(tr: seq<Sys>, xs: seq<Action>, n: nat, gvr: Gvr)
    requires Run(tr, xs) && n < |xs|
    ensures xs[n].StartInformer? && xs[n].call in tr[n].inFlight && tr[n].inFlight[xs[n].call] == gvr ==>
            if gvr in tr[n].scopes && tr[n].scopes[gvr] in {ALL, xs[n].desired} then tr[n + 1].lifecycle.Unlocked?
            else tr[n + 1].lifecycle.Building? && tr[n + 1].lifecycle.gvr == gvr && tr[n + 1].lifecycle.desired == xs[n].desired
    ensures xs[n].Synced? ==> tr[n].lifecycle.Building?
    ensures if xs[n].Synced? && tr[n].lifecycle.gvr == gvr
            then gvr in tr[n + 1].scopes && tr[n + 1].scopes[gvr] == tr[n].lifecycle.desired
            else (gvr in tr[n + 1].scopes <==> gvr in tr[n].scopes) &&
                 (gvr in tr[n].scopes ==> tr[n + 1].scopes[gvr] == tr[n].scopes[gvr])
  {
    assert Enabled(tr[n], xs[n]) && tr[n + 1] == Apply(tr[n], xs[n]);
  }

  ghost predicate Ends(tr: seq<Sys>, xs: seq<Action>, targets: set<TargetKey>, scopes: map<Gvr, string>) {
    && Run(tr, xs) && tr[|xs|].lifecycle.Unlocked?
    && tr[|xs|].targets.Keys == targets && tr[|xs|].scopes == scopes
  }

  lemma Extend(tr: seq<Sys>, xs: seq<Action>, a: Action) returns (tr': seq<Sys>, xs': seq<Action>)
    requires Run(tr, xs) && Enabled(tr[|xs|], a)
    ensures tr' == tr + [Apply(tr[|xs|], a)] && xs' == xs + [a] && Run(tr', xs')
  {
    tr', xs' := tr + [Apply(tr[|xs|], a)], xs + [a];
  }

  /** Registering the only target, for one namespace that is not yet the scope, ends with that scope. */
  lemma RegisterAlone(tr: seq<Sys>, xs: seq<Action>, gvr: Gvr, k: TargetKey, ns: string, scopes: map<Gvr, string>)
    returns (tr': seq<Sys>, xs': seq<Action>)
    requires Ends(tr, xs, {}, scopes) && (gvr in scopes ==> scopes[gvr] != ALL && scopes[gvr] != ns)
    ensures Ends(tr', xs', {k}, scopes[gvr := ns]) && |xs'| == |xs| + 3 && tr <= tr'
  {
    var call := tr[|xs|].calls;
    tr', xs' := Extend(tr, xs, Register(k, TargetState(gvr, {ns}, "")));
    OneTargetDecides(tr'[|xs'|], gvr, k, ns);
    tr', xs' := Extend(tr', xs', StartInformer(call, map[], ns));
    tr', xs' := Extend(tr', xs', Synced);
  }

  /** So a namespaced scope can move instead of widening: register for "a", unregister, register for "b". */
  lemma ScopeCanMove(gvr: Gvr, j: TargetKey, k: TargetKey) returns (tr: seq<Sys>, xs: seq<Action>)
    ensures Run(tr, xs) && |xs| == 7
    ensures tr[3].scopes == map[gvr := "a"] && tr[7].scopes == map[gvr := "b"]
  {
    tr, xs := [Sys(map[], map[], Unlocked, 0, map[], {})], [];
    tr, xs := RegisterAlone(tr, xs, gvr, j, "a", map[]);
    ghost var one := tr[3];
    tr, xs := Extend(tr, xs, Unregister(j));
    assert "a"[0] != "b"[0];
    tr, xs := RegisterAlone(tr, xs, gvr, k, "b", map[gvr := "a"]);
    assert tr[3] == one;
  }

  lemma OneTargetDecides(s: Sys, gvr: Gvr, k: TargetKey, ns: string)
    requires IsTarget(s, gvr, k) && s.targets[k].state.effective == {ns} && forall x :: IsTarget(s, gvr, x) ==> x == k
    ensures Desired(s, gvr, map[], ns)
  {
    assert AllWatch(s, gvr, map[], ns);
    forall n | AllWatch(s, gvr, map[], n) ensures n == ns { assert {n} == {ns}; assert n in {ns}; }
  }

  /** And a register can succeed while another registered target is not covered: register j for "a",
      take the lock, register k for "b", finish the build for j. */
  lemma SuccessCanLeaveUncovered(gvr: Gvr, j: TargetKey, k: TargetKey) returns (tr: seq<Sys>, xs: seq<Action>)
    requires j != k
    ensures Run(tr, xs) && |xs| == 4 && Succeeds(tr[3], xs[3], gvr)
    ensures IsTarget(tr[4], gvr, k) && !ScopeCovers(tr[4], tr[4].targets[k].state)
  {
    tr, xs := [Sys(map[], map[], Unlocked, 0, map[], {})], [];
    tr, xs := Extend(tr, xs, Register(j, TargetState(gvr, {"a"}, "")));
    OneTargetDecides(tr[1], gvr, j, "a");
    tr, xs := Extend(tr, xs, StartInformer(0, map[], "a"));
    tr, xs := Extend(tr, xs, Register(k, TargetState(gvr, {"b"}, "")));
    tr, xs := Extend(tr, xs, Synced);
    assert "a"[0] != "b"[0] && "b" in {"b"};
  }
}
