/** Reconcile passes of one inventory against an API object with optimistic concurrency: reads may be
    stale, status writes may conflict, fail, or fail after taking effect, and other writers and other
    inventories interleave at every step. */
module PersistedStatus {
  import opened Options
  import opened Strings
  import opened CoalesceTracker
  import opened ExportPass

  /** One stored revision of the inventory object; sinks are the export keys its spec binds. */
  datatype Version = Version(uid: string, generation: int, sinks: set<string>, exports: SinkExports)

  datatype Flight = Idle | Flying(read: nat, ctx: Context, todo: set<Binding>, jobs: set<Binding>, tally: Tally)

  datatype World = World(invKey: string, versions: seq<Version>, states: States, flight: Flight)

  datatype Action =
    | Touch                                        // metadata or condition-only update by anyone
    | EditSpec(sinks: set<string>)
    | Recreate(uid: string, sinks: set<string>)
    | Others(states: States)                       // tracker calls made for other inventories
    | Restart
    | Begin(read: nat, ctx: Context, bindings: set<Binding>)
    | PrepareSink(binding: Binding)
    | FinishSink(binding: Binding)
    | Abandon                                      // a pass that returns before exporting anything
    | WriteSucceeds
    | WriteFails
    | WriteFailsAfterEffect

  function Current(w: World): Version
    requires w.versions != []
  {
    w.versions[|w.versions| - 1]
  }

  ghost predicate DistinctNames(bs: set<Binding>) {
    forall a, b :: a in bs && b in bs && a.sink == b.sink ==> a == b
  }

  /** What calls for other inventories can do to this one's entries: prune them. */
  ghost predicate OnlyPruned(inv: string, before: States, after: States) {
    forall s :: Key(inv, s) in after ==> Key(inv, s) in before && after[Key(inv, s)] == before[Key(inv, s)]
  }

  ghost predicate ReadsVersion(w: World, read: nat, ctx: Context) {
    && read < |w.versions| && ctx.invKey == w.invKey
    && ctx.uid == w.versions[read].uid && ctx.generation == w.versions[read].generation
    && ctx.previous == w.versions[read].exports
  }

  ghost predicate BindsSinks(bs: set<Binding>, sinks: set<string>) {
    && DistinctNames(bs) && (forall b :: b in bs ==> b.sink in sinks)
    && forall s :: s in sinks ==> exists b :: b in bs && b.sink == s
  }

  predicate Finished(f: Flight) {
    f.Flying? && f.todo == {} && f.jobs == {}
  }

  ghost predicate Enabled(w: World, a: Action)
    requires w.versions != []
  {
    match a
    case Touch => true
    case EditSpec(_) => true
    case Recreate(uid, _) => forall i :: 0 <= i < |w.versions| ==> w.versions[i].uid != uid
    case Others(states) => OnlyPruned(w.invKey, w.states, states)
    case Restart => true
    case Begin(read, ctx, bs) => w.flight.Idle? && ReadsVersion(w, read, ctx) && BindsSinks(bs, w.versions[read].sinks)
    case PrepareSink(b) => w.flight.Flying? && b in w.flight.todo
    case FinishSink(b) => w.flight.Flying? && b in w.flight.jobs && b.plan.Ready?
    case Abandon => w.flight.Flying? && w.flight.tally.exported == multiset{}
    case WriteSucceeds => Finished(w.flight) && w.flight.read == |w.versions| - 1
    case WriteFails => Finished(w.flight)
    case WriteFailsAfterEffect => Finished(w.flight) && w.flight.read == |w.versions| - 1
  }

  function Store(w: World, v: Version): World {
    w.(versions := w.versions + [v])
  }

  function ForgetAll(states: States, inv: string, sinks: multiset<string>): States {
    map k | k in states && (forall s :: s in sinks ==> k != Key(inv, s)) :: states[k]
  }

  /** Dropping the baselines of a pass that exported nothing is no change, which is why the path
      for a total failure, which drops none, is the same step. */
  function Forget(w: World): World
    requires w.flight.Flying?
  {
    w.(states := ForgetAll(w.states, w.invKey, w.flight.tally.exported), flight := Idle)
  }

  function Persist(w: World): World
    requires w.versions != [] && w.flight.Flying?
  {
    Store(w, Current(w).(exports := w.flight.tally.exports))
  }

  function Apply(w: World, a: Action): World
    requires w.versions != [] && Enabled(w, a)
  {
    match a
    case Touch => Store(w, Current(w))
    case EditSpec(sinks) => Store(w, Current(w).(generation := Current(w).generation + 1, sinks := sinks))
    case Recreate(uid, sinks) => Store(w, Version(uid, 1, sinks, map[]))
    case Others(states) => w.(states := states)
    case Restart => w.(states := map[], flight := Idle)
    case Begin(read, ctx, bs) => w.(flight := Flying(read, ctx, bs, {}, Start(ctx, w.states)))
    case PrepareSink(b) =>
      var f := w.flight;
      var t := f.tally.(states := w.states);
      var t' := Prepare(f.ctx, t, b);
      var jobs := if NeedsExport(f.ctx, t, b) then f.jobs + {b} else f.jobs;
      w.(states := t'.states, flight := f.(todo := f.todo - {b}, jobs := jobs, tally := t'))
    case FinishSink(b) =>
      var f := w.flight;
      var t' := Complete(f.ctx, f.tally.(states := w.states), b);
      w.(states := t'.states, flight := f.(jobs := f.jobs - {b}, tally := t'))
    case Abandon => w.(flight := Idle)
    case WriteSucceeds => Persist(w).(flight := Idle)
    case WriteFails => Forget(w)
    case WriteFailsAfterEffect => Forget(Persist(w))
  }

  /** The source's rollback loop. */
  method ForgetUnpersistedExports(tracker: PerSinkCoalesceTracker, outcome: Outcome, invKey: string)
    modifies tracker
    ensures tracker.states == ForgetAll(old(tracker.states), invKey, multiset(outcome.exportedSinks))
  {
    var sinks := outcome.exportedSinks;
    for i := 0 to |sinks|
      invariant tracker.states == ForgetAll(old(tracker.states), invKey, multiset(sinks[..i]))
    {
      assert sinks[..i + 1] == sinks[..i] + [sinks[i]];
      tracker.Forget(invKey, sinks[i]);
    }
    assert sinks[..|sinks|] == sinks;
  }

  /** Tracker calls for another inventory meet the assumption on Others. */
  lemma OtherCallsOnlyPrune(inv: string, other: string, sink: string, states: States, c: Call)
    requires NulFree(inv) && NulFree(other) && inv != other && c.key == Key(other, sink)
    ensures OnlyPruned(inv, states, CoalesceTracker.Apply(states, c))
  {
    forall s ensures Key(inv, s) != c.key {
      if Key(inv, s) == c.key { KeyInjective(inv, s, other, sink); }
    }
  }

  /******* Invariant *******/

  ghost predicate VersionsOk(vs: seq<Version>) {
    && vs != []
    && (forall i :: 0 <= i < |vs| && vs[i].uid == vs[|vs| - 1].uid ==> vs[i].generation <= vs[|vs| - 1].generation)
    && forall i, j :: 0 <= i < |vs| && 0 <= j < |vs| && vs[i].uid == vs[j].uid && vs[i].generation == vs[j].generation ==>
         vs[i].sinks == vs[j].sinks
  }

  ghost predicate Of(v: Version, inputs: Inputs) {
    v.uid == inputs.identity.inventoryUID && v.generation == inputs.generation
  }

  /** Baselines are only ever recorded for a version that bound the sink. */
  ghost predicate Known(vs: seq<Version>, s: string, inputs: Inputs) {
    exists i :: 0 <= i < |vs| && Of(vs[i], inputs) && s in vs[i].sinks
  }

  /** The persisted entries show the last export that the baseline stands for. */
  ghost predicate Shown(exports: SinkExports, s: string, inputs: Inputs) {
    s in exports && exports[s].lastExportTime.Some? && exports[s].lastChecksum == inputs.checksum
  }

  predicate InFlight(f: Flight, s: string) {
    f.Flying? && s in f.tally.exported
  }

  ghost predicate StatesOk(w: World)
    requires w.versions != []
  {
    forall s :: Key(w.invKey, s) in w.states ==>
      var inputs := w.states[Key(w.invKey, s)].inputs;
      && Known(w.versions, s, inputs)
      && (!InFlight(w.flight, s) && Of(Current(w), inputs) ==> Shown(Current(w).exports, s, inputs))
  }

  function RecordOf(exports: SinkExports, s: string): (Option<Time>, string) {
    if s in exports then (exports[s].lastExportTime, exports[s].lastChecksum) else (None, "")
  }

  /** A sink not exported in this pass keeps its last export record; an exported one shows its own. */
  ghost predicate ExportsOk(f: Flight, v: Version, inv: string, states: States)
    requires f.Flying?
  {
    && (forall s :: s in f.tally.exports && s !in f.tally.exported ==> RecordOf(f.tally.exports, s) == RecordOf(v.exports, s))
    && forall s :: s in f.tally.exported && Key(inv, s) in states ==>
         Of(v, states[Key(inv, s)].inputs) && Shown(f.tally.exports, s, states[Key(inv, s)].inputs)
  }

  ghost predicate WorkOk(f: Flight, v: Version)
    requires f.Flying?
  {
    && DistinctNames(f.todo + f.jobs) && f.todo !! f.jobs
    && (forall b :: b in f.todo + f.jobs ==> b.sink in v.sinks && b.sink !in f.tally.exported)
    && (forall b :: b in f.todo ==> b.sink !in f.tally.exports)
    && (forall b :: b in f.jobs ==> b.plan.Ready? && b.sink in f.tally.exports)
    && (forall s :: s in v.sinks ==> s in f.tally.exports || exists b :: b in f.todo && b.sink == s)
  }

  ghost predicate FlightOk(w: World) {
    w.flight.Flying? ==>
      && ReadsVersion(w, w.flight.read, w.flight.ctx)
      && WorkOk(w.flight, w.versions[w.flight.read])
      && ExportsOk(w.flight, w.versions[w.flight.read], w.invKey, w.states)
  }

  ghost predicate Inv(w: World) {
    VersionsOk(w.versions) && StatesOk(w) && FlightOk(w)
  }

  /******* Writers *******/

  lemma KnownGrows(vs: seq<Version>, v: Version, s: string, inputs: Inputs)
    requires Known(vs, s, inputs)
    ensures Known(vs + [v], s, inputs)
  {
    var i :| 0 <= i < |vs| && Of(vs[i], inputs) && s in vs[i].sinks;
    assert (vs + [v])[i] == vs[i];
  }

  /** A new version keeps the invariant if no known baseline matches it that it does not show. */
  lemma StoreKeeps(w: World, v: Version)
    requires Inv(w) && VersionsOk(w.versions + [v])
    requires forall s :: Key(w.invKey, s) in w.states && !InFlight(w.flight, s) ==>
               var inputs := w.states[Key(w.invKey, s)].inputs;
               Of(v, inputs) ==> Shown(v.exports, s, inputs)
    ensures Inv(Store(w, v))
  {
    var w' := Store(w, v);
    assert forall i :: 0 <= i < |w.versions| ==> w'.versions[i] == w.versions[i];
    forall s | Key(w.invKey, s) in w.states ensures Known(w'.versions, s, w.states[Key(w.invKey, s)].inputs) {
      KnownGrows(w.versions, v, s, w.states[Key(w.invKey, s)].inputs);
    }
  }

  lemma TouchKeeps(w: World)
    requires Inv(w)
    ensures Inv(Store(w, Current(w)))
  {
    StoreKeeps(w, Current(w));
  }

  lemma EditKeeps(w: World, sinks: set<string>)
    requires Inv(w)
    ensures Inv(Apply(w, EditSpec(sinks)))
  {
    var v := Current(w).(generation := Current(w).generation + 1, sinks := sinks);
    forall s | Key(w.invKey, s) in w.states ensures !Of(v, w.states[Key(w.invKey, s)].inputs) {
      assert Known(w.versions, s, w.states[Key(w.invKey, s)].inputs);
    }
    StoreKeeps(w, v);
  }

  lemma RecreateKeeps(w: World, uid: string, sinks: set<string>)
    requires Inv(w) && Enabled(w, Recreate(uid, sinks))
    ensures Inv(Apply(w, Recreate(uid, sinks)))
  {
    var v := Version(uid, 1, sinks, map[]);
    forall s | Key(w.invKey, s) in w.states ensures !Of(v, w.states[Key(w.invKey, s)].inputs) {
      assert Known(w.versions, s, w.states[Key(w.invKey, s)].inputs);
    }
    StoreKeeps(w, v);
  }

  /******* Steps of a pass *******/

  lemma BeginKeeps(w: World, read: nat, ctx: Context, bs: set<Binding>)
    requires Inv(w) && Enabled(w, Begin(read, ctx, bs))
    ensures Inv(Apply(w, Begin(read, ctx, bs)))
  {
  }

  lemma PruneKeeps(w: World, states: States)
    requires Inv(w) && OnlyPruned(w.invKey, w.states, states)
    ensures Inv(w.(states := states))
  {
  }

  /** A step on b's sink leaves every other sink's entry and baseline alone. */
  ghost predicate OnlySink(ctx: Context, t: Tally, r: Tally, sink: string) {
    && r.exports.Keys == t.exports.Keys + {sink}
    && (forall s :: s in t.exports && s != sink ==> r.exports[s] == t.exports[s])
    && (forall k :: k in r.states && k != Key(ctx.invKey, sink) ==> k in t.states && r.states[k].inputs == t.states[k].inputs)
  }

  /** The step records nothing and keeps the last export record. */
  ghost predicate NotExported(ctx: Context, t: Tally, r: Tally, sink: string) {
    && r.exported == t.exported
    && RecordOf(r.exports, sink) == (if sink in t.exports then RecordOf(t.exports, sink) else RecordOf(ctx.previous, sink))
    && (Key(ctx.invKey, sink) in r.states ==>
          && Key(ctx.invKey, sink) in t.states
          && r.states[Key(ctx.invKey, sink)].inputs == t.states[Key(ctx.invKey, sink)].inputs)
  }

  /** The step records a baseline of this version and shows it. */
  ghost predicate WasExported(ctx: Context, t: Tally, r: Tally, sink: string) {
    && r.exported == t.exported + multiset{sink}
    && Key(ctx.invKey, sink) in r.states
    && var inputs := r.states[Key(ctx.invKey, sink)].inputs;
       && inputs.identity.inventoryUID == ctx.uid && inputs.generation == ctx.generation
       && Shown(r.exports, sink, inputs)
  }

  ghost predicate Effect(ctx: Context, t: Tally, r: Tally, sink: string) {
    OnlySink(ctx, t, r, sink) && (NotExported(ctx, t, r, sink) || WasExported(ctx, t, r, sink))
  }

  /** Failing, debouncing and queueing set the sink's condition and drop or keep its baseline. */
  lemma SeededEffect(ctx: Context, t: Tally, r: Tally, b: Binding, synced: Synced)
    requires b.sink !in t.exports && r.exported == t.exported
    requires r.exports == t.exports[b.sink := Seed(ctx, b).(synced := synced)]
    requires forall k :: k in r.states ==> k in t.states && r.states[k].inputs == t.states[k].inputs
    ensures OnlySink(ctx, t, r, b.sink) && NotExported(ctx, t, r, b.sink)
  {
  }

  lemma PrepareEffect(ctx: Context, t: Tally, b: Binding)
    requires b.sink !in t.exports
    ensures OnlySink(ctx, t, Prepare(ctx, t, b), b.sink) && NotExported(ctx, t, Prepare(ctx, t, b), b.sink)
  {
    var r := Prepare(ctx, t, b);
    SeededEffect(ctx, t, r, b, r.exports[b.sink].synced);
  }

  lemma CompleteEffect(ctx: Context, t: Tally, b: Binding)
    requires b.plan.Ready? && b.sink in t.exports
    ensures Effect(ctx, t, Complete(ctx, t, b), b.sink)
  {
  }

  ghost predicate StepOn(w: World, w': World, sink: string) {
    && w.flight.Flying? && FlightOk(w) && w'.flight.Flying?
    && w' == w.(states := w'.flight.tally.states, flight := w'.flight)
    && Effect(w.flight.ctx, w.flight.tally.(states := w.states), w'.flight.tally, sink)
    && sink in w.versions[w.flight.read].sinks && sink !in w.flight.tally.exported
  }

  lemma EffectKeepsStates(w: World, w': World, sink: string)
    requires Inv(w) && StepOn(w, w', sink)
    ensures StatesOk(w')
  {
    forall s | Key(w.invKey, s) in w'.states
      ensures Known(w.versions, s, w'.states[Key(w.invKey, s)].inputs)
      ensures !InFlight(w'.flight, s) && Of(Current(w), w'.states[Key(w.invKey, s)].inputs) ==>
                Shown(Current(w).exports, s, w'.states[Key(w.invKey, s)].inputs)
    {
      if s != sink { KeysApart(w.invKey, s, sink); }
      else if WasExported(w.flight.ctx, w.flight.tally.(states := w.states), w'.flight.tally, sink) {
        assert Of(w.versions[w.flight.read], w'.states[Key(w.invKey, s)].inputs);
      }
    }
  }

  lemma EffectKeepsExports(w: World, w': World, sink: string)
    requires Inv(w) && StepOn(w, w', sink)
    ensures ExportsOk(w'.flight, w.versions[w.flight.read], w.invKey, w'.states)
  {
    forall s | s in w'.flight.tally.exported && Key(w.invKey, s) in w'.states
      ensures Of(w.versions[w.flight.read], w'.states[Key(w.invKey, s)].inputs)
      ensures Shown(w'.flight.tally.exports, s, w'.states[Key(w.invKey, s)].inputs)
    {
      if s != sink { KeysApart(w.invKey, s, sink); }
    }
  }

  lemma PrepareKeepsWork(f: Flight, f': Flight, v: Version, b: Binding)
    requires f.Flying? && f'.Flying? && WorkOk(f, v) && b in f.todo && f'.todo == f.todo - {b}
    requires f'.jobs == f.jobs || (b.plan.Ready? && f'.jobs == f.jobs + {b})
    requires f'.tally.exports.Keys == f.tally.exports.Keys + {b.sink} && f'.tally.exported == f.tally.exported
    ensures WorkOk(f', v)
  {
    assert f'.todo + f'.jobs <= f.todo + f.jobs;
    forall s | s in v.sinks && s !in f'.tally.exports ensures exists x :: x in f'.todo && x.sink == s {
      var x :| x in f.todo && x.sink == s;
      assert x in f'.todo;
    }
  }

  lemma FinishKeepsWork(f: Flight, f': Flight, v: Version, b: Binding)
    requires f.Flying? && f'.Flying? && WorkOk(f, v) && b in f.jobs && f'.todo == f.todo && f'.jobs == f.jobs - {b}
    requires f'.tally.exports.Keys == f.tally.exports.Keys
    requires f'.tally.exported == f.tally.exported || f'.tally.exported == f.tally.exported + multiset{b.sink}
    ensures WorkOk(f', v)
  {
    forall x | x in f'.todo + f'.jobs ensures x.sink != b.sink {
      assert x in f.todo + f.jobs && b in f.todo + f.jobs;
    }
  }

  lemma PrepareKeeps(w: World, b: Binding)
    requires Inv(w) && Enabled(w, PrepareSink(b))
    ensures Inv(Apply(w, PrepareSink(b)))
  {
    var w' := Apply(w, PrepareSink(b));
    assert b in w.flight.todo + w.flight.jobs;
    PrepareEffect(w.flight.ctx, w.flight.tally.(states := w.states), b);
    PrepareKeepsWork(w.flight, w'.flight, w.versions[w.flight.read], b);
    assert StepOn(w, w', b.sink);
    EffectKeepsStates(w, w', b.sink);
    EffectKeepsExports(w, w', b.sink);
  }

  lemma FinishKeeps(w: World, b: Binding)
    requires Inv(w) && Enabled(w, FinishSink(b))
    ensures Inv(Apply(w, FinishSink(b)))
  {
    var w' := Apply(w, FinishSink(b));
    assert b in w.flight.todo + w.flight.jobs;
    CompleteEffect(w.flight.ctx, w.flight.tally.(states := w.states), b);
    FinishKeepsWork(w.flight, w'.flight, w.versions[w.flight.read], b);
    assert StepOn(w, w', b.sink);
    EffectKeepsStates(w, w', b.sink);
    EffectKeepsExports(w, w', b.sink);
  }

  /******* Writes *******/

  /** A finished pass on the current version shows every matching baseline that it leaves behind. */
  lemma FinishedShows(w: World, s: string)
    requires Inv(w) && Finished(w.flight) && w.flight.read == |w.versions| - 1
    requires Key(w.invKey, s) in w.states && Of(Current(w), w.states[Key(w.invKey, s)].inputs)
    ensures Shown(w.flight.tally.exports, s, w.states[Key(w.invKey, s)].inputs)
  {
    var inputs := w.states[Key(w.invKey, s)].inputs;
    if s !in w.flight.tally.exported {
      var i :| 0 <= i < |w.versions| && Of(w.versions[i], inputs) && s in w.versions[i].sinks;
      assert s in Current(w).sinks;
      assert Shown(Current(w).exports, s, inputs);
      assert RecordOf(w.flight.tally.exports, s) == RecordOf(Current(w).exports, s);
    }
  }

  lemma PersistKeeps(w: World)
    requires Inv(w) && Finished(w.flight) && w.flight.read == |w.versions| - 1
    ensures Inv(Persist(w).(flight := Idle))
  {
    var v := Current(w).(exports := w.flight.tally.exports);
    forall s | Key(w.invKey, s) in w.states && Of(v, w.states[Key(w.invKey, s)].inputs)
      ensures Shown(v.exports, s, w.states[Key(w.invKey, s)].inputs)
    {
      FinishedShows(w, s);
    }
    StoreKeeps(w, v);
  }

  lemma ForgottenAreGone(states: States, inv: string, sinks: multiset<string>, s: string)
    requires Key(inv, s) in ForgetAll(states, inv, sinks)
    ensures s !in sinks
  {
  }

  lemma ForgetKeeps(w: World)
    requires Inv(w) && w.flight.Flying?
    ensures Inv(Forget(w))
  {
    var w' := Forget(w);
    forall s | Key(w.invKey, s) in w'.states ensures s !in w.flight.tally.exported {
      ForgottenAreGone(w.states, w.invKey, w.flight.tally.exported, s);
    }
  }

  lemma StepKeeps(w: World, a: Action)
    requires Inv(w) && Enabled(w, a)
    ensures Inv(Apply(w, a))
  {
    match a
    case Touch => TouchKeeps(w);
    case EditSpec(sinks) => EditKeeps(w, sinks);
    case Recreate(uid, sinks) => RecreateKeeps(w, uid, sinks);
    case Others(states) => PruneKeeps(w, states);
    case Restart => RestartKeeps(w);
    case Begin(read, ctx, bs) => BeginKeeps(w, read, ctx, bs);
    case PrepareSink(b) => PrepareKeeps(w, b);
    case FinishSink(b) => FinishKeeps(w, b);
    case Abandon => AbandonKeeps(w);
    case WriteSucceeds => PersistKeeps(w);
    case WriteFails => ForgetKeeps(w);
    case WriteFailsAfterEffect => PersistKeeps(w); LostWriteKeeps(w);
  }

  lemma RestartKeeps(w: World)
    requires Inv(w)
    ensures Inv(w.(states := map[], flight := Idle))
  {
  }

  lemma AbandonKeeps(w: World)
    requires Inv(w) && w.flight.Flying? && w.flight.tally.exported == multiset{}
    ensures Inv(w.(flight := Idle))
  {
  }

  /** After a write that took effect, dropping baselines cannot hurt. */
  lemma LostWriteKeeps(w: World)
    requires w.versions != [] && w.flight.Flying? && Inv(Persist(w).(flight := Idle))
    ensures Inv(Forget(Persist(w)))
  {
    PruneKeeps(Persist(w).(flight := Idle), ForgetAll(w.states, w.invKey, w.flight.tally.exported));
  }

  /******* Runs *******/

  ghost predicate Run(tr: seq<World>, xs: seq<Action>) {
    && |tr| == |xs| + 1
    && tr[0].versions != [] && |tr[0].versions| == 1 && tr[0].states == map[] && tr[0].flight.Idle?
    && forall i :: 0 <= i < |xs| ==> tr[i].versions != [] && Enabled(tr[i], xs[i]) && tr[i + 1] == Apply(tr[i], xs[i])
  }

  lemma {:induction false} RunKeeps(tr: seq<World>, xs: seq<Action>, n: nat)
    requires Run(tr, xs) && n < |tr|
    ensures Inv(tr[n])
  {
    if n > 0 {
      RunKeeps(tr, xs, n - 1);
      StepKeeps(tr[n - 1], xs[n - 1]);
    }
  }

  /** Whenever no pass is under way, a binding the tracker would debounce at the object's current UID
      and generation has a persisted entry showing the same last export checksum, although reads were
      stale, writes conflicted or were lost, and the object was edited or recreated meanwhile. */
  lemma DebouncedMeansPersisted(tr: seq<World>, xs: seq<Action>, n: nat, s: string, inputs: Inputs,
                                interval: Duration, now: Time)
    requires Run(tr, xs) && n < |tr| && tr[n].versions != [] && tr[n].flight.Idle?
    requires Of(Current(tr[n]), inputs)
    requires Skips(tr[n].states, Key(tr[n].invKey, s), inputs, interval, now)
    ensures s in Current(tr[n]).sinks && s in Current(tr[n]).exports
    ensures Current(tr[n]).exports[s].lastChecksum == inputs.checksum
    ensures Current(tr[n]).exports[s].lastExportTime.Some?
  {
    RunKeeps(tr, xs, n);
    var w := tr[n];
    var i :| 0 <= i < |w.versions| && Of(w.versions[i], inputs) && s in w.versions[i].sinks;
  }

  /** A failed write drops the baselines of the sinks its pass exported, whether or not it took effect,
      and no others; a write that succeeds, or none, drops none. The object gets the pass's entries
      exactly when a write took effect. */
  lemma RollbackExact(tr: seq<World>, xs: seq<Action>, n: nat, k: string)
    requires Run(tr, xs) && n < |xs|
    requires xs[n].WriteSucceeds? || xs[n].WriteFails? || xs[n].WriteFailsAfterEffect? || xs[n].Abandon?
    ensures tr[n].flight.Flying? && tr[n + 1].flight.Idle? && tr[n].versions != [] && tr[n + 1].versions != []
    ensures var dropped := (xs[n].WriteFails? || xs[n].WriteFailsAfterEffect?) &&
                           exists s :: s in tr[n].flight.tally.exported && k == Key(tr[n].invKey, s);
      (k in tr[n + 1].states <==> k in tr[n].states && !dropped) &&
      (k in tr[n + 1].states ==> tr[n + 1].states[k] == tr[n].states[k])
    ensures if xs[n].WriteFails? || xs[n].Abandon? then tr[n + 1].versions == tr[n].versions
            else tr[n + 1].versions == tr[n].versions + [Current(tr[n]).(exports := tr[n].flight.tally.exports)]
  {
    assert Enabled(tr[n], xs[n]) && tr[n + 1] == Apply(tr[n], xs[n]);
  }
}
