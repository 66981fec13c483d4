/** One export pass over the bound sinks of an inventory: a sequential loop decides each binding,
    then the export jobs finish in any order. */
module ExportPass {
  import opened Options
  import opened CoalesceTracker

  datatype ErrorClass = Terminal | Transient | Forbidden

  datatype Failure = Failure(sink: string, kind: ErrorClass)

  datatype Synced = Unset | Exported | Debounced | Failed

  /** status.sinkExports[] entry of one sink, without its name. */
  datatype SinkExport = SinkExport(lastExportTime: Option<Time>, lastChecksum: string, synced: Synced)

  type SinkExports = map<string, SinkExport>

  const Blank := SinkExport(None, "", Unset)

  datatype Plan =
    | Unresolved(kind: ErrorClass)
    | Unpartitionable                 // reported as a terminal error
    | Ready(sinkUID: string, sinkGeneration: int, checksum: string, interval: Duration)

  /** A bound sink with what this pass will find out about it; exportError and exportTime count only
      if its export runs. */
  datatype Binding = Binding(sink: string, plan: Plan, exportError: Option<ErrorClass>, exportTime: Time)

  datatype Context = Context(invKey: string, uid: string, generation: int, requestedAt: string,
                             now: Time, defaultInterval: Duration, previous: SinkExports)

  /** Debounce state and outcome so far, apart from the order of the lists. */
  datatype Tally = Tally(states: States, exports: SinkExports, exported: multiset<string>,
                         debounced: multiset<string>, failures: multiset<Failure>, requeue: Duration)

  function KeyOf(ctx: Context, b: Binding): string {
    Key(ctx.invKey, b.sink)
  }

  function InputsOf(ctx: Context, b: Binding): Inputs
    requires b.plan.Ready?
  {
    Inputs(Identity(ctx.uid, b.plan.sinkUID, b.plan.sinkGeneration), ctx.generation, b.plan.checksum, ctx.requestedAt)
  }

  function MergeRequeue(current: Duration, next: Duration): Duration {
    if current == 0 || next < current then next else current
  }

  function RequeueFor(interval: Duration): Duration {
    if interval > 0 then interval else ZERO_INTERVAL_WATCHDOG
  }

  /******* Per-binding steps *******/

  function Seed(ctx: Context, b: Binding): SinkExport {
    if b.sink in ctx.previous then ctx.previous[b.sink] else Blank
  }

  function Fail(ctx: Context, t: Tally, b: Binding, entry: SinkExport, kind: ErrorClass): Tally {
    t.(states := AfterForget(t.states, KeyOf(ctx, b)),
       exports := t.exports[b.sink := entry.(synced := Failed)],
       failures := t.failures + multiset{Failure(b.sink, kind)})
  }

  function Debounce(ctx: Context, t: Tally, b: Binding): Tally
    requires b.plan.Ready?
  {
    var states := AfterConsult(t.states, KeyOf(ctx, b), InputsOf(ctx, b), b.plan.interval, ctx.now);
    t.(states := states,
       exports := t.exports[b.sink := Seed(ctx, b).(synced := Debounced)],
       debounced := t.debounced + multiset{b.sink},
       requeue := MergeRequeue(t.requeue, NextDue(states, KeyOf(ctx, b), b.plan.interval, ctx.now)))
  }

  predicate NeedsExport(ctx: Context, t: Tally, b: Binding) {
    b.plan.Ready? && !Skips(t.states, KeyOf(ctx, b), InputsOf(ctx, b), b.plan.interval, ctx.now)
  }

  /** The sequential loop's work for one binding. */
  function Prepare(ctx: Context, t: Tally, b: Binding): Tally {
    match b.plan
    case Unresolved(kind) => Fail(ctx, t, b, Seed(ctx, b), kind)
    case Unpartitionable => Fail(ctx, t, b, Seed(ctx, b), Terminal)
    case Ready(_, _, _, _) =>
      if NeedsExport(ctx, t, b) then t.(exports := t.exports[b.sink := Seed(ctx, b)]) else Debounce(ctx, t, b)
  }

  function StatesAfter(ctx: Context, s: States, b: Binding): States
    requires b.plan.Ready?
  {
    if b.exportError.Some? then AfterForget(s, KeyOf(ctx, b)) else AfterRecord(s, KeyOf(ctx, b), InputsOf(ctx, b), ctx.now)
  }

  function ExportsAfter(exports: SinkExports, b: Binding): SinkExports
    requires b.plan.Ready?
  {
    var entry := if b.sink in exports then exports[b.sink] else Blank;
    exports[b.sink := if b.exportError.Some? then entry.(synced := Failed)
                      else SinkExport(Some(b.exportTime), b.plan.checksum, Exported)]
  }

  function RequeueAfter(requeue: Duration, b: Binding): Duration
    requires b.plan.Ready?
  {
    if b.exportError.Some? then requeue else MergeRequeue(requeue, RequeueFor(b.plan.interval))
  }

  function ExportedBy(b: Binding): multiset<string> {
    if b.exportError.Some? then multiset{} else multiset{b.sink}
  }

  function FailedBy(b: Binding): multiset<Failure> {
    if b.exportError.Some? then multiset{Failure(b.sink, b.exportError.value)} else multiset{}
  }

  /** What a finished export job does under the outcome's mutex. */
  function Complete(ctx: Context, t: Tally, b: Binding): Tally
    requires b.plan.Ready?
  {
    Tally(StatesAfter(ctx, t.states, b), ExportsAfter(t.exports, b), t.exported + ExportedBy(b), t.debounced,
          t.failures + FailedBy(b), RequeueAfter(t.requeue, b))
  }

  function PrepareAll(ctx: Context, t: Tally, bs: seq<Binding>): Tally {
    if bs == [] then t else Prepare(ctx, PrepareAll(ctx, t, bs[..|bs| - 1]), bs[|bs| - 1])
  }

  function Jobs(ctx: Context, t: Tally, bs: seq<Binding>): (jobs: seq<Binding>)
    ensures forall b :: b in jobs ==> b in bs && b.plan.Ready?
  {
    if bs == [] then []
    else
      var front, b := bs[..|bs| - 1], bs[|bs| - 1];
      Jobs(ctx, t, front) + if NeedsExport(ctx, PrepareAll(ctx, t, front), b) then [b] else []
  }

  ghost predicate AllReady(bs: seq<Binding>) {
    forall b :: b in bs ==> b.plan.Ready?
  }

  function CompleteAll(ctx: Context, t: Tally, order: seq<Binding>): Tally
    requires AllReady(order)
    decreases |order|
  {
    if order == [] then t else CompleteAll(ctx, Complete(ctx, t, order[0]), order[1..])
  }

  function Start(ctx: Context, states: States): Tally {
    Tally(states, map[], multiset{}, multiset{}, multiset{}, ctx.defaultInterval)
  }

  /** The pass when its jobs finish in the given order. */
  function Pass(ctx: Context, states: States, bs: seq<Binding>, order: seq<Binding>): Tally
    requires AllReady(order)
  {
    CompleteAll(ctx, PrepareAll(ctx, Start(ctx, states), bs), order)
  }

  /** order is a completion order of the pass's jobs. */
  ghost predicate CompletionOrder(ctx: Context, states: States, bs: seq<Binding>, order: seq<Binding>) {
    AllReady(order) && multiset(order) == multiset(Jobs(ctx, Start(ctx, states), bs))
  }

  /******* The error a pass reports *******/

  function AggregateClass(errs: seq<ErrorClass>): Option<ErrorClass> {
    if errs == [] then None
    else if |errs| == 1 then Some(errs[0])
    else if forall i | 0 <= i < |errs| :: errs[i] == Terminal then Some(Terminal)
    else Some(Transient)
  }

  method AggregateExportErrs(errs: seq<ErrorClass>) returns (r: Option<ErrorClass>)
    ensures r == AggregateClass(errs)
  {
    if |errs| == 0 {
      return None;
    }
    if |errs| == 1 {
      return Some(errs[0]);
    }
    for i := 0 to |errs|
      invariant forall j :: 0 <= j < i ==> errs[j] == Terminal
    {
      if errs[i] != Terminal {
        return Some(Transient);
      }
    }
    r := Some(Terminal);
  }

  /******* The source's objects *******/

  class Outcome {
    var exportedCount: nat
    var debouncedCount: nat
    var failedCount: nat
    var failures: seq<Failure>
    var exportErr: Option<ErrorClass>
    var sinkExports: SinkExports
    var exportedSinks: seq<string>
    var requeueAfter: Duration
    ghost var debounced: multiset<string>

    constructor (defaultInterval: Duration)
      ensures Valid() && requeueAfter == defaultInterval && sinkExports == map[]
      ensures exportedSinks == [] && debounced == multiset{} && failures == []
    {
      exportedCount, debouncedCount, failedCount, failures, exportErr := 0, 0, 0, [], None;
      sinkExports, exportedSinks, requeueAfter, debounced := map[], [], defaultInterval, multiset{};
    }

    ghost predicate Valid()
      reads this
    {
      && exportedCount == |exportedSinks| && debouncedCount == |debounced| && failedCount == |failures|
      && exportErr == AggregateClass(Classes(failures))
    }

    ghost function View(states: States): Tally
      reads this
    {
      Tally(states, sinkExports, multiset(exportedSinks), debounced, multiset(failures), requeueAfter)
    }

    method AddSinkFailure(sink: string, kind: ErrorClass)
      requires Valid()
      modifies this`failedCount, this`failures, this`exportErr
      ensures Valid() && failures == old(failures) + [Failure(sink, kind)]
    {
      failedCount := failedCount + 1;
      failures := failures + [Failure(sink, kind)];
      exportErr := AggregateExportErrs(Classes(failures));
    }
  }

  function Classes(failures: seq<Failure>): seq<ErrorClass> {
    seq(|failures|, i requires 0 <= i < |failures| => failures[i].kind)
  }

  predicate IsTotalFailure(exportErr: Option<ErrorClass>, exportedCount: nat, debouncedCount: nat) {
    exportErr.Some? && exportedCount == 0 && debouncedCount == 0
  }

  method FailSinkExport(tracker: PerSinkCoalesceTracker, outcome: Outcome, ctx: Context, b: Binding,
                        entry: SinkExport, kind: ErrorClass)
    requires outcome.Valid()
    modifies tracker, outcome
    ensures outcome.Valid()
    ensures outcome.View(tracker.states) == Fail(ctx, old(outcome.View(tracker.states)), b, entry, kind)
  {
    outcome.AddSinkFailure(b.sink, kind);
    outcome.sinkExports := outcome.sinkExports[b.sink := entry.(synced := Failed)];
    tracker.Forget(ctx.invKey, b.sink);
  }

  method NoteDebounced(tracker: PerSinkCoalesceTracker, outcome: Outcome, ctx: Context, b: Binding, entry: SinkExport)
    requires outcome.Valid() && b.plan.Ready?
    modifies outcome
    ensures outcome.Valid()
    ensures outcome.View(tracker.states) == old(outcome.View(tracker.states)).(
              exports := old(outcome.sinkExports)[b.sink := entry.(synced := Debounced)],
              debounced := old(outcome.debounced) + multiset{b.sink},
              requeue := MergeRequeue(old(outcome.requeueAfter),
                                      NextDue(tracker.states, KeyOf(ctx, b), b.plan.interval, ctx.now)))
  {
    outcome.debouncedCount := outcome.debouncedCount + 1;
    outcome.debounced := outcome.debounced + multiset{b.sink};
    outcome.sinkExports := outcome.sinkExports[b.sink := entry.(synced := Debounced)];
    var due := tracker.NextDueFor(ctx.invKey, b.sink, b.plan.interval, ctx.now);
    outcome.requeueAfter := MergeRequeue(outcome.requeueAfter, due);
  }

  method PrepareBinding(tracker: PerSinkCoalesceTracker, outcome: Outcome, ctx: Context, b: Binding) returns (job: bool)
    requires outcome.Valid()
    modifies tracker, outcome
    ensures outcome.Valid()
    ensures job == NeedsExport(ctx, old(outcome.View(tracker.states)), b)
    ensures outcome.View(tracker.states) == Prepare(ctx, old(outcome.View(tracker.states)), b)
  {
    job := false;
    var entry := if b.sink in ctx.previous then ctx.previous[b.sink] else Blank;
    if b.plan.Unresolved? {
      FailSinkExport(tracker, outcome, ctx, b, entry, b.plan.kind);
      return;
    }
    if b.plan.Unpartitionable? {
      FailSinkExport(tracker, outcome, ctx, b, entry, Terminal);
      return;
    }
    var skip := tracker.ShouldSkip(ctx.invKey, b.sink, InputsOf(ctx, b), b.plan.interval, ctx.now);
    if skip {
      NoteDebounced(tracker, outcome, ctx, b, entry);
      return;
    }
    outcome.sinkExports := outcome.sinkExports[b.sink := entry];
    job := true;
  }

  method FinishJob(tracker: PerSinkCoalesceTracker, outcome: Outcome, ctx: Context, b: Binding)
    requires outcome.Valid() && b.plan.Ready?
    modifies tracker, outcome
    ensures outcome.Valid()
    ensures outcome.View(tracker.states) == Complete(ctx, old(outcome.View(tracker.states)), b)
  {
    if b.exportError.Some? {
      var entry := if b.sink in outcome.sinkExports then outcome.sinkExports[b.sink] else Blank;
      FailSinkExport(tracker, outcome, ctx, b, entry, b.exportError.value);
      return;
    }
    tracker.Record(ctx.invKey, b.sink, InputsOf(ctx, b), ctx.now);
    outcome.exportedSinks := outcome.exportedSinks + [b.sink];
    outcome.sinkExports := outcome.sinkExports[b.sink := SinkExport(Some(b.exportTime), b.plan.checksum, Exported)];
    outcome.exportedCount := outcome.exportedCount + 1;
    outcome.requeueAfter := MergeRequeue(outcome.requeueAfter, RequeueFor(b.plan.interval));
  }

  method PrepareBindings(tracker: PerSinkCoalesceTracker, outcome: Outcome, ctx: Context, bs: seq<Binding>)
    returns (jobs: seq<Binding>)
    requires outcome.Valid()
    modifies tracker, outcome
    ensures outcome.Valid()
    ensures outcome.View(tracker.states) == PrepareAll(ctx, old(outcome.View(tracker.states)), bs)
    ensures jobs == Jobs(ctx, old(outcome.View(tracker.states)), bs)
  {
    jobs := [];
    ghost var t := outcome.View(tracker.states);
    for i := 0 to |bs|
      invariant outcome.Valid() && outcome.View(tracker.states) == PrepareAll(ctx, t, bs[..i])
      invariant jobs == Jobs(ctx, t, bs[..i])
    {
      PrepareStep(ctx, t, bs, i);
      var job := PrepareBinding(tracker, outcome, ctx, bs[i]);
      if job {
        jobs := jobs + [bs[i]];
      }
    }
    assert bs[..|bs|] == bs;
  }

  lemma PrepareStep(ctx: Context, t: Tally, bs: seq<Binding>, i: nat)
    requires i < |bs|
    ensures PrepareAll(ctx, t, bs[..i + 1]) == Prepare(ctx, PrepareAll(ctx, t, bs[..i]), bs[i])
    ensures Jobs(ctx, t, bs[..i + 1]) ==
            Jobs(ctx, t, bs[..i]) + if NeedsExport(ctx, PrepareAll(ctx, t, bs[..i]), bs[i]) then [bs[i]] else []
  {
    assert bs[..i + 1][..i] == bs[..i] && bs[..i + 1][i] == bs[i];
  }

  /** The goroutines: each waits for its export, then takes the mutex; any order is possible. */
  method RunJobs(tracker: PerSinkCoalesceTracker, outcome: Outcome, ctx: Context, jobs: seq<Binding>)
    returns (ghost order: seq<Binding>)
    requires outcome.Valid() && AllReady(jobs)
    modifies tracker, outcome
    ensures outcome.Valid() && AllReady(order) && multiset(order) == multiset(jobs)
    ensures outcome.View(tracker.states) == CompleteAll(ctx, old(outcome.View(tracker.states)), order)
  {
    order := [];
    var pending := jobs;
    ghost var t := outcome.View(tracker.states);
    while pending != []
      invariant outcome.Valid() && AllReady(pending) && AllReady(order)
      invariant multiset(order) + multiset(pending) == multiset(jobs)
      invariant outcome.View(tracker.states) == CompleteAll(ctx, t, order)
      decreases |pending|
    {
      var i :| 0 <= i < |pending|;
      var b := pending[i];
      PickJob(ctx, t, order, pending, i);
      FinishJob(tracker, outcome, ctx, b);
      order, pending := order + [b], pending[..i] + pending[i + 1..];
    }
  }

  lemma TakeOut<T>(s: seq<T>, i: nat)
    requires i < |s|
    ensures multiset(s[..i] + s[i + 1..]) == multiset(s) - multiset{s[i]}
    ensures multiset{s[i]} <= multiset(s)
    ensures forall x :: x in s[..i] + s[i + 1..] ==> x in s
  {
    assert s == s[..i] + [s[i]] + s[i + 1..];
  }

  lemma {:induction false} CompleteSnoc(ctx: Context, t: Tally, order: seq<Binding>, b: Binding)
    requires AllReady(order) && b.plan.Ready?
    ensures CompleteAll(ctx, t, order + [b]) == Complete(ctx, CompleteAll(ctx, t, order), b)
    decreases |order|
  {
    if order == [] {
      assert [b][1..] == [];
    } else {
      assert (order + [b])[1..] == order[1..] + [b];
      CompleteSnoc(ctx, Complete(ctx, t, order[0]), order[1..], b);
    }
  }

  lemma PickJob(ctx: Context, t: Tally, order: seq<Binding>, pending: seq<Binding>, i: nat)
    requires AllReady(order) && AllReady(pending) && i < |pending|
    ensures var order', pending' := order + [pending[i]], pending[..i] + pending[i + 1..];
            && AllReady(order') && AllReady(pending')
            && multiset(order') + multiset(pending') == multiset(order) + multiset(pending)
            && CompleteAll(ctx, t, order') == Complete(ctx, CompleteAll(ctx, t, order), pending[i])
  {
    TakeOut(pending, i);
    CompleteSnoc(ctx, t, order, pending[i]);
  }

  method ExportToSinks(tracker: PerSinkCoalesceTracker, ctx: Context, bs: seq<Binding>)
    returns (outcome: Outcome, ghost order: seq<Binding>)
    modifies tracker
    ensures fresh(outcome) && outcome.Valid() && CompletionOrder(ctx, old(tracker.states), bs, order)
    ensures outcome.View(tracker.states) == Pass(ctx, old(tracker.states), bs, order)
  {
    outcome := new Outcome(ctx.defaultInterval);
    assert outcome.View(tracker.states) == Start(ctx, tracker.states);
    var jobs := PrepareBindings(tracker, outcome, ctx, bs);
    order := RunJobs(tracker, outcome, ctx, jobs);
  }

  /******* The cluster inventory exports inline, one binding after another *******/

  function Inline(ctx: Context, t: Tally, b: Binding): Tally {
    var p := Prepare(ctx, t, b);
    if NeedsExport(ctx, t, b) then Complete(ctx, p, b) else p
  }

  function Sequential(ctx: Context, t: Tally, bs: seq<Binding>): Tally {
    if bs == [] then t else Inline(ctx, Sequential(ctx, t, bs[..|bs| - 1]), bs[|bs| - 1])
  }

  method ExportClusterToSinks(tracker: PerSinkCoalesceTracker, ctx: Context, bs: seq<Binding>)
    returns (outcome: Outcome)
    modifies tracker
    ensures fresh(outcome) && outcome.Valid()
    ensures outcome.View(tracker.states) == Sequential(ctx, Start(ctx, old(tracker.states)), bs)
  {
    outcome := new Outcome(ctx.defaultInterval);
    ghost var t := Start(ctx, tracker.states);
    for i := 0 to |bs|
      invariant fresh(outcome) && outcome.Valid() && outcome.View(tracker.states) == Sequential(ctx, t, bs[..i])
    {
      assert bs[..i + 1][..i] == bs[..i] && bs[..i + 1][i] == bs[i];
      ExportInline(tracker, outcome, ctx, bs[i]);
    }
    assert bs[..|bs|] == bs;
  }

  method ExportInline(tracker: PerSinkCoalesceTracker, outcome: Outcome, ctx: Context, b: Binding)
    requires outcome.Valid()
    modifies tracker, outcome
    ensures outcome.Valid()
    ensures outcome.View(tracker.states) == Inline(ctx, old(outcome.View(tracker.states)), b)
  {
    var job := PrepareBinding(tracker, outcome, ctx, b);
    if job {
      FinishJob(tracker, outcome, ctx, b);
    }
  }
}
