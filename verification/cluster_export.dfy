/** The cluster inventory exports inline, one sink after another. Its loop ends as the concurrent
    pass does exactly when no inline export prunes a state that a later sink would be skipped on. */
module ClusterExport {
  import opened Options
  import opened CoalesceTracker
  import opened ExportPass
  import opened ExportTheorems

  ghost predicate NotStale(ctx: Context, t: Tally, b: Binding) {
    KeyOf(ctx, b) in t.states ==> !Stale(t.states[KeyOf(ctx, b)], ctx.now)
  }

  /** Finishing the job does not disturb what the loop decides for b. */
  ghost predicate Undisturbed(ctx: Context, t: Tally, done: Binding, b: Binding) {
    NotStale(ctx, t, b) || !b.plan.Ready? || NeedsExport(ctx, t, b) || done.exportError.Some?
  }

  lemma CompleteKeepsNeed(ctx: Context, t: Tally, done: Binding, b: Binding)
    requires done.plan.Ready? && done.sink != b.sink
    ensures NotStale(ctx, t, b) ==> NotStale(ctx, Complete(ctx, t, done), b)
    ensures NotStale(ctx, t, b) || done.exportError.Some? ==> SameState(ctx, t.states, Complete(ctx, t, done), b)
    ensures Undisturbed(ctx, t, done, b) ==> NeedsExport(ctx, Complete(ctx, t, done), b) == NeedsExport(ctx, t, b)
  {
    KeysApart(ctx.invKey, done.sink, b.sink);
  }

  lemma ConsultCommutes(ctx: Context, s: States, done: Binding, b: Binding)
    requires done.plan.Ready? && b.plan.Ready? && KeyOf(ctx, done) != KeyOf(ctx, b)
    requires done.exportError.Some? || (KeyOf(ctx, b) in s ==> !Stale(s[KeyOf(ctx, b)], ctx.now))
    ensures var k, inputs := KeyOf(ctx, b), InputsOf(ctx, b);
            AfterConsult(StatesAfter(ctx, s, done), k, inputs, b.plan.interval, ctx.now) ==
            StatesAfter(ctx, AfterConsult(s, k, inputs, b.plan.interval, ctx.now), done)
  {
  }

  lemma ForgetCommutes(ctx: Context, s: States, done: Binding, b: Binding)
    requires done.plan.Ready? && KeyOf(ctx, done) != KeyOf(ctx, b)
    ensures AfterForget(StatesAfter(ctx, s, done), KeyOf(ctx, b)) ==
            StatesAfter(ctx, AfterForget(s, KeyOf(ctx, b)), done)
  {
  }

  lemma EntryCommutes(exports: SinkExports, done: Binding, sink: string, entry: SinkExport)
    requires done.plan.Ready? && done.sink != sink
    ensures ExportsAfter(exports[sink := entry], done) == ExportsAfter(exports, done)[sink := entry]
  {
  }

  lemma FailCommutes(ctx: Context, t: Tally, done: Binding, b: Binding, kind: ErrorClass)
    requires done.plan.Ready? && done.sink != b.sink
    ensures Complete(ctx, Fail(ctx, t, b, Seed(ctx, b), kind), done) ==
            Fail(ctx, Complete(ctx, t, done), b, Seed(ctx, b), kind)
  {
    KeysApart(ctx.invKey, done.sink, b.sink);
    ForgetCommutes(ctx, t.states, done, b);
    EntryCommutes(t.exports, done, b.sink, Seed(ctx, b).(synced := Failed));
    SumCommutes(t.failures, FailedBy(done), multiset{Failure(b.sink, kind)});
  }

  lemma DueUnchanged(ctx: Context, t: Tally, done: Binding, b: Binding)
    requires done.plan.Ready? && b.plan.Ready? && done.sink != b.sink
    requires NotStale(ctx, t, b) || done.exportError.Some?
    ensures Debounce(ctx, Complete(ctx, t, done), b).requeue == RequeueAfter(Debounce(ctx, t, b).requeue, done)
  {
    CompleteKeepsNeed(ctx, t, done, b);
  }

  lemma DebounceCommutes(ctx: Context, t: Tally, done: Binding, b: Binding)
    requires done.plan.Ready? && b.plan.Ready? && done.sink != b.sink
    requires NotStale(ctx, t, b) || done.exportError.Some?
    ensures Complete(ctx, Debounce(ctx, t, b), done) == Debounce(ctx, Complete(ctx, t, done), b)
  {
    KeysApart(ctx.invKey, done.sink, b.sink);
    ConsultCommutes(ctx, t.states, done, b);
    EntryCommutes(t.exports, done, b.sink, Seed(ctx, b).(synced := Debounced));
    DueUnchanged(ctx, t, done, b);
  }

  lemma PrepareCommutes(ctx: Context, t: Tally, done: Binding, b: Binding)
    requires done.plan.Ready? && done.sink != b.sink && Undisturbed(ctx, t, done, b)
    ensures Complete(ctx, Prepare(ctx, t, b), done) == Prepare(ctx, Complete(ctx, t, done), b)
  {
    CompleteKeepsNeed(ctx, t, done, b);
    match b.plan
    case Unresolved(kind) => FailCommutes(ctx, t, done, b, kind);
    case Unpartitionable => FailCommutes(ctx, t, done, b, Terminal);
    case Ready(_, _, _, _) =>
      if NeedsExport(ctx, t, b) {
        EntryCommutes(t.exports, done, b.sink, Seed(ctx, b));
      } else {
        DebounceCommutes(ctx, t, done, b);
      }
  }

  /** None of the jobs disturbs what the loop decides for b. */
  ghost predicate Steady(ctx: Context, t: Tally, jobs: seq<Binding>, b: Binding) {
    || NotStale(ctx, t, b) || !b.plan.Ready? || NeedsExport(ctx, t, b)
    || forall x :: x in jobs ==> x.exportError.Some?
  }

  lemma {:induction false} PrepareAfterJobs(ctx: Context, t: Tally, jobs: seq<Binding>, b: Binding)
    requires AllReady(jobs) && Steady(ctx, t, jobs, b) && forall x :: x in jobs ==> x.sink != b.sink
    ensures CompleteAll(ctx, Prepare(ctx, t, b), jobs) == Prepare(ctx, CompleteAll(ctx, t, jobs), b)
    ensures NeedsExport(ctx, CompleteAll(ctx, t, jobs), b) == NeedsExport(ctx, t, b)
    decreases |jobs|
  {
    if jobs != [] {
      CompleteKeepsNeed(ctx, t, jobs[0], b);
      PrepareCommutes(ctx, t, jobs[0], b);
      PrepareAfterJobs(ctx, Complete(ctx, t, jobs[0]), jobs[1..], b);
    }
  }

  lemma InlineStep(ctx: Context, p: Tally, jobs: seq<Binding>, b: Binding)
    requires AllReady(jobs) && Steady(ctx, p, jobs, b) && forall x :: x in jobs ==> x.sink != b.sink
    ensures var jobs' := jobs + if NeedsExport(ctx, p, b) then [b] else [];
            AllReady(jobs') && Inline(ctx, CompleteAll(ctx, p, jobs), b) == CompleteAll(ctx, Prepare(ctx, p, b), jobs')
  {
    PrepareAfterJobs(ctx, p, jobs, b);
    if NeedsExport(ctx, p, b) { CompleteSnoc(ctx, Prepare(ctx, p, b), jobs, b); } else { assert jobs + [] == jobs; }
  }

  /******* The exact condition *******/

  /** Binding i would be skipped on a state past its TTL, and an earlier binding exports: the inline
      export prunes that state before binding i is looked at. */
  ghost predicate LostToPrune(ctx: Context, states: States, bs: seq<Binding>, i: nat) {
    && i < |bs| && FateOf(ctx, states, bs[i]).Skipped? && Stale(states[KeyOf(ctx, bs[i])], ctx.now)
    && exists j :: 0 <= j < i && FateOf(ctx, states, bs[j]).Succeeds?
  }

  lemma SteadyAtItsTurn(ctx: Context, states: States, bs: seq<Binding>)
    requires bs != [] && DistinctSinks(multiset(bs)) && !LostToPrune(ctx, states, bs, |bs| - 1)
    ensures var front, b := bs[..|bs| - 1], bs[|bs| - 1];
            Steady(ctx, PrepareAll(ctx, Start(ctx, states), front), Jobs(ctx, Start(ctx, states), front), b)
  {
    var front, b := bs[..|bs| - 1], bs[|bs| - 1];
    var p, jobs := PrepareAll(ctx, Start(ctx, states), front), Jobs(ctx, Start(ctx, states), front);
    LastIsNew(bs);
    PrepareAllFrame(ctx, states, front, b);
    PrepareOne(ctx, states, p, b);
    if FateOf(ctx, states, b).Skipped? && Stale(states[KeyOf(ctx, b)], ctx.now) {
      forall x | x in jobs ensures x.exportError.Some? {
        PrepareAllFates(ctx, states, front, x);
        var j :| 0 <= j < |front| && front[j] == x;
        assert bs[j] == x;
      }
    }
  }

  lemma {:induction false} SequentialAgrees(ctx: Context, states: States, bs: seq<Binding>)
    requires DistinctSinks(multiset(bs)) && forall i :: 0 <= i < |bs| ==> !LostToPrune(ctx, states, bs, i)
    ensures Sequential(ctx, Start(ctx, states), bs) == Pass(ctx, states, bs, Jobs(ctx, Start(ctx, states), bs))
  {
    if bs != [] {
      var t := Start(ctx, states);
      var front, b := bs[..|bs| - 1], bs[|bs| - 1];
      LastIsNew(bs);
      forall i | 0 <= i < |front| ensures !LostToPrune(ctx, states, front, i) { FrontLoses(ctx, states, bs, i); }
      SequentialAgrees(ctx, states, front);
      SteadyAtItsTurn(ctx, states, bs);
      InlineStep(ctx, PrepareAll(ctx, t, front), Jobs(ctx, t, front), b);
    }
  }

  lemma FrontLoses(ctx: Context, states: States, bs: seq<Binding>, i: nat)
    requires i < |bs| - 1
    ensures LostToPrune(ctx, states, bs[..|bs| - 1], i) ==> LostToPrune(ctx, states, bs, i)
  {
    var front := bs[..|bs| - 1];
    assert forall j :: 0 <= j <= i ==> front[j] == bs[j];
  }

  /******* Otherwise the two differ *******/

  /** The loop has done nothing to b's sink, except perhaps prune its state. */
  ghost predicate OnlyPrunes(ctx: Context, states: States, t: Tally, b: Binding) {
    var k := KeyOf(ctx, b);
    Untouched(t, b.sink) && (k in t.states ==> k in states && t.states[k] == states[k])
  }

  lemma InlineKeepsUntouched(ctx: Context, t: Tally, b: Binding, sink: string)
    requires b.sink != sink
    ensures Untouched(t, sink) ==> Untouched(Inline(ctx, t, b), sink)
    ensures sink !in t.debounced ==> sink !in Inline(ctx, t, b).debounced
  {
    if Untouched(t, sink) { PrepareKeepsUntouched(ctx, t, b, sink); }
  }

  /** Inline work on b leaves another key's state alone or prunes it; a successful export prunes every
      state past its TTL. */
  lemma InlineStates(ctx: Context, t: Tally, b: Binding, k: string)
    requires k != KeyOf(ctx, b)
    ensures var r := Inline(ctx, t, b).states;
            && (k in r ==> k in t.states && r[k] == t.states[k])
            && (k in r && NeedsExport(ctx, t, b) && b.exportError.None? ==> !Stale(r[k], ctx.now))
  {
    var p := Prepare(ctx, t, b);
    assert k in p.states ==> k in t.states && p.states[k] == t.states[k];
  }

  lemma InlineFrame(ctx: Context, states: States, t: Tally, b: Binding, other: Binding)
    requires b.sink != other.sink && OnlyPrunes(ctx, states, t, other)
    ensures OnlyPrunes(ctx, states, Inline(ctx, t, b), other)
    ensures NotStale(ctx, t, other) ==> NotStale(ctx, Inline(ctx, t, b), other)
    ensures NeedsExport(ctx, t, b) && b.exportError.None? ==> NotStale(ctx, Inline(ctx, t, b), other)
  {
    KeysApart(ctx.invKey, b.sink, other.sink);
    InlineKeepsUntouched(ctx, t, b, other.sink);
    InlineStates(ctx, t, b, KeyOf(ctx, other));
  }

  lemma SucceedsInline(ctx: Context, states: States, t: Tally, b: Binding)
    requires OnlyPrunes(ctx, states, t, b) && FateOf(ctx, states, b).Succeeds?
    ensures NeedsExport(ctx, t, b) && b.exportError.None?
  {
  }

  ghost predicate SomeSucceeds(ctx: Context, states: States, bs: seq<Binding>) {
    exists j :: 0 <= j < |bs| && FateOf(ctx, states, bs[j]).Succeeds?
  }

  lemma SucceedsEarlier(ctx: Context, states: States, bs: seq<Binding>)
    requires bs != [] && SomeSucceeds(ctx, states, bs)
    ensures FateOf(ctx, states, bs[|bs| - 1]).Succeeds? || SomeSucceeds(ctx, states, bs[..|bs| - 1])
  {
    var j :| 0 <= j < |bs| && FateOf(ctx, states, bs[j]).Succeeds?;
    if j < |bs| - 1 { assert bs[..|bs| - 1][j] == bs[j]; }
  }

  /** Once a binding has exported inline, no state past its TTL is left. */
  lemma {:induction false} SequentialFrame(ctx: Context, states: States, bs: seq<Binding>, b: Binding)
    requires DistinctSinks(multiset(bs)) && forall x :: x in bs ==> x.sink != b.sink
    ensures OnlyPrunes(ctx, states, Sequential(ctx, Start(ctx, states), bs), b)
    ensures SomeSucceeds(ctx, states, bs) ==> NotStale(ctx, Sequential(ctx, Start(ctx, states), bs), b)
  {
    if bs != [] {
      var front, last := bs[..|bs| - 1], bs[|bs| - 1];
      var t := Sequential(ctx, Start(ctx, states), front);
      LastIsNew(bs);
      SequentialFrame(ctx, states, front, b);
      SequentialFrame(ctx, states, front, last);
      InlineFrame(ctx, states, t, last, b);
      if SomeSucceeds(ctx, states, bs) { SucceedsEarlier(ctx, states, bs); }
      if FateOf(ctx, states, last).Succeeds? { SucceedsInline(ctx, states, t, last); }
    }
  }

  lemma LostIsExported(ctx: Context, states: States, t: Tally, b: Binding)
    requires OnlyPrunes(ctx, states, t, b) && NotStale(ctx, t, b)
    requires FateOf(ctx, states, b).Skipped? && Stale(states[KeyOf(ctx, b)], ctx.now)
    ensures b.sink !in Inline(ctx, t, b).debounced
  {
  }

  lemma LostAtItsTurn(ctx: Context, states: States, bs: seq<Binding>, i: nat)
    requires DistinctSinks(multiset(bs)) && LostToPrune(ctx, states, bs, i)
    ensures bs[i].sink !in Inline(ctx, Sequential(ctx, Start(ctx, states), bs[..i]), bs[i]).debounced
  {
    PrefixDistinct(bs, i);
    var j :| 0 <= j < i && FateOf(ctx, states, bs[j]).Succeeds?;
    assert bs[..i][j] == bs[j] && SomeSucceeds(ctx, states, bs[..i]);
    SequentialFrame(ctx, states, bs[..i], bs[i]);
    LostIsExported(ctx, states, Sequential(ctx, Start(ctx, states), bs[..i]), bs[i]);
  }

  /** From its turn on, such a binding is not among the debounced. */
  lemma {:induction false} LostIsNotDebounced(ctx: Context, states: States, bs: seq<Binding>, i: nat, n: nat)
    requires DistinctSinks(multiset(bs)) && LostToPrune(ctx, states, bs, i) && i < n <= |bs|
    ensures bs[i].sink !in Sequential(ctx, Start(ctx, states), bs[..n]).debounced
  {
    var front := bs[..n - 1];
    var t := Sequential(ctx, Start(ctx, states), front);
    SequentialStep(ctx, Start(ctx, states), bs, n);
    PrefixDistinct(bs, n - 1);
    if n == i + 1 {
      LostAtItsTurn(ctx, states, bs, i);
    } else {
      LostIsNotDebounced(ctx, states, bs, i, n - 1);
      assert front[i] == bs[i] && bs[i] in front;
      InlineKeepsUntouched(ctx, t, bs[n - 1], bs[i].sink);
    }
  }

  lemma SequentialStep(ctx: Context, t: Tally, bs: seq<Binding>, n: nat)
    requires 0 < n <= |bs|
    ensures Sequential(ctx, t, bs[..n]) == Inline(ctx, Sequential(ctx, t, bs[..n - 1]), bs[n - 1])
  {
    assert bs[..n][..n - 1] == bs[..n - 1];
  }

  lemma PrefixDistinct(bs: seq<Binding>, n: nat)
    requires DistinctSinks(multiset(bs)) && n < |bs|
    ensures DistinctSinks(multiset(bs[..n])) && forall x :: x in bs[..n] ==> x.sink != bs[n].sink
    decreases |bs|
  {
    LastIsNew(bs);
    var front := bs[..|bs| - 1];
    if n < |front| {
      PrefixDistinct(front, n);
      assert front[..n] == bs[..n] && front[n] == bs[n];
    }
  }

  /** The inline loop ends exactly as the concurrent pass does, in whatever order that finishes, if and
      only if no binding is lost to a prune. */
  lemma SequentialAgreesExactly(ctx: Context, states: States, bs: seq<Binding>, order: seq<Binding>)
    requires DistinctSinks(multiset(bs)) && CompletionOrder(ctx, states, bs, order)
    ensures Sequential(ctx, Start(ctx, states), bs) == Pass(ctx, states, bs, order) <==>
            forall i :: 0 <= i < |bs| ==> !LostToPrune(ctx, states, bs, i)
  {
    OrderIndependent(ctx, states, bs, order, Jobs(ctx, Start(ctx, states), bs));
    if i :| 0 <= i < |bs| && LostToPrune(ctx, states, bs, i) {
      LostIsNotDebounced(ctx, states, bs, i, |bs|);
      assert bs[..|bs|] == bs;
      EachBindingGetsItsFate(ctx, states, bs, order, bs[i]);
    } else {
      SequentialAgrees(ctx, states, bs);
    }
  }

  /** A 0s sink whose state is past its TTL, behind a sink that exports: the concurrent pass skips it,
      the inline loop exports it again. */
  lemma SequentialCanDiffer(ctx: Context, a: Binding, b: Binding) returns (states: States)
    requires a.sink != b.sink && a.plan.Ready? && a.exportError.None? && b.plan.Ready? && b.plan.interval == 0
    requires ctx.now > COALESCE_STATE_TTL + 1
    ensures var bs := [a, b];
            Sequential(ctx, Start(ctx, states), bs) != Pass(ctx, states, bs, Jobs(ctx, Start(ctx, states), bs))
  {
    KeysApart(ctx.invKey, a.sink, b.sink);
    states := map[KeyOf(ctx, b) := SinkState(InputsOf(ctx, b), 1, 0)];
    var bs := [a, b];
    assert multiset(bs) == multiset{a, b};
    assert FateOf(ctx, states, bs[0]).Succeeds?;
    assert LostToPrune(ctx, states, bs, 1);
    SequentialAgreesExactly(ctx, states, bs, Jobs(ctx, Start(ctx, states), bs));
  }
}
