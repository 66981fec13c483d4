/** What an export pass guarantees whatever order its jobs finish in. */
module ExportTheorems {
  import opened Options
  import opened CoalesceTracker
  import opened ExportPass

  /******* Conservation *******/

  lemma {:induction false} PreparedCount(ctx: Context, t: Tally, bs: seq<Binding>)
    ensures var p := PrepareAll(ctx, t, bs);
            && p.exported == t.exported
            && |p.debounced| + |p.failures| + |Jobs(ctx, t, bs)| == |t.debounced| + |t.failures| + |bs|
  {
    if bs != [] { PreparedCount(ctx, t, bs[..|bs| - 1]); }
  }

  lemma {:induction false} CompletedCount(ctx: Context, t: Tally, order: seq<Binding>)
    requires AllReady(order)
    ensures var r := CompleteAll(ctx, t, order);
            && r.debounced == t.debounced
            && |r.exported| + |r.failures| == |t.exported| + |t.failures| + |order|
    decreases |order|
  {
    if order != [] { CompletedCount(ctx, Complete(ctx, t, order[0]), order[1..]); }
  }

  /** exported + debounced + failed is the number of bindings. */
  lemma CountsCoverBindings(ctx: Context, states: States, bs: seq<Binding>, order: seq<Binding>)
    requires CompletionOrder(ctx, states, bs, order)
    ensures var r := Pass(ctx, states, bs, order);
            |r.exported| + |r.debounced| + |r.failures| == |bs|
  {
    var t := Start(ctx, states);
    PreparedCount(ctx, t, bs);
    CompletedCount(ctx, PrepareAll(ctx, t, bs), order);
    assert |order| == |multiset(order)| == |Jobs(ctx, t, bs)|;
  }

  /******* Order independence *******/

  /** No two bindings share an export key. */
  ghost predicate DistinctSinks(bs: multiset<Binding>) {
    forall b :: b in bs ==> bs[b] == 1 && forall b' :: b' in bs && b'.sink == b.sink ==> b' == b
  }

  lemma RecordsCommute(s: States, j: string, a: Inputs, k: string, b: Inputs, now: Time)
    requires j != k
    ensures AfterRecord(AfterRecord(s, j, a, now), k, b, now) == AfterRecord(AfterRecord(s, k, b, now), j, a, now)
  {
  }

  lemma RecordForgetCommute(s: States, j: string, a: Inputs, k: string, now: Time)
    requires j != k
    ensures AfterForget(AfterRecord(s, j, a, now), k) == AfterRecord(AfterForget(s, k), j, a, now)
  {
  }

  lemma StatesCommute(ctx: Context, s: States, a: Binding, b: Binding)
    requires a.plan.Ready? && b.plan.Ready? && KeyOf(ctx, a) != KeyOf(ctx, b)
    ensures StatesAfter(ctx, StatesAfter(ctx, s, a), b) == StatesAfter(ctx, StatesAfter(ctx, s, b), a)
  {
    var j, k := KeyOf(ctx, a), KeyOf(ctx, b);
    if a.exportError.Some? {
      if b.exportError.None? { RecordForgetCommute(s, k, InputsOf(ctx, b), j, ctx.now); }
    } else if b.exportError.Some? {
      RecordForgetCommute(s, j, InputsOf(ctx, a), k, ctx.now);
    } else {
      RecordsCommute(s, j, InputsOf(ctx, a), k, InputsOf(ctx, b), ctx.now);
    }
  }

  lemma ExportsCommute(exports: SinkExports, a: Binding, b: Binding)
    requires a.plan.Ready? && b.plan.Ready? && a.sink != b.sink
    ensures ExportsAfter(ExportsAfter(exports, a), b) == ExportsAfter(ExportsAfter(exports, b), a)
  {
  }

  lemma RequeueCommutes(requeue: Duration, a: Binding, b: Binding)
    requires a.plan.Ready? && b.plan.Ready?
    ensures RequeueAfter(RequeueAfter(requeue, a), b) == RequeueAfter(RequeueAfter(requeue, b), a)
  {
  }

  lemma SumCommutes<T>(s: multiset<T>, a: multiset<T>, b: multiset<T>)
    ensures s + a + b == s + b + a
  {
  }

  lemma CompleteCommutes(ctx: Context, t: Tally, a: Binding, b: Binding)
    requires a.plan.Ready? && b.plan.Ready? && a.sink != b.sink
    ensures Complete(ctx, Complete(ctx, t, a), b) == Complete(ctx, Complete(ctx, t, b), a)
  {
    KeysApart(ctx.invKey, a.sink, b.sink);
    StatesCommute(ctx, t.states, a, b);
    ExportsCommute(t.exports, a, b);
    RequeueCommutes(t.requeue, a, b);
    SumCommutes(t.exported, ExportedBy(a), ExportedBy(b));
    SumCommutes(t.failures, FailedBy(a), FailedBy(b));
  }

  lemma {:induction false} MoveToFront(ctx: Context, t: Tally, p: seq<Binding>, b: Binding, q: seq<Binding>)
    requires AllReady(p + [b] + q) && forall x :: x in p ==> x.sink != b.sink
    ensures AllReady([b] + (p + q))
    ensures CompleteAll(ctx, t, p + [b] + q) == CompleteAll(ctx, t, [b] + (p + q))
    decreases |p|
  {
    assert AllReady([b] + (p + q)) by {
      forall x | x in [b] + (p + q) ensures x in p + [b] + q {}
    }
    if p == [] {
      assert p + [b] + q == [b] + (p + q);
    } else {
      var a, rest := p[0], p[1..];
      assert a in p && a in p + [b] + q && b in p + [b] + q;
      assert (p + [b] + q)[1..] == rest + [b] + q;
      assert ([b] + (p + q))[1..] == p + q && (p + q)[1..] == rest + q;
      assert ([b] + (rest + q))[1..] == rest + q;
      var t' := Complete(ctx, t, a);
      MoveToFront(ctx, t', rest, b, q);
      CompleteCommutes(ctx, t, a, b);
    }
  }

  lemma Pick(order: seq<Binding>, b: Binding) returns (i: nat)
    requires DistinctSinks(multiset(order)) && b in order
    ensures i < |order| && order[i] == b && order == order[..i] + [b] + order[i + 1..]
    ensures forall x :: x in order[..i] + order[i + 1..] ==> x.sink != b.sink
  {
    i :| 0 <= i < |order| && order[i] == b;
    assert order == order[..i] + [b] + order[i + 1..];
    var others := order[..i] + order[i + 1..];
    assert multiset(order) == multiset(others) + multiset{b};
    forall x | x in others ensures x.sink != b.sink {
      assert x in multiset(others) && x in multiset(order) && b in multiset(order);
    }
  }

  lemma {:induction false} CompletionOrderIrrelevant(ctx: Context, t: Tally, one: seq<Binding>, two: seq<Binding>)
    requires AllReady(one) && AllReady(two) && multiset(one) == multiset(two) && DistinctSinks(multiset(one))
    ensures CompleteAll(ctx, t, one) == CompleteAll(ctx, t, two)
    decreases |one|
  {
    if one == [] {
      assert |multiset(two)| == 0;
      assert two == [];
    } else {
      var b := one[0];
      assert one == [b] + one[1..];
      assert b in multiset(one);
      var i := Pick(two, b);
      var rest := two[..i] + two[i + 1..];
      forall x | x in two[..i] ensures x.sink != b.sink { assert x in rest; }
      MoveToFront(ctx, t, two[..i], b, two[i + 1..]);
      TakeOut(two, i);
      assert ([b] + rest)[1..] == rest;
      assert multiset(rest) == multiset(one[1..]);
      assert multiset(one) == multiset{b} + multiset(one[1..]);
      DistinctShrinks(multiset(one), b);
      CompletionOrderIrrelevant(ctx, Complete(ctx, t, b), one[1..], rest);
    }
  }

  lemma DistinctShrinks(bs: multiset<Binding>, b: Binding)
    requires DistinctSinks(bs)
    ensures DistinctSinks(bs - multiset{b})
  {
  }

  lemma {:induction false} JobsAreBindings(ctx: Context, t: Tally, bs: seq<Binding>)
    ensures multiset(Jobs(ctx, t, bs)) <= multiset(bs)
  {
    if bs != [] {
      var front := bs[..|bs| - 1];
      JobsAreBindings(ctx, t, front);
      assert bs == front + [bs[|bs| - 1]];
    }
  }

  /** Counts, requeue delay, per-sink entries and debounce state do not depend on the order in which
      the concurrent jobs finish. */
  lemma OrderIndependent(ctx: Context, states: States, bs: seq<Binding>, one: seq<Binding>, two: seq<Binding>)
    requires DistinctSinks(multiset(bs))
    requires CompletionOrder(ctx, states, bs, one) && CompletionOrder(ctx, states, bs, two)
    ensures Pass(ctx, states, bs, one) == Pass(ctx, states, bs, two)
  {
    var t := Start(ctx, states);
    JobsAreBindings(ctx, t, bs);
    CompletionOrderIrrelevant(ctx, PrepareAll(ctx, t, bs), one, two);
  }

  /******* What happens to each binding *******/

  /** The fate of one binding, read off the state before the pass and nothing else. */
  datatype Fate = Fails(kind: ErrorClass) | Skipped | Succeeds

  function FateOf(ctx: Context, states: States, b: Binding): Fate {
    match b.plan
    case Unresolved(kind) => Fails(kind)
    case Unpartitionable => Fails(Terminal)
    case Ready(_, _, checksum, interval) =>
      if Skips(states, KeyOf(ctx, b), InputsOf(ctx, b), interval, ctx.now) then Skipped
      else if b.exportError.Some? then Fails(b.exportError.value)
      else Succeeds
  }

  function EntryOf(ctx: Context, b: Binding, fate: Fate): SinkExport {
    match fate
    case Fails(_) => Seed(ctx, b).(synced := Failed)
    case Skipped => Seed(ctx, b).(synced := Debounced)
    case Succeeds => SinkExport(Some(b.exportTime), if b.plan.Ready? then b.plan.checksum else "", Exported)
  }

  predicate Untouched(t: Tally, sink: string) {
    sink !in t.exported && sink !in t.debounced && forall f :: f in t.failures ==> f.sink != sink
  }

  /** The tally shows exactly the fate for b. */
  ghost predicate Shows(ctx: Context, t: Tally, b: Binding, fate: Fate) {
    && b.sink in t.exports && t.exports[b.sink] == EntryOf(ctx, b, fate)
    && (b.sink in t.exported <==> fate.Succeeds?)
    && (b.sink in t.debounced <==> fate.Skipped?)
    && (forall f :: f in t.failures && f.sink == b.sink ==> fate == Fails(f.kind))
    && (fate.Fails? ==> Failure(b.sink, fate.kind) in t.failures)
  }

  /** b's fate is settled in the sequential loop. */
  predicate SettledEarly(ctx: Context, states: States, b: Binding) {
    !b.plan.Ready? || Skips(states, KeyOf(ctx, b), InputsOf(ctx, b), b.plan.interval, ctx.now)
  }

  ghost predicate Prepared(ctx: Context, states: States, t: Tally, b: Binding) {
    if SettledEarly(ctx, states, b) then Shows(ctx, t, b, FateOf(ctx, states, b))
    else Untouched(t, b.sink) && b.sink in t.exports && t.exports[b.sink] == Seed(ctx, b)
  }

  /** The pass has not changed b's debounce state. */
  ghost predicate SameState(ctx: Context, states: States, t: Tally, b: Binding) {
    var k := KeyOf(ctx, b);
    (k in states <==> k in t.states) && (k in states ==> states[k] == t.states[k])
  }

  /** Preparing one binding leaves another's state, counts and entry alone. */
  lemma PrepareKeepsState(ctx: Context, states: States, t: Tally, b: Binding, other: Binding)
    requires b.sink != other.sink && SameState(ctx, states, t, other)
    ensures SameState(ctx, states, Prepare(ctx, t, b), other)
  {
    KeysApart(ctx.invKey, b.sink, other.sink);
  }

  lemma PrepareKeepsUntouched(ctx: Context, t: Tally, b: Binding, sink: string)
    requires b.sink != sink && Untouched(t, sink)
    ensures Untouched(Prepare(ctx, t, b), sink)
  {
  }

  lemma PrepareKeepsPrepared(ctx: Context, states: States, t: Tally, b: Binding, other: Binding)
    requires b.sink != other.sink && Prepared(ctx, states, t, other)
    ensures Prepared(ctx, states, Prepare(ctx, t, b), other)
  {
  }

  lemma PrepareOne(ctx: Context, states: States, t: Tally, b: Binding)
    requires Untouched(t, b.sink) && SameState(ctx, states, t, b)
    ensures Prepared(ctx, states, Prepare(ctx, t, b), b)
    ensures NeedsExport(ctx, t, b) <==> !SettledEarly(ctx, states, b)
  {
  }

  lemma {:induction false} PrepareAllFrame(ctx: Context, states: States, bs: seq<Binding>, b: Binding)
    requires forall x :: x in bs ==> x.sink != b.sink
    ensures var t := PrepareAll(ctx, Start(ctx, states), bs);
            Untouched(t, b.sink) && SameState(ctx, states, t, b)
  {
    if bs != [] {
      var front, last := bs[..|bs| - 1], bs[|bs| - 1];
      PrepareAllFrame(ctx, states, front, b);
      var t := PrepareAll(ctx, Start(ctx, states), front);
      PrepareKeepsState(ctx, states, t, last, b);
      PrepareKeepsUntouched(ctx, t, last, b.sink);
    }
  }

  lemma {:induction false} PrepareAllFates(ctx: Context, states: States, bs: seq<Binding>, b: Binding)
    requires DistinctSinks(multiset(bs)) && b in bs
    ensures Prepared(ctx, states, PrepareAll(ctx, Start(ctx, states), bs), b)
    ensures b in Jobs(ctx, Start(ctx, states), bs) <==> !SettledEarly(ctx, states, b)
  {
    var front, last := bs[..|bs| - 1], bs[|bs| - 1];
    var t := PrepareAll(ctx, Start(ctx, states), front);
    LastIsNew(bs);
    if b == last {
      PrepareAllFrame(ctx, states, front, b);
      PrepareOne(ctx, states, t, b);
    } else {
      PrepareAllFates(ctx, states, front, b);
      PrepareKeepsPrepared(ctx, states, t, last, b);
    }
  }

  lemma LastIsNew(bs: seq<Binding>)
    requires bs != [] && DistinctSinks(multiset(bs))
    ensures forall x :: x in bs[..|bs| - 1] ==> x.sink != bs[|bs| - 1].sink
    ensures DistinctSinks(multiset(bs[..|bs| - 1]))
  {
    var front, last := bs[..|bs| - 1], bs[|bs| - 1];
    assert bs == front + [last];
    assert multiset(front) == multiset(bs) - multiset{last};
    DistinctShrinks(multiset(bs), last);
    forall x | x in front ensures x.sink != last.sink {
      assert x in multiset(front) && x in multiset(bs) && last in multiset(bs);
      assert multiset(bs)[last] == multiset(front)[last] + 1;
    }
  }

  lemma CompleteFrame(ctx: Context, t: Tally, b: Binding, other: Binding)
    requires b.plan.Ready? && b.sink != other.sink
    ensures var r := Complete(ctx, t, b);
            && (Untouched(t, other.sink) ==> Untouched(r, other.sink))
            && (forall fate :: Shows(ctx, t, other, fate) ==> Shows(ctx, r, other, fate))
            && (other.sink in t.exports ==> other.sink in r.exports && r.exports[other.sink] == t.exports[other.sink])
  {
  }

  lemma CompleteOne(ctx: Context, states: States, t: Tally, b: Binding)
    requires b.plan.Ready? && !SettledEarly(ctx, states, b) && Prepared(ctx, states, t, b)
    ensures Shows(ctx, Complete(ctx, t, b), b, FateOf(ctx, states, b))
  {
  }

  lemma {:induction false} ShowsKept(ctx: Context, t: Tally, order: seq<Binding>, b: Binding, fate: Fate)
    requires AllReady(order) && Shows(ctx, t, b, fate) && forall x :: x in order ==> x.sink != b.sink
    ensures Shows(ctx, CompleteAll(ctx, t, order), b, fate)
    decreases |order|
  {
    if order != [] {
      CompleteFrame(ctx, t, order[0], b);
      ShowsKept(ctx, Complete(ctx, t, order[0]), order[1..], b, fate);
    }
  }

  /** Wherever b's job comes in the order, it may as well come first. */
  lemma JobFirst(ctx: Context, t: Tally, order: seq<Binding>, b: Binding) returns (others: seq<Binding>)
    requires AllReady(order) && DistinctSinks(multiset(order)) && b in order
    ensures AllReady(others) && forall x :: x in others ==> x.sink != b.sink
    ensures CompleteAll(ctx, t, order) == CompleteAll(ctx, Complete(ctx, t, b), others)
  {
    var i := Pick(order, b);
    others := order[..i] + order[i + 1..];
    forall x | x in order[..i] ensures x.sink != b.sink { assert x in others; }
    MoveToFront(ctx, t, order[..i], b, order[i + 1..]);
    assert ([b] + others)[1..] == others;
    forall x | x in others ensures x in order {}
  }

  lemma CompleteAllFates(ctx: Context, states: States, t: Tally, order: seq<Binding>, b: Binding)
    requires AllReady(order) && DistinctSinks(multiset(order)) && Prepared(ctx, states, t, b)
    requires b in order <==> !SettledEarly(ctx, states, b)
    requires forall x :: x in order ==> x == b || x.sink != b.sink
    ensures Shows(ctx, CompleteAll(ctx, t, order), b, FateOf(ctx, states, b))
  {
    var fate := FateOf(ctx, states, b);
    if b in order {
      var others := JobFirst(ctx, t, order, b);
      CompleteOne(ctx, states, t, b);
      ShowsKept(ctx, Complete(ctx, t, b), others, b, fate);
    } else {
      ShowsKept(ctx, t, order, b, fate);
    }
  }

  /** Each binding's entry and count are those of its own fate, whatever the other sinks do. */
  lemma EachBindingGetsItsFate(ctx: Context, states: States, bs: seq<Binding>, order: seq<Binding>, b: Binding)
    requires DistinctSinks(multiset(bs)) && CompletionOrder(ctx, states, bs, order) && b in bs
    ensures Shows(ctx, Pass(ctx, states, bs, order), b, FateOf(ctx, states, b))
  {
    var t := Start(ctx, states);
    PrepareAllFates(ctx, states, bs, b);
    OrderOfBindings(ctx, states, bs, order, b);
    CompleteAllFates(ctx, states, PrepareAll(ctx, t, bs), order, b);
  }

  /******* What the tracker remembers *******/

  /** A failure leaves no baseline, a skip the one it rested on, an export a new one. */
  ghost predicate Baseline(ctx: Context, before: States, states: States, b: Binding, fate: Fate) {
    var k := KeyOf(ctx, b);
    match fate
    case Fails(_) => k !in states
    case Skipped =>
      && b.plan.Ready? && k in states && states[k].inputs == InputsOf(ctx, b) && !Stale(states[k], ctx.now)
      && k in before && states[k].lastExport == before[k].lastExport
    case Succeeds => b.plan.Ready? && k in states && states[k].inputs == InputsOf(ctx, b) && states[k].lastExport == ctx.now
  }

  ghost predicate IntervalOk(b: Binding) {
    b.plan.Ready? ==> b.plan.interval <= MAX_EXPORT_INTERVAL
  }

  lemma PrepareKeepsBaseline(ctx: Context, states: States, t: Tally, b: Binding, other: Binding, fate: Fate)
    requires b.sink != other.sink && Baseline(ctx, states, t.states, other, fate)
    ensures Baseline(ctx, states, Prepare(ctx, t, b).states, other, fate)
  {
    KeysApart(ctx.invKey, b.sink, other.sink);
  }

  lemma PrepareBaseline(ctx: Context, states: States, t: Tally, b: Binding)
    requires SameState(ctx, states, t, b) && SettledEarly(ctx, states, b) && IntervalOk(b)
    ensures Baseline(ctx, states, Prepare(ctx, t, b).states, b, FateOf(ctx, states, b))
  {
  }

  lemma {:induction false} PrepareAllBaselines(ctx: Context, states: States, bs: seq<Binding>, b: Binding)
    requires DistinctSinks(multiset(bs)) && b in bs && SettledEarly(ctx, states, b) && IntervalOk(b)
    ensures Baseline(ctx, states, PrepareAll(ctx, Start(ctx, states), bs).states, b, FateOf(ctx, states, b))
  {
    var front, last := bs[..|bs| - 1], bs[|bs| - 1];
    var t := PrepareAll(ctx, Start(ctx, states), front);
    LastIsNew(bs);
    if b == last {
      PrepareAllFrame(ctx, states, front, b);
      PrepareBaseline(ctx, states, t, b);
    } else {
      PrepareAllBaselines(ctx, states, front, b);
      PrepareKeepsBaseline(ctx, states, t, last, b, FateOf(ctx, states, b));
    }
  }

  lemma CompleteKeepsBaseline(ctx: Context, states: States, s: States, done: Binding, b: Binding, fate: Fate)
    requires done.plan.Ready? && done.sink != b.sink && Baseline(ctx, states, s, b, fate)
    ensures Baseline(ctx, states, StatesAfter(ctx, s, done), b, fate)
  {
    KeysApart(ctx.invKey, done.sink, b.sink);
  }

  lemma CompleteBaseline(ctx: Context, states: States, s: States, b: Binding)
    requires b.plan.Ready? && !SettledEarly(ctx, states, b)
    ensures Baseline(ctx, states, StatesAfter(ctx, s, b), b, FateOf(ctx, states, b))
  {
  }

  lemma {:induction false} CompleteAllBaselines(ctx: Context, states: States, t: Tally, order: seq<Binding>, b: Binding)
    requires AllReady(order) && forall x :: x in order ==> x == b || x.sink != b.sink
    requires b in order || Baseline(ctx, states, t.states, b, FateOf(ctx, states, b))
    requires b in order ==> !SettledEarly(ctx, states, b)
    ensures Baseline(ctx, states, CompleteAll(ctx, t, order).states, b, FateOf(ctx, states, b))
    decreases |order|
  {
    if order != [] {
      var x := order[0];
      assert order == [x] + order[1..];
      if x == b { CompleteBaseline(ctx, states, t.states, b); }
      else if Baseline(ctx, states, t.states, b, FateOf(ctx, states, b)) {
        CompleteKeepsBaseline(ctx, states, t.states, x, b, FateOf(ctx, states, b));
      }
      CompleteAllBaselines(ctx, states, Complete(ctx, t, x), order[1..], b);
    }
  }

  /** After the pass, whatever the other sinks do and in whatever order jobs finish, the tracker has
      for each binding exactly what its own fate calls for. */
  lemma EachBindingGetsItsBaseline(ctx: Context, states: States, bs: seq<Binding>, order: seq<Binding>, b: Binding)
    requires DistinctSinks(multiset(bs)) && CompletionOrder(ctx, states, bs, order) && b in bs && IntervalOk(b)
    ensures Baseline(ctx, states, Pass(ctx, states, bs, order).states, b, FateOf(ctx, states, b))
  {
    var t := Start(ctx, states);
    PrepareAllFates(ctx, states, bs, b);
    if SettledEarly(ctx, states, b) { PrepareAllBaselines(ctx, states, bs, b); }
    OrderOfBindings(ctx, states, bs, order, b);
    CompleteAllBaselines(ctx, states, PrepareAll(ctx, t, bs), order, b);
  }

  lemma OrderOfBindings(ctx: Context, states: States, bs: seq<Binding>, order: seq<Binding>, b: Binding)
    requires DistinctSinks(multiset(bs)) && CompletionOrder(ctx, states, bs, order) && b in bs
    ensures forall x :: x in order ==> x in bs && (x == b || x.sink != b.sink)
    ensures b in order <==> b in Jobs(ctx, Start(ctx, states), bs)
    ensures DistinctSinks(multiset(order))
  {
    var jobs := Jobs(ctx, Start(ctx, states), bs);
    JobsAreBindings(ctx, Start(ctx, states), bs);
    forall x | x in order ensures x in bs && (x == b || x.sink != b.sink) {
      assert x in multiset(order) && x in multiset(bs) && b in multiset(bs);
    }
    assert b in order <==> b in multiset(order);
    assert b in jobs <==> b in multiset(jobs);
  }

  /******* When the inventory is reconciled again *******/

  /** The requeue delay is set and no longer than d. */
  predicate WakesBy(t: Tally, d: Duration) {
    0 < t.requeue <= d
  }

  /** When a binding wants to be looked at again. */
  function DueOf(ctx: Context, states: States, b: Binding): Option<Duration> {
    match FateOf(ctx, states, b)
    case Fails(_) => None
    case Skipped => if b.plan.Ready? then Some(NextDue(states, KeyOf(ctx, b), b.plan.interval, ctx.now)) else None
    case Succeeds => if b.plan.Ready? then Some(RequeueFor(b.plan.interval)) else None
  }

  lemma PrepareWakes(ctx: Context, t: Tally, b: Binding, d: Duration)
    requires t.requeue >= 0
    ensures Prepare(ctx, t, b).requeue >= 0
    ensures WakesBy(t, d) ==> WakesBy(Prepare(ctx, t, b), d)
    ensures b.plan.Ready? && !NeedsExport(ctx, t, b) ==>
              WakesBy(Prepare(ctx, t, b), NextDue(t.states, KeyOf(ctx, b), b.plan.interval, ctx.now))
  {
  }

  lemma {:induction false} PrepareAllNonNegative(ctx: Context, t: Tally, bs: seq<Binding>)
    requires t.requeue >= 0
    ensures PrepareAll(ctx, t, bs).requeue >= 0
  {
    if bs != [] {
      PrepareAllNonNegative(ctx, t, bs[..|bs| - 1]);
      PrepareWakes(ctx, PrepareAll(ctx, t, bs[..|bs| - 1]), bs[|bs| - 1], 0);
    }
  }

  lemma {:induction false} PrepareAllWakes(ctx: Context, states: States, bs: seq<Binding>, b: Binding, d: Duration)
    requires DistinctSinks(multiset(bs)) && ctx.defaultInterval >= 0 && b in bs
    requires FateOf(ctx, states, b).Skipped? && DueOf(ctx, states, b) == Some(d)
    ensures WakesBy(PrepareAll(ctx, Start(ctx, states), bs), d)
  {
    var front, last := bs[..|bs| - 1], bs[|bs| - 1];
    var t := PrepareAll(ctx, Start(ctx, states), front);
    LastIsNew(bs);
    PrepareAllNonNegative(ctx, Start(ctx, states), front);
    PrepareWakes(ctx, t, last, d);
    if b == last {
      PrepareAllFrame(ctx, states, front, b);
    } else {
      PrepareAllWakes(ctx, states, front, b, d);
    }
  }

  lemma CompleteWakes(ctx: Context, t: Tally, b: Binding, d: Duration)
    requires b.plan.Ready? && t.requeue >= 0
    ensures Complete(ctx, t, b).requeue >= 0
    ensures WakesBy(t, d) ==> WakesBy(Complete(ctx, t, b), d)
    ensures b.exportError.None? ==> WakesBy(Complete(ctx, t, b), RequeueFor(b.plan.interval))
  {
  }

  lemma {:induction false} CompleteAllWakes(ctx: Context, t: Tally, order: seq<Binding>, d: Duration)
    requires AllReady(order) && t.requeue >= 0
    requires WakesBy(t, d) || exists b :: b in order && b.exportError.None? && RequeueFor(b.plan.interval) == d
    ensures WakesBy(CompleteAll(ctx, t, order), d)
    decreases |order|
  {
    if order != [] {
      assert order == [order[0]] + order[1..];
      CompleteWakes(ctx, t, order[0], d);
      CompleteAllWakes(ctx, Complete(ctx, t, order[0]), order[1..], d);
    }
  }

  lemma WakesByDue(ctx: Context, states: States, bs: seq<Binding>, order: seq<Binding>, b: Binding)
    requires DistinctSinks(multiset(bs)) && CompletionOrder(ctx, states, bs, order) && b in bs && ctx.defaultInterval >= 0
    requires DueOf(ctx, states, b).Some?
    ensures WakesBy(Pass(ctx, states, bs, order), DueOf(ctx, states, b).value)
  {
    PrepareAllFates(ctx, states, bs, b);
    PrepareAllNonNegative(ctx, Start(ctx, states), bs);
    if FateOf(ctx, states, b).Skipped? { PrepareAllWakes(ctx, states, bs, b, DueOf(ctx, states, b).value); }
    OrderOfBindings(ctx, states, bs, order, b);
    CompleteAllWakes(ctx, PrepareAll(ctx, Start(ctx, states), bs), order, DueOf(ctx, states, b).value);
  }

  /** The inventory is reconciled again before any exported or debounced sink has to wait: at every
      instant before that, the tracker would still skip the sink, unless the delay is a second or
      less. A 0s sink is looked at within 30 seconds. */
  lemma NoSinkIsLate(ctx: Context, states: States, bs: seq<Binding>, order: seq<Binding>, b: Binding, wait: Duration)
    requires DistinctSinks(multiset(bs)) && CompletionOrder(ctx, states, bs, order) && b in bs
    requires ctx.defaultInterval >= 0 && ctx.now != 0
    requires b.plan.Ready? && 0 <= b.plan.interval <= MAX_EXPORT_INTERVAL && !FateOf(ctx, states, b).Fails?
    ensures var r := Pass(ctx, states, bs, order);
      && r.requeue > 0
      && (b.plan.interval == 0 ==> r.requeue <= 30 * SECOND)
      && (b.plan.interval > 0 && 0 <= wait < r.requeue && r.requeue > SECOND ==>
            Skips(r.states, KeyOf(ctx, b), InputsOf(ctx, b), b.plan.interval, ctx.now + wait))
  {
    WakesByDue(ctx, states, bs, order, b);
    EachBindingGetsItsBaseline(ctx, states, bs, order, b);
    if b.plan.interval > 0 && wait >= 0 && FateOf(ctx, states, b).Skipped? {
      DueIsFirstExport(states, KeyOf(ctx, b), InputsOf(ctx, b), b.plan.interval, ctx.now, wait);
    }
  }

  /** The delay is the inventory's own interval or the time some sink is due in, nothing else. */
  ghost predicate FromDues(ctx: Context, states: States, bs: seq<Binding>, d: Duration) {
    d == ctx.defaultInterval || exists b :: b in bs && DueOf(ctx, states, b) == Some(d)
  }

  lemma PrepareRequeue(ctx: Context, t: Tally, b: Binding)
    ensures var r := Prepare(ctx, t, b).requeue;
      || r == t.requeue
      || (b.plan.Ready? && !NeedsExport(ctx, t, b) && r == NextDue(t.states, KeyOf(ctx, b), b.plan.interval, ctx.now))
  {
  }

  lemma {:induction false} PrepareFromDues(ctx: Context, states: States, bs: seq<Binding>)
    requires DistinctSinks(multiset(bs))
    ensures FromDues(ctx, states, bs, PrepareAll(ctx, Start(ctx, states), bs).requeue)
  {
    if bs != [] {
      var front, last := bs[..|bs| - 1], bs[|bs| - 1];
      var t := PrepareAll(ctx, Start(ctx, states), front);
      assert bs == front + [last];
      LastIsNew(bs);
      PrepareFromDues(ctx, states, front);
      PrepareAllFrame(ctx, states, front, last);
      PrepareOne(ctx, states, t, last);
      PrepareRequeue(ctx, t, last);
      assert last in bs;
    }
  }

  lemma {:induction false} CompleteFromDues(ctx: Context, states: States, bs: seq<Binding>, t: Tally, order: seq<Binding>)
    requires AllReady(order) && FromDues(ctx, states, bs, t.requeue)
    requires forall b :: b in order ==> b in bs && !SettledEarly(ctx, states, b)
    ensures FromDues(ctx, states, bs, CompleteAll(ctx, t, order).requeue)
    decreases |order|
  {
    if order != [] {
      var b := order[0];
      assert b in order;
      assert b.exportError.None? ==> DueOf(ctx, states, b) == Some(RequeueFor(b.plan.interval));
      CompleteFromDues(ctx, states, bs, Complete(ctx, t, b), order[1..]);
    }
  }

  lemma RequeueIsSomeDue(ctx: Context, states: States, bs: seq<Binding>, order: seq<Binding>)
    requires DistinctSinks(multiset(bs)) && CompletionOrder(ctx, states, bs, order)
    ensures FromDues(ctx, states, bs, Pass(ctx, states, bs, order).requeue)
  {
    PrepareFromDues(ctx, states, bs);
    forall b | b in order ensures b in bs && !SettledEarly(ctx, states, b) {
      assert b in multiset(order) && b in multiset(Jobs(ctx, Start(ctx, states), bs));
      PrepareAllFates(ctx, states, bs, b);
    }
    CompleteFromDues(ctx, states, bs, PrepareAll(ctx, Start(ctx, states), bs), order);
  }

  /******* The error the pass reports *******/

  ghost predicate AllTerminal(failures: multiset<Failure>) {
    forall f :: f in failures ==> f.kind == Terminal
  }

  /** The aggregate is terminal exactly when every failure is; several failures that are not all
      terminal are transient; and none of it depends on the order the failures came in. */
  lemma AggregateTerminalExactly(failures: seq<Failure>)
    ensures AggregateClass(Classes(failures)).None? <==> failures == []
    ensures AggregateClass(Classes(failures)) == Some(Terminal) <==> failures != [] && AllTerminal(multiset(failures))
    ensures |failures| > 1 && !AllTerminal(multiset(failures)) ==> AggregateClass(Classes(failures)) == Some(Transient)
    ensures |failures| == 1 ==> AggregateClass(Classes(failures)) == Some(failures[0].kind)
  {
    var kinds := Classes(failures);
    if AllTerminal(multiset(failures)) {
      forall i | 0 <= i < |kinds| ensures kinds[i] == Terminal {
        assert failures[i] in multiset(failures);
      }
    } else {
      var f :| f in multiset(failures) && f.kind != Terminal;
      assert f in failures;
      var i :| 0 <= i < |failures| && failures[i] == f;
      assert kinds[i] != Terminal;
    }
  }

  lemma AggregateOrderIrrelevant(one: seq<Failure>, two: seq<Failure>)
    requires multiset(one) == multiset(two)
    ensures AggregateClass(Classes(one)) == AggregateClass(Classes(two))
  {
    assert |one| == |multiset(one)| == |two|;
    AggregateTerminalExactly(one);
    AggregateTerminalExactly(two);
    if |one| == 1 {
      assert one[0] in multiset(one) && two[0] in multiset(two);
      assert multiset(one) == multiset{one[0]} && multiset(two) == multiset{two[0]};
    }
  }

  /** A pass is a total failure exactly when there are bindings and each of them failed. */
  lemma TotalFailureExactly(ctx: Context, states: States, bs: seq<Binding>, order: seq<Binding>, failures: seq<Failure>)
    requires DistinctSinks(multiset(bs)) && CompletionOrder(ctx, states, bs, order)
    requires multiset(failures) == Pass(ctx, states, bs, order).failures
    ensures var r := Pass(ctx, states, bs, order);
            IsTotalFailure(AggregateClass(Classes(failures)), |r.exported|, |r.debounced|) <==>
            bs != [] && forall b :: b in bs ==> FateOf(ctx, states, b).Fails?
  {
    var r := Pass(ctx, states, bs, order);
    CountsCoverBindings(ctx, states, bs, order);
    AggregateTerminalExactly(failures);
    assert |failures| == |multiset(failures)| == |r.failures|;
    forall b | b in bs ensures Shows(ctx, r, b, FateOf(ctx, states, b)) {
      EachBindingGetsItsFate(ctx, states, bs, order, b);
    }
    if bs != [] && forall b :: b in bs ==> FateOf(ctx, states, b).Fails? {
      SinksAreBound(ctx, states, bs, order);
      assert r.exported == multiset{} by { if x :| x in r.exported {} }
      assert r.debounced == multiset{} by { if x :| x in r.debounced {} }
    }
  }

  ghost predicate Bound(bs: seq<Binding>, sink: string) {
    exists b :: b in bs && b.sink == sink
  }

  ghost predicate OnlyBound(bs: seq<Binding>, t: Tally) {
    forall x :: x in t.exported || x in t.debounced ==> Bound(bs, x)
  }

  lemma {:induction false} PrepareOnlyBound(ctx: Context, t: Tally, bs: seq<Binding>, n: nat)
    requires OnlyBound(bs, t) && n <= |bs|
    ensures OnlyBound(bs, PrepareAll(ctx, t, bs[..n]))
  {
    if n > 0 {
      PrepareOnlyBound(ctx, t, bs, n - 1);
      assert bs[..n][..n - 1] == bs[..n - 1] && bs[..n][n - 1] == bs[n - 1];
      assert bs[n - 1] in bs;
    }
  }

  lemma {:induction false} CompleteOnlyBound(ctx: Context, t: Tally, bs: seq<Binding>, order: seq<Binding>)
    requires AllReady(order) && OnlyBound(bs, t) && forall b :: b in order ==> b in bs
    ensures OnlyBound(bs, CompleteAll(ctx, t, order))
    decreases |order|
  {
    if order != [] {
      assert order[0] in order;
      CompleteOnlyBound(ctx, Complete(ctx, t, order[0]), bs, order[1..]);
    }
  }

  lemma SinksAreBound(ctx: Context, states: States, bs: seq<Binding>, order: seq<Binding>)
    requires CompletionOrder(ctx, states, bs, order)
    ensures OnlyBound(bs, Pass(ctx, states, bs, order))
  {
    var t := Start(ctx, states);
    PrepareOnlyBound(ctx, t, bs, |bs|);
    assert bs[..|bs|] == bs;
    forall b | b in order ensures b in bs {
      assert b in multiset(order) && b in multiset(Jobs(ctx, t, bs));
    }
    CompleteOnlyBound(ctx, PrepareAll(ctx, t, bs), bs, order);
  }

  /******* What counts as unchanged *******/

  /** A binding recorded by one pass is skipped by a later one exactly when the object's UID, generation
      and export request, the sink's UID and generation and the checksum are all the same and the
      interval has not run out since. */
  lemma SkippedIffUnchanged(states: States, was: Context, ctx: Context, b: Binding, b': Binding)
    requires was.invKey == ctx.invKey && b.sink == b'.sink && b.plan.Ready? && b'.plan.Ready?
    ensures Skips(AfterRecord(states, KeyOf(was, b), InputsOf(was, b), was.now), KeyOf(ctx, b'), InputsOf(ctx, b'), b'.plan.interval, ctx.now) <==>
      && was.uid == ctx.uid && was.generation == ctx.generation && was.requestedAt == ctx.requestedAt
      && b.plan.sinkUID == b'.plan.sinkUID && b.plan.sinkGeneration == b'.plan.sinkGeneration
      && b.plan.checksum == b'.plan.checksum
      && (b'.plan.interval == 0 || (was.now != 0 && ctx.now < was.now + b'.plan.interval))
  {
  }
}
