/** The per-sink debounce tracker: a pruned map that must decide as an unbounded history would.
    Times and durations are nanoseconds; 0 is Go's zero time. */
module CoalesceTracker {
  import opened Options
  import opened Strings

  type Time = int
  type Duration = int

  const SECOND: Duration := 1_000_000_000
  const MAX_EXPORT_INTERVAL: Duration := 24 * 3600 * SECOND
  const ZERO_INTERVAL_WATCHDOG: Duration := 30 * SECOND
  const COALESCE_STATE_TTL: Duration := 2 * MAX_EXPORT_INTERVAL

  datatype Identity = Identity(inventoryUID: string, sinkUID: string, sinkGeneration: int)

  /** Everything a debounce baseline is compared on. */
  datatype Inputs = Inputs(identity: Identity, generation: int, checksum: string, requestedAt: string)

  datatype SinkState = SinkState(inputs: Inputs, lastExport: Time, lastSkipped: Time)

  type States = map<string, SinkState>

  function Key(invKey: string, sinkName: string): string {
    invKey + NUL + sinkName
  }

  /** Names without NUL give different bindings different keys. */
  lemma KeyInjective(inv: string, sink: string, inv': string, sink': string)
    requires NulFree(inv) && NulFree(inv') && Key(inv, sink) == Key(inv', sink')
    ensures inv == inv' && sink == sink'
  {
    NulSplit(inv, sink, inv', sink');
  }

  lemma KeysApart(inv: string, a: string, b: string)
    requires a != b
    ensures Key(inv, a) != Key(inv, b)
  {
    assert Key(inv, a)[|inv| + 1..] == a && Key(inv, b)[|inv| + 1..] == b;
  }

  function Latest(a: Time, b: Time): Time {
    if b > a then b else a
  }

  /******* The operations on a map value *******/

  predicate Skips(s: States, k: string, inputs: Inputs, interval: Duration, now: Time) {
    && k in s && s[k].inputs == inputs
    && (interval == 0 || (s[k].lastExport != 0 && now - s[k].lastExport < interval))
  }

  function AfterConsult(s: States, k: string, inputs: Inputs, interval: Duration, now: Time): States {
    if Skips(s, k, inputs, interval, now) && interval == 0 then s[k := s[k].(lastSkipped := now)] else s
  }

  predicate Stale(st: SinkState, now: Time) {
    now - Latest(st.lastExport, st.lastSkipped) > COALESCE_STATE_TTL
  }

  function Pruned(s: States, now: Time): States {
    map k | k in s && !Stale(s[k], now) :: s[k]
  }

  function AfterRecord(s: States, k: string, inputs: Inputs, now: Time): States {
    var p := Pruned(s, now);
    p[k := SinkState(inputs, now, if k in p then p[k].lastSkipped else 0)]
  }

  function AfterForget(s: States, k: string): States {
    s - {k}
  }

  function DueIn(last: Option<Time>, interval: Duration, now: Time): Duration {
    if interval == 0 then ZERO_INTERVAL_WATCHDOG
    else if last.None? || last.value == 0 then SECOND
    else if interval - (now - last.value) < SECOND then SECOND
    else interval - (now - last.value)
  }

  function NextDue(s: States, k: string, interval: Duration, now: Time): Duration {
    DueIn(if k in s then Some(s[k].lastExport) else None, interval, now)
  }

  /******* The tracker object *******/

  class PerSinkCoalesceTracker {
    var states: States

    constructor ()
      ensures states == map[]
    {
      states := map[];
    }

    method ShouldSkip(invKey: string, sinkName: string, inputs: Inputs, interval: Duration, now: Time)
      returns (skip: bool)
      modifies this
      ensures skip == Skips(old(states), Key(invKey, sinkName), inputs, interval, now)
      ensures states == AfterConsult(old(states), Key(invKey, sinkName), inputs, interval, now)
    {
      var k := Key(invKey, sinkName);
      if k !in states || states[k].inputs.generation != inputs.generation {
        return false;
      }
      if states[k].inputs.identity != inputs.identity {
        return false;
      }
      if states[k].inputs.checksum != inputs.checksum {
        return false;
      }
      if states[k].inputs.requestedAt != inputs.requestedAt {
        return false;
      }
      if interval == 0 {
        states := states[k := states[k].(lastSkipped := now)];
        return true;
      }
      if states[k].lastExport == 0 {
        return false;
      }
      skip := now - states[k].lastExport < interval;
    }

    method PruneStaleLocked(now: Time)
      modifies this
      ensures states == Pruned(old(states), now)
    {
      var keys := states.Keys;
      while keys != {}
        invariant keys <= states.Keys <= old(states).Keys
        invariant forall k :: k in old(states) ==> (k in states <==> k in keys || !Stale(old(states)[k], now))
        invariant forall k :: k in states ==> states[k] == old(states)[k]
        decreases keys
      {
        var k :| k in keys;
        keys := keys - {k};
        if now - Latest(states[k].lastExport, states[k].lastSkipped) > COALESCE_STATE_TTL {
          states := states - {k};
        }
      }
    }

    method Record(invKey: string, sinkName: string, inputs: Inputs, now: Time)
      modifies this
      ensures states == AfterRecord(old(states), Key(invKey, sinkName), inputs, now)
    {
      PruneStaleLocked(now);
      var k := Key(invKey, sinkName);
      var lastSkipped := if k in states then states[k].lastSkipped else 0;
      states := states[k := SinkState(inputs, now, lastSkipped)];
    }

    method Forget(invKey: string, sinkName: string)
      modifies this
      ensures states == AfterForget(old(states), Key(invKey, sinkName))
    {
      states := states - {Key(invKey, sinkName)};
    }

    method NextDueFor(invKey: string, sinkName: string, interval: Duration, now: Time) returns (due: Duration)
      ensures due == NextDue(states, Key(invKey, sinkName), interval, now)
    {
      if interval == 0 {
        return ZERO_INTERVAL_WATCHDOG;
      }
      var k := Key(invKey, sinkName);
      if k !in states || states[k].lastExport == 0 {
        return SECOND;
      }
      due := interval - (now - states[k].lastExport);
      if due < SECOND {
        due := SECOND;
      }
    }
  }

  /******* The unbounded history *******/

  datatype Call =
    | Recorded(key: string, inputs: Inputs, now: Time)
    | Forgot(key: string)
    | Consulted(key: string, inputs: Inputs, interval: Duration, now: Time)

  function Apply(s: States, c: Call): States {
    match c
    case Recorded(k, inputs, now) => AfterRecord(s, k, inputs, now)
    case Forgot(k) => AfterForget(s, k)
    case Consulted(k, inputs, interval, now) => AfterConsult(s, k, inputs, interval, now)
  }

  function Replay(h: seq<Call>): States {
    if h == [] then map[] else Apply(Replay(h[..|h| - 1]), h[|h| - 1])
  }

  datatype Export = Export(inputs: Inputs, time: Time)

  /** The last record or forget of k, if it is a record. */
  function LastExport(h: seq<Call>, k: string): Option<Export> {
    if h == [] then None
    else match h[|h| - 1]
         case Recorded(key, inputs, now) =>
           if key == k then Some(Export(inputs, now)) else LastExport(h[..|h| - 1], k)
         case Forgot(key) => if key == k then None else LastExport(h[..|h| - 1], k)
         case Consulted(_, _, _, _) => LastExport(h[..|h| - 1], k)
  }

  /** The decision an unbounded history makes. */
  predicate HistorySkips(h: seq<Call>, k: string, inputs: Inputs, interval: Duration, now: Time) {
    var last := LastExport(h, k);
    last.Some? && last.value.inputs == inputs &&
    (interval == 0 || (last.value.time != 0 && now - last.value.time < interval))
  }

  /** When the history wants the binding looked at again: when its interval ends, but not within a second. */
  function HistoryDue(h: seq<Call>, k: string, interval: Duration, now: Time): Duration {
    var last := LastExport(h, k);
    var left := if last.Some? && last.value.time != 0 then last.value.time + interval - now else 0;
    if interval == 0 then 30 * SECOND else if left > SECOND then left else SECOND
  }

  /** Every prune so far ran on a clock at most `lag` ahead of now. */
  ghost predicate ClocksAgree(h: seq<Call>, now: Time, lag: Duration) {
    forall i :: 0 <= i < |h| && h[i].Recorded? ==> h[i].now - now <= lag
  }

  /** What the tracker holds is the history's last export; what it lost, a prune found past the TTL. */
  lemma {:induction false} ReplayTracksHistory(h: seq<Call>, k: string)
    ensures k in Replay(h) ==> LastExport(h, k) == Some(Export(Replay(h)[k].inputs, Replay(h)[k].lastExport))
    ensures k !in Replay(h) && LastExport(h, k).Some? ==>
      exists i :: 0 <= i < |h| && h[i].Recorded? && h[i].now - LastExport(h, k).value.time > COALESCE_STATE_TTL
  {
    if h != [] {
      var front, c := h[..|h| - 1], h[|h| - 1];
      ReplayTracksHistory(front, k);
      if k !in Replay(h) && LastExport(h, k).Some? {
        if k in Replay(front) {
          assert c.Recorded? && Stale(Replay(front)[k], c.now);
        } else {
          var i :| 0 <= i < |front| && front[i].Recorded? &&
                   front[i].now - LastExport(front, k).value.time > COALESCE_STATE_TTL;
          assert h[i] == front[i];
        }
      }
    }
  }

  /** For every interval up to the maximum, skip and requeue decisions are those of the unbounded
      history, even when the caller's clock lags a prune's by TTL - MAX_EXPORT_INTERVAL. */
  lemma {:induction false} TrackerRefinesHistory(h: seq<Call>, k: string, inputs: Inputs, interval: Duration, now: Time)
    requires 0 < interval <= MAX_EXPORT_INTERVAL
    requires ClocksAgree(h, now, COALESCE_STATE_TTL - MAX_EXPORT_INTERVAL + 1)
    ensures Skips(Replay(h), k, inputs, interval, now) <==> HistorySkips(h, k, inputs, interval, now)
    ensures NextDue(Replay(h), k, interval, now) == HistoryDue(h, k, interval, now)
  {
    ReplayTracksHistory(h, k);
  }

  /** The next-due delay of a skipped binding ends at the first instant at which it is no longer skipped,
      except that it is never under a second. */
  lemma DueIsFirstExport(s: States, k: string, inputs: Inputs, interval: Duration, now: Time, wait: Duration)
    requires interval > 0 && Skips(s, k, inputs, interval, now) && wait >= 0
    ensures var due := NextDue(s, k, interval, now);
      && due >= SECOND
      && (wait >= due ==> !Skips(s, k, inputs, interval, now + wait))
      && (due > SECOND && wait < due ==> Skips(s, k, inputs, interval, now + wait))
  {
  }

  /** One nanosecond more of clock lag and the two can disagree. */
  lemma ClockBoundIsTight()
    ensures exists h, k, inputs, now ::
      ClocksAgree(h, now, COALESCE_STATE_TTL - MAX_EXPORT_INTERVAL + 2) &&
      HistorySkips(h, k, inputs, MAX_EXPORT_INTERVAL, now) && !Skips(Replay(h), k, inputs, MAX_EXPORT_INTERVAL, now)
  {
    var inputs := Inputs(Identity("i", "s", 1), 1, "c", "");
    var a, b := Recorded("a", inputs, 1), Recorded("b", inputs, 2 + COALESCE_STATE_TTL);
    var now := MAX_EXPORT_INTERVAL;
    var h := [a, b];
    assert h[..1] == [a] && [a][..0] == [];
    assert Replay([a]) == Apply(map[], a);
    assert Replay(h) == Apply(Replay([a]), b);
    assert LastExport([a], "a") == Some(Export(inputs, 1));
    assert "a" != "b";
    assert LastExport(h, "a") == LastExport([a], "a");
    assert HistorySkips(h, "a", inputs, MAX_EXPORT_INTERVAL, now);
    assert ClocksAgree(h, now, COALESCE_STATE_TTL - MAX_EXPORT_INTERVAL + 2);
    assert !Skips(Replay(h), "a", inputs, MAX_EXPORT_INTERVAL, now);
  }

  /** A record keeps a binding exactly when it was exported or skipped within the TTL, as it was, and
      remembers of its own only the last skip, if that binding was itself still kept. */
  lemma RecordKeepsExactly(s: States, k: string, inputs: Inputs, now: Time, j: string)
    ensures var r := AfterRecord(s, k, inputs, now);
      var kept := j in s && (now - s[j].lastExport <= COALESCE_STATE_TTL || now - s[j].lastSkipped <= COALESCE_STATE_TTL);
      if j != k then (j in r <==> kept) && (kept ==> r[j] == s[j])
      else j in r && r[j] == SinkState(inputs, now, if kept then s[j].lastSkipped else 0)
  {
  }

  /******* Interval zero *******/

  /** When k was last recorded, or last skipped under interval zero. */
  function LastActivity(h: seq<Call>, k: string): Option<Time> {
    if h == [] then None
    else
      var front := h[..|h| - 1];
      match h[|h| - 1]
      case Recorded(key, _, now) => if key == k then Some(now) else LastActivity(front, k)
      case Forgot(key) => if key == k then None else LastActivity(front, k)
      case Consulted(key, inputs, interval, now) =>
        if key == k && interval == 0 && HistorySkips(front, k, inputs, 0, now) then Some(now) else LastActivity(front, k)
  }

  /** No prune came more than a TTL after k's last activity. */
  ghost predicate KeptAlive(h: seq<Call>, k: string) {
    forall i :: 0 <= i < |h| && h[i].Recorded? && LastActivity(h[..i], k).Some? ==>
      h[i].now - LastActivity(h[..i], k).value <= COALESCE_STATE_TTL
  }

  lemma {:induction false} AliveIsNeverLost(h: seq<Call>, k: string)
    requires KeptAlive(h, k)
    ensures LastExport(h, k).Some? <==> LastActivity(h, k).Some?
    ensures LastExport(h, k).Some? <==> k in Replay(h)
    ensures k in Replay(h) ==> Latest(Replay(h)[k].lastExport, Replay(h)[k].lastSkipped) >= LastActivity(h, k).value
  {
    if h != [] {
      var n := |h| - 1;
      var front := h[..n];
      assert KeptAlive(front, k) by {
        forall i | 0 <= i < |front| ensures front[..i] == h[..i] && front[i] == h[i] {}
      }
      AliveIsNeverLost(front, k);
      ReplayTracksHistory(front, k);
    }
  }

  /** Under interval zero a skip always rests on a matching last export; and a binding with activity
      at least once per TTL is decided exactly as the history says. */
  lemma ZeroIntervalSound(h: seq<Call>, k: string, inputs: Inputs, now: Time)
    ensures Skips(Replay(h), k, inputs, 0, now) ==> HistorySkips(h, k, inputs, 0, now)
    ensures KeptAlive(h, k) ==> (Skips(Replay(h), k, inputs, 0, now) <==> HistorySkips(h, k, inputs, 0, now))
  {
    ReplayTracksHistory(h, k);
    if KeptAlive(h, k) { AliveIsNeverLost(h, k); }
  }
}
