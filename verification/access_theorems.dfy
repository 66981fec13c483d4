/** What the access cache guarantees after any run of lookups and stores. */
module AccessTheorems {
  import opened Options
  import opened AccessCache

  datatype Config = Config(capacity: int, ttl: int)

  datatype Call = Look(key: string, now: Time) | Put(key: string, allowed: bool, now: Time)

  function RowFor(g: Config, c: Call): Row
    requires c.Put?
  {
    Row(c.key, c.allowed, c.now + g.ttl)
  }

  function Apply(g: Config, rows: Rows, c: Call): Rows {
    match c
    case Look(k, now) => AfterLookup(rows, k, now)
    case Put(_, _, _) => AfterStore(rows, RowFor(g, c), g.capacity)
  }

  function Replay(g: Config, h: seq<Call>): Rows {
    if h == [] then [] else Apply(g, Replay(g, h[..|h| - 1]), h[|h| - 1])
  }

  /** The last store of k. */
  function LastPut(h: seq<Call>, k: string): Option<Call> {
    if h == [] then None
    else if h[|h| - 1].Put? && h[|h| - 1].key == k then Some(h[|h| - 1])
    else LastPut(h[..|h| - 1], k)
  }

  /** A store touches its key; a lookup touches it only when it hits. */
  predicate Touches(rows: Rows, c: Call, k: string) {
    c.key == k && (c.Put? || Hit(rows, k, c.now).Some?)
  }

  /** When k was last touched, counting calls from 1; 0 if never. */
  function LastTouch(g: Config, h: seq<Call>, k: string): (n: nat)
    ensures n <= |h|
  {
    if h == [] then 0
    else if Touches(Replay(g, h[..|h| - 1]), h[|h| - 1], k) then |h|
    else LastTouch(g, h[..|h| - 1], k)
  }

  /******* Order *******/

  ghost predicate Ordered(rows: Rows, stamp: string -> nat) {
    forall i, j :: 0 <= i < j < |rows| ==> stamp(rows[i].key) > stamp(rows[j].key)
  }

  lemma OrderedUnique(rows: Rows, stamp: string -> nat)
    requires Ordered(rows, stamp)
    ensures Unique(rows)
  {
  }

  lemma DropOrdered(rows: Rows, i: nat, stamp: string -> nat)
    requires Ordered(rows, stamp) && i < |rows|
    ensures Ordered(DropAt(rows, i), stamp)
    ensures forall j :: 0 <= j < |rows| - 1 ==> DropAt(rows, i)[j] in rows && DropAt(rows, i)[j].key != rows[i].key
  {
    var d := DropAt(rows, i);
    forall j | 0 <= j < |rows| - 1 ensures d[j] == rows[if j < i then j else j + 1] {}
    OrderedUnique(rows, stamp);
  }

  /** Putting a freshly touched row in front of rows for other keys keeps the order. */
  lemma TouchOrdered(row: Row, rows: Rows, stamp: string -> nat, stamp': string -> nat)
    requires Ordered(rows, stamp)
    requires forall r :: r in rows ==> stamp'(r.key) == stamp(r.key) && stamp'(r.key) < stamp'(row.key)
    ensures Ordered([row] + rows, stamp')
  {
    var s := [row] + rows;
    forall i, j | 0 <= i < j < |s| ensures stamp'(s[i].key) > stamp'(s[j].key) {
      assert s[j] == rows[j - 1] && s[j] in rows;
      if i > 0 { assert s[i] == rows[i - 1] && s[i] in rows; }
    }
  }

  function StampOf(g: Config, h: seq<Call>): string -> nat {
    k => LastTouch(g, h, k)
  }

  ghost predicate SizeOk(g: Config, rows: Rows) {
    g.capacity > 0 ==> |rows| <= g.capacity
  }

  /** Each row is its key's last store. */
  ghost predicate Latest(g: Config, h: seq<Call>, rows: Rows) {
    forall r :: r in rows ==>
      var p := LastPut(h, r.key);
      p.Some? && p.value.Put? && r.allowed == p.value.allowed && r.expiresAt == p.value.now + g.ttl
  }

  lemma LookupOrdered(rows: Rows, k: string, now: Time, stamp: string -> nat, stamp': string -> nat)
    requires Ordered(rows, stamp) && forall x :: x != k ==> stamp'(x) == stamp(x)
    requires if Hit(rows, k, now).Some? then forall x :: x != k ==> stamp'(x) < stamp'(k) else stamp'(k) == stamp(k)
    ensures Ordered(AfterLookup(rows, k, now), stamp')
  {
    if Cached(rows, k) {
      var i := IndexOf(rows, k);
      DropOrdered(rows, i, stamp);
      if Hit(rows, k, now).Some? { TouchOrdered(rows[i], DropAt(rows, i), stamp, stamp'); }
    }
  }

  lemma StoreOrdered(rows: Rows, row: Row, capacity: int, stamp: string -> nat, stamp': string -> nat)
    requires Ordered(rows, stamp) && forall x :: x != row.key ==> stamp'(x) == stamp(x) && stamp'(x) < stamp'(row.key)
    ensures Ordered(AfterStore(rows, row, capacity), stamp')
  {
    if Cached(rows, row.key) {
      var i := IndexOf(rows, row.key);
      DropOrdered(rows, i, stamp);
      TouchOrdered(row, DropAt(rows, i), stamp, stamp');
    } else {
      TouchOrdered(row, rows, stamp, stamp');
    }
  }

  lemma TouchStep(g: Config, h: seq<Call>, c: Call, x: string)
    ensures LastTouch(g, h + [c], x) == if Touches(Replay(g, h), c, x) then |h| + 1 else LastTouch(g, h, x)
    ensures Replay(g, h + [c]) == Apply(g, Replay(g, h), c)
  {
    assert (h + [c])[..|h|] == h;
  }

  lemma CallOrdered(g: Config, rows: Rows, c: Call, n: nat, stamp: string -> nat, stamp': string -> nat)
    requires Ordered(rows, stamp) && forall x :: stamp(x) < n
    requires forall x :: stamp'(x) == if Touches(rows, c, x) then n else stamp(x)
    ensures Ordered(Apply(g, rows, c), stamp')
  {
    assert forall x :: x != c.key ==> stamp'(x) == stamp(x) && stamp'(x) < n;
    if c.Look? {
      LookupOrdered(rows, c.key, c.now, stamp, stamp');
    } else {
      assert stamp'(c.key) == n;
      StoreOrdered(rows, Row(c.key, c.allowed, c.now + g.ttl), g.capacity, stamp, stamp');
    }
  }

  lemma OrderStep(g: Config, h: seq<Call>, c: Call)
    requires Ordered(Replay(g, h), StampOf(g, h))
    ensures Ordered(Replay(g, h + [c]), StampOf(g, h + [c]))
  {
    forall x ensures StampOf(g, h + [c])(x) == if Touches(Replay(g, h), c, x) then |h| + 1 else StampOf(g, h)(x) {
      TouchStep(g, h, c, x);
    }
    TouchStep(g, h, c, c.key);
    CallOrdered(g, Replay(g, h), c, |h| + 1, StampOf(g, h), StampOf(g, h + [c]));
  }

  /** A call keeps rows, except that a store replaces its key's row. */
  lemma CallMembers(g: Config, rows: Rows, c: Call, r: Row)
    requires Unique(rows) && r in Apply(g, rows, c)
    ensures if c.Put? && r.key == c.key then r == Row(c.key, c.allowed, c.now + g.ttl) else r in rows
  {
  }

  lemma LatestStep(g: Config, h: seq<Call>, c: Call)
    requires Unique(Replay(g, h)) && Latest(g, h, Replay(g, h))
    ensures Latest(g, h + [c], Replay(g, h + [c]))
  {
    var h', rows := h + [c], Replay(g, h);
    assert h'[..|h|] == h;
    forall r | r in Replay(g, h')
      ensures var p := LastPut(h', r.key);
              p.Some? && p.value.Put? && r.allowed == p.value.allowed && r.expiresAt == p.value.now + g.ttl
    {
      CallMembers(g, rows, c, r);
    }
  }

  /** After any run: recency order, hence unique keys; never above a positive capacity; and every row
      is the latest store of its key. */
  lemma {:induction false} ReplayInvariant(g: Config, h: seq<Call>)
    ensures Ordered(Replay(g, h), StampOf(g, h)) && Unique(Replay(g, h))
    ensures SizeOk(g, Replay(g, h)) && Latest(g, h, Replay(g, h))
  {
    if h != [] {
      var front, c := h[..|h| - 1], h[|h| - 1];
      ReplayInvariant(g, front);
      assert h == front + [c];
      OrderStep(g, front, c);
      LatestStep(g, front, c);
    }
    OrderedUnique(Replay(g, h), StampOf(g, h));
  }

  /** A hit returns the latest stored decision of the key, still younger than the TTL. */
  lemma HitIsLatest(g: Config, h: seq<Call>, k: string, now: Time)
    requires Hit(Replay(g, h), k, now).Some?
    ensures var p := LastPut(h, k);
            && p.Some? && p.value.Put?
            && Hit(Replay(g, h), k, now) == Some(p.value.allowed) && now < p.value.now + g.ttl
  {
    ReplayInvariant(g, h);
    assert Replay(g, h)[IndexOf(Replay(g, h), k)] in Replay(g, h);
  }

  lemma MovedToFrontStays(rows: Rows, j: nat, row: Row, k: string)
    requires j < |rows| && row.key == rows[j].key && Cached(rows, k)
    ensures Cached(ToFront(rows, j, row), k)
  {
    var i := IndexOf(rows, k);
    var rows' := ToFront(rows, j, row);
    if rows[j].key == k {
      assert rows'[0].key == k;
    } else {
      assert rows'[if i < j then i + 1 else i] == rows[i];
    }
  }

  lemma PushedStays(rows: Rows, row: Row, capacity: int, i: nat)
    requires i < |rows|
    ensures i + 1 < |Bounded([row] + rows, capacity)| ==> Cached(Bounded([row] + rows, capacity), rows[i].key)
  {
    assert ([row] + rows)[i + 1] == rows[i];
  }

  /** Only a store of a new key into a full cache evicts, and it evicts the last row alone. */
  lemma EvictsLastRow(rows: Rows, row: Row, capacity: int, k: string)
    requires Unique(rows) && (capacity > 0 ==> |rows| <= capacity)
    requires Cached(rows, k) && !Cached(AfterStore(rows, row, capacity), k)
    ensures !Cached(rows, row.key) && |rows| == capacity && rows[|rows| - 1].key == k
    ensures forall i :: 0 <= i < |rows| - 1 ==> Cached(AfterStore(rows, row, capacity), rows[i].key)
  {
    if Cached(rows, row.key) { MovedToFrontStays(rows, IndexOf(rows, row.key), row, k); }
    var rows', i := AfterStore(rows, row, capacity), IndexOf(rows, k);
    PushedStays(rows, row, capacity, i);
    forall j | 0 <= j < |rows| - 1 ensures Cached(rows', rows[j].key) { assert rows'[j + 1] == rows[j]; }
  }

  /** What is known of the rows after a run, by name. */
  ghost predicate After(g: Config, h: seq<Call>, rows: Rows, stamp: string -> nat) {
    rows == Replay(g, h) && stamp == StampOf(g, h)
  }

  lemma AfterRun(g: Config, h: seq<Call>, rows: Rows, stamp: string -> nat)
    requires After(g, h, rows, stamp)
    ensures Ordered(rows, stamp) && Unique(rows) && SizeOk(g, rows)
    ensures forall k :: stamp(k) == LastTouch(g, h, k)
  {
    ReplayInvariant(g, h);
  }

  /** Only a store of a new key into a full cache evicts. */
  lemma EvictsOnlyWhenFull(g: Config, h: seq<Call>, rows: Rows, stamp: string -> nat, c: Call, k: string)
    requires After(g, h, rows, stamp) && Cached(rows, k)
    requires c.Put? && !Cached(AfterStore(rows, RowFor(g, c), g.capacity), k)
    ensures !Cached(rows, c.key) && |rows| == g.capacity
  {
    AfterRun(g, h, rows, stamp);
    EvictsLastRow(rows, RowFor(g, c), g.capacity, k);
  }

  /** An evicted key was the least recently touched one, and every other key stays. */
  lemma EvictsLeastRecent(g: Config, h: seq<Call>, rows: Rows, stamp: string -> nat, c: Call, k: string, x: string)
    requires After(g, h, rows, stamp) && Cached(rows, k) && Cached(rows, x) && x != k
    requires c.Put? && !Cached(AfterStore(rows, RowFor(g, c), g.capacity), k)
    ensures LastTouch(g, h, k) < LastTouch(g, h, x) && Cached(AfterStore(rows, RowFor(g, c), g.capacity), x)
  {
    AfterRun(g, h, rows, stamp);
    EvictsLastRow(rows, RowFor(g, c), g.capacity, k);
    LastIsLeast(rows, stamp, x);
  }

  lemma LastIsLeast(rows: Rows, stamp: string -> nat, x: string)
    requires Ordered(rows, stamp) && Cached(rows, x) && x != rows[|rows| - 1].key
    ensures stamp(rows[|rows| - 1].key) < stamp(x)
    ensures exists i :: 0 <= i < |rows| - 1 && rows[i].key == x
  {
    var j := IndexOf(rows, x);
    assert stamp(rows[j].key) > stamp(rows[|rows| - 1].key);
  }

  /** A lookup that hits brings its row to the front and keeps the others in order; one that misses leaves
      no row for its key, expired or not, and the others untouched. */
  lemma LookupExact(rows: Rows, k: string, now: Time)
    requires Unique(rows)
    ensures var r := AfterLookup(rows, k, now);
      if Hit(rows, k, now).Some? then exists i :: 0 <= i < |rows| && rows[i].key == k && now < rows[i].expiresAt &&
                                                  r == [rows[i]] + (rows[..i] + rows[i + 1..])
      else !Cached(r, k) && (!Cached(rows, k) ==> r == rows) &&
           (Cached(rows, k) ==> exists i :: 0 <= i < |rows| && rows[i].key == k && rows[i].expiresAt <= now &&
                                            r == rows[..i] + rows[i + 1..])
  {
    if Cached(rows, k) {
      var i := IndexOf(rows, k);
      assert rows[i].key == k;
    }
  }

  /******* Retention *******/

  /** Other keys touched since k was. */
  function Since(g: Config, h: seq<Call>, k: string): set<string> {
    if h == [] then {}
    else
      var front, c := h[..|h| - 1], h[|h| - 1];
      var rows := Replay(g, front);
      if Touches(rows, c, k) then {}
      else if Touches(rows, c, c.key) then Since(g, front, k) + {c.key}
      else Since(g, front, k)
  }

  /** Stored, and no lookup since has found it expired. */
  predicate Alive(g: Config, h: seq<Call>, k: string) {
    if h == [] then false
    else
      var front, c := h[..|h| - 1], h[|h| - 1];
      if c.key != k then Alive(g, front, k)
      else c.Put? || (Alive(g, front, k) && LastPut(front, k).Some? && LastPut(front, k).value.Put? &&
                      c.now < LastPut(front, k).value.now + g.ttl)
  }

  ghost predicate AheadIn(rows: Rows, k: string, keys: set<string>)
    requires Cached(rows, k)
  {
    forall i :: 0 <= i < IndexOf(rows, k) ==> rows[i].key in keys
  }

  /** Unique keys drawn from a set are at most as many as the set has. */
  lemma {:induction false} Pigeonhole(rows: Rows, n: nat, keys: set<string>)
    requires Unique(rows) && n <= |rows| && forall i :: 0 <= i < n ==> rows[i].key in keys
    ensures n <= |keys|
  {
    if n > 0 {
      Pigeonhole(rows, n - 1, keys - {rows[n - 1].key});
    }
  }

  lemma UniqueIndex(rows: Rows, i: nat)
    requires Unique(rows) && i < |rows|
    ensures Cached(rows, rows[i].key) && IndexOf(rows, rows[i].key) == i
  {
  }

  /** k is cached and only the given keys are ahead of it. */
  ghost predicate Within(rows: Rows, k: string, keys: set<string>) {
    Unique(rows) && Cached(rows, k) && AheadIn(rows, k, keys)
  }

  lemma WithinDrop(rows: Rows, j: nat, k: string, keys: set<string>)
    requires Within(rows, k, keys) && j < |rows| && rows[j].key != k
    ensures Within(DropAt(rows, j), k, keys)
    ensures forall i :: 0 <= i < |rows| - 1 ==> DropAt(rows, j)[i].key != rows[j].key
  {
    var d, i := DropAt(rows, j), IndexOf(rows, k);
    UniqueIndex(d, if i < j then i else i - 1);
  }

  lemma WithinPush(rows: Rows, row: Row, k: string, keys: set<string>)
    requires Within(rows, k, keys) && row.key != k && forall i :: 0 <= i < |rows| ==> rows[i].key != row.key
    ensures Within([row] + rows, k, keys + {row.key})
  {
    UniqueIndex([row] + rows, IndexOf(rows, k) + 1);
  }

  lemma WithinBound(rows: Rows, capacity: int, k: string, keys: set<string>)
    requires Within(rows, k, keys) && (capacity > 0 ==> |keys| < capacity)
    ensures Within(Bounded(rows, capacity), k, keys)
  {
    var i := IndexOf(rows, k);
    Pigeonhole(rows, i, keys);
    UniqueIndex(Bounded(rows, capacity), i);
  }

  lemma WithinLookup(rows: Rows, x: string, now: Time, k: string, keys: set<string>)
    requires Within(rows, k, keys) && x != k
    ensures Within(AfterLookup(rows, x, now), k, if Hit(rows, x, now).Some? then keys + {x} else keys)
  {
    if Cached(rows, x) {
      var j := IndexOf(rows, x);
      WithinDrop(rows, j, k, keys);
      WithinPush(DropAt(rows, j), rows[j], k, keys);
    }
  }

  lemma WithinStore(rows: Rows, row: Row, capacity: int, k: string, keys: set<string>)
    requires Within(rows, k, keys) && row.key != k && (capacity > 0 ==> |keys + {row.key}| < capacity)
    ensures Within(AfterStore(rows, row, capacity), k, keys + {row.key})
  {
    if Cached(rows, row.key) {
      var j := IndexOf(rows, row.key);
      WithinDrop(rows, j, k, keys);
      WithinPush(DropAt(rows, j), row, k, keys);
    } else {
      WithinPush(rows, row, k, keys);
      WithinBound([row] + rows, capacity, k, keys + {row.key});
    }
  }

  lemma WithinOther(g: Config, rows: Rows, c: Call, k: string, keys: set<string>)
    requires Within(rows, k, keys) && c.key != k
    requires var keys' := if Touches(rows, c, c.key) then keys + {c.key} else keys; g.capacity > 0 ==> |keys'| < g.capacity
    ensures Within(Apply(g, rows, c), k, if Touches(rows, c, c.key) then keys + {c.key} else keys)
  {
    match c
    case Look(x, now) => WithinLookup(rows, x, now, k, keys);
    case Put(x, allowed, now) => WithinStore(rows, Row(x, allowed, now + g.ttl), g.capacity, k, keys);
  }

  /** A stored key that no lookup has found expired stays cached, behind only keys touched since,
      while fewer than capacity other keys have been touched since it was. */
  lemma {:induction false} Retained(g: Config, h: seq<Call>, k: string)
    requires Alive(g, h, k) && (g.capacity > 0 ==> |Since(g, h, k)| < g.capacity)
    ensures Within(Replay(g, h), k, Since(g, h, k))
  {
    ReplayInvariant(g, h);
    var front, c := h[..|h| - 1], h[|h| - 1];
    var rows := Replay(g, front);
    if Touches(rows, c, k) {
      UniqueIndex(Replay(g, h), 0);
    } else {
      assert Since(g, front, k) <= Since(g, h, k);
      SubsetSize(Since(g, front, k), Since(g, h, k));
      Retained(g, front, k);
      if c.key == k {
        StillFresh(g, front, k, c.now);
      } else {
        WithinOther(g, rows, c, k, Since(g, front, k));
      }
    }
  }

  lemma SubsetSize(a: set<string>, b: set<string>)
    requires a <= b
    ensures |a| <= |b|
  {
    assert b == a + (b - a);
  }

  lemma StillFresh(g: Config, h: seq<Call>, k: string, now: Time)
    requires Cached(Replay(g, h), k) && LastPut(h, k).Some? && LastPut(h, k).value.Put?
    ensures Hit(Replay(g, h), k, now).Some? <==> now < LastPut(h, k).value.now + g.ttl
  {
    ReplayInvariant(g, h);
    assert Replay(g, h)[IndexOf(Replay(g, h), k)] in Replay(g, h);
  }

  /** So for such a key a lookup hits exactly while its last store is younger than the TTL. */
  lemma RetainedHitsExactly(g: Config, h: seq<Call>, k: string, now: Time)
    requires Alive(g, h, k) && (g.capacity > 0 ==> |Since(g, h, k)| < g.capacity)
    ensures LastPut(h, k).Some? && LastPut(h, k).value.Put?
    ensures Hit(Replay(g, h), k, now) ==
            if now < LastPut(h, k).value.now + g.ttl then Some(LastPut(h, k).value.allowed) else None
  {
    Retained(g, h, k);
    ReplayInvariant(g, h);
    assert Replay(g, h)[IndexOf(Replay(g, h), k)] in Replay(g, h);
  }
}
