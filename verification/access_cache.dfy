/** The bounded, expiring LRU cache of access decisions. */
module AccessCache {
  import opened Options

  type Time = int

  datatype Row = Row(key: string, allowed: bool, expiresAt: Time)

  /** Most recently touched first. */
  type Rows = seq<Row>

  /******* The operations on a value *******/

  predicate Cached(rows: Rows, k: string) {
    exists i :: 0 <= i < |rows| && rows[i].key == k
  }

  ghost predicate Unique(rows: Rows) {
    forall i, j :: 0 <= i < j < |rows| ==> rows[i].key != rows[j].key
  }

  function IndexOf(rows: Rows, k: string): (i: nat)
    requires Cached(rows, k)
    ensures i < |rows| && rows[i].key == k
  {
    if rows[0].key == k then 0
    else
      assert Cached(rows[1..], k) by {
        var j :| 0 <= j < |rows| && rows[j].key == k;
        assert rows[1..][j - 1].key == k;
      }
      1 + IndexOf(rows[1..], k)
  }

  function DropAt(rows: Rows, i: nat): Rows
    requires i < |rows|
  {
    rows[..i] + rows[i + 1..]
  }

  function ToFront(rows: Rows, i: nat, row: Row): Rows
    requires i < |rows|
  {
    [row] + DropAt(rows, i)
  }

  /** The decision a lookup returns, if it hits. */
  function Hit(rows: Rows, k: string, now: Time): Option<bool> {
    if Cached(rows, k) && now < rows[IndexOf(rows, k)].expiresAt then Some(rows[IndexOf(rows, k)].allowed) else None
  }

  function AfterLookup(rows: Rows, k: string, now: Time): Rows {
    if !Cached(rows, k) then rows
    else
      var i := IndexOf(rows, k);
      if now < rows[i].expiresAt then ToFront(rows, i, rows[i]) else DropAt(rows, i)
  }

  function Bounded(rows: Rows, capacity: int): Rows {
    if 0 < capacity < |rows| then rows[..capacity] else rows
  }

  function AfterStore(rows: Rows, row: Row, capacity: int): Rows {
    if Cached(rows, row.key) then ToFront(rows, IndexOf(rows, row.key), row) else Bounded([row] + rows, capacity)
  }

  /******* The checker object *******/

  class AccessCacheEntry {
    const key: string
    var allowed: bool
    var expiresAt: Time

    constructor (key: string, allowed: bool, expiresAt: Time)
      ensures this.key == key && this.allowed == allowed && this.expiresAt == expiresAt
    {
      this.key, this.allowed, this.expiresAt := key, allowed, expiresAt;
    }

    ghost predicate Shows(row: Row)
      reads this
    {
      key == row.key && allowed == row.allowed && expiresAt == row.expiresAt
    }
  }

  /** The list and the map hold the same unique keys, those of rows. */
  ghost predicate Linked(lru: seq<AccessCacheEntry>, cache: map<string, AccessCacheEntry>, rows: Rows) {
    && |rows| == |lru| && Unique(rows)
    && (forall i :: 0 <= i < |lru| ==> rows[i].key in cache && cache[rows[i].key] == lru[i])
    && forall k :: k in cache ==> Cached(rows, k)
  }

  lemma DropLinked(lru: seq<AccessCacheEntry>, cache: map<string, AccessCacheEntry>, rows: Rows, i: nat)
    requires Linked(lru, cache, rows) && i < |lru|
    ensures Linked(lru[..i] + lru[i + 1..], cache - {rows[i].key}, DropAt(rows, i))
  {
    forall k | k in cache && k != rows[i].key ensures Cached(DropAt(rows, i), k) {
      var j :| 0 <= j < |rows| && rows[j].key == k;
      assert DropAt(rows, i)[if j < i then j else j - 1] == rows[j];
    }
  }

  lemma PushLinked(lru: seq<AccessCacheEntry>, cache: map<string, AccessCacheEntry>, rows: Rows, e: AccessCacheEntry, row: Row)
    requires Linked(lru, cache, rows) && row.key !in cache
    ensures Linked([e] + lru, cache[row.key := e], [row] + rows)
  {
    var rows' := [row] + rows;
    forall k | k in cache[row.key := e] ensures Cached(rows', k) {
      if k == row.key {
        assert rows'[0].key == k;
      } else {
        var j :| 0 <= j < |rows| && rows[j].key == k;
        assert rows'[j + 1] == rows[j];
      }
    }
  }

  lemma FrontLinked(lru: seq<AccessCacheEntry>, cache: map<string, AccessCacheEntry>, rows: Rows, i: nat, row: Row)
    requires Linked(lru, cache, rows) && i < |lru| && row.key == rows[i].key
    ensures Linked([lru[i]] + (lru[..i] + lru[i + 1..]), cache, ToFront(rows, i, row))
  {
    DropLinked(lru, cache, rows, i);
    PushLinked(lru[..i] + lru[i + 1..], cache - {row.key}, DropAt(rows, i), lru[i], row);
    assert (cache - {row.key})[row.key := lru[i]] == cache;
  }

  class AccessChecker {
    const capacity: int
    const cacheTTL: int
    var lru: seq<AccessCacheEntry>
    var cache: map<string, AccessCacheEntry>
    ghost var rows: Rows

    constructor (capacity: int, cacheTTL: int)
      ensures Valid() && rows == [] && this.capacity == capacity && this.cacheTTL == cacheTTL
    {
      this.capacity, this.cacheTTL, lru, cache, rows := capacity, cacheTTL, [], map[], [];
    }

    ghost predicate Valid()
      reads this, lru
    {
      Linked(lru, cache, rows) && forall i :: 0 <= i < |lru| ==> lru[i].Shows(rows[i])
    }

    method Find(k: string) returns (i: nat)
      requires Valid() && k in cache
      ensures Cached(rows, k) && i == IndexOf(rows, k) && i < |lru| && lru[i] == cache[k]
    {
      assert Cached(rows, k);
      assert lru[IndexOf(rows, k)] == cache[k];
      i :| 0 <= i < |lru| && lru[i] == cache[k];
      assert rows[IndexOf(rows, k)].key == k && lru[i].key == k && rows[i].key == k;
    }

    method RemoveElement(i: nat)
      requires Valid() && i < |lru|
      modifies this
      ensures Valid() && rows == DropAt(old(rows), i) && lru == old(lru)[..i] + old(lru)[i + 1..]
    {
      DropLinked(lru, cache, rows, i);
      cache := cache - {lru[i].key};
      lru := lru[..i] + lru[i + 1..];
      rows := DropAt(rows, i);
    }

    method MoveToFront(i: nat)
      requires Valid() && i < |lru|
      modifies this`lru, this`rows
      ensures Valid() && rows == ToFront(old(rows), i, old(rows)[i]) && lru == [old(lru)[i]] + (old(lru)[..i] + old(lru)[i + 1..])
    {
      FrontLinked(lru, cache, rows, i, rows[i]);
      lru := [lru[i]] + (lru[..i] + lru[i + 1..]);
      rows := ToFront(rows, i, rows[i]);
    }

    method Lookup(k: string, now: Time) returns (r: Option<bool>)
      requires Valid()
      modifies this
      ensures Valid() && rows == AfterLookup(old(rows), k, now) && r == Hit(old(rows), k, now)
    {
      if k !in cache {
        assert !Cached(rows, k);
        return None;
      }
      var i := Find(k);
      var entry := lru[i];
      if !(now < entry.expiresAt) {
        RemoveElement(i);
        return None;
      }
      MoveToFront(i);
      r := Some(entry.allowed);
    }

    method Refresh(i: nat, allowed: bool, expiresAt: Time)
      requires Valid() && i < |lru|
      modifies lru[i], this`rows
      ensures Valid() && rows == old(rows)[i := Row(old(rows)[i].key, allowed, expiresAt)]
    {
      assert forall j :: 0 <= j < |lru| && j != i ==> lru[j].key == rows[j].key && rows[j].key != rows[i].key && lru[j] != lru[i];
      lru[i].allowed := allowed;
      lru[i].expiresAt := expiresAt;
      RefreshLinked(lru, cache, rows, i, Row(rows[i].key, allowed, expiresAt));
      rows := rows[i := Row(rows[i].key, allowed, expiresAt)];
    }

    method Replace(k: string, allowed: bool, expiresAt: Time)
      requires Valid() && k in cache
      modifies this`lru, this`rows, lru
      ensures Valid() && Cached(old(rows), k)
      ensures rows == ToFront(old(rows), IndexOf(old(rows), k), Row(k, allowed, expiresAt))
      ensures forall e :: e in lru ==> e in old(lru)
    {
      var i := Find(k);
      Refresh(i, allowed, expiresAt);
      MoveToFront(i);
      assert DropAt(old(rows)[i := Row(k, allowed, expiresAt)], i) == DropAt(old(rows), i);
    }

    method PushFront(k: string, allowed: bool, expiresAt: Time)
      requires Valid() && k !in cache
      modifies this
      ensures Valid() && rows == [Row(k, allowed, expiresAt)] + old(rows)
      ensures forall e :: e in lru && e !in old(lru) ==> fresh(e)
    {
      var entry := new AccessCacheEntry(k, allowed, expiresAt);
      PushLinked(lru, cache, rows, entry, Row(k, allowed, expiresAt));
      lru := [entry] + lru;
      cache := cache[k := entry];
      rows := [Row(k, allowed, expiresAt)] + rows;
    }

    method Store(k: string, allowed: bool, now: Time)
      requires Valid()
      modifies this, lru
      ensures Valid() && rows == AfterStore(old(rows), Row(k, allowed, now + cacheTTL), capacity)
      ensures forall e :: e in lru && e !in old(lru) ==> fresh(e)
    {
      var expiresAt := now + cacheTTL;
      if k in cache {
        Replace(k, allowed, expiresAt);
        return;
      }
      assert !Cached(rows, k);
      PushFront(k, allowed, expiresAt);
      Evict();
    }

    method Evict()
      requires Valid()
      modifies this
      ensures Valid() && rows == Bounded(old(rows), capacity)
      ensures forall e :: e in lru ==> e in old(lru)
    {
      while capacity > 0 && |lru| > capacity
        invariant Valid() && |lru| <= |old(rows)| && rows == old(rows)[..|lru|]
        invariant |lru| == |old(rows)| || |lru| >= capacity > 0
        invariant forall e :: e in lru ==> e in old(lru)
        decreases |lru|
      {
        RemoveElement(|lru| - 1);
      }
    }
  }

  lemma RefreshLinked(lru: seq<AccessCacheEntry>, cache: map<string, AccessCacheEntry>, rows: Rows, i: nat, row: Row)
    requires Linked(lru, cache, rows) && i < |lru| && row.key == rows[i].key
    ensures Linked(lru, cache, rows[i := row])
  {
    forall k | k in cache ensures Cached(rows[i := row], k) {
      var j :| 0 <= j < |rows| && rows[j].key == k;
      assert rows[i := row][j].key == k;
    }
  }
}
