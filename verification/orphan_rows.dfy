/** Rows and registrations: dispatch workers act on stale target snapshots while targets are
    registered and unregistered. The registry lock is a readers-writer lock; an unregister drops the
    registration under it and clears the rows afterwards. */
module OrphanRows {
  import opened Options
  import opened Envelope
  import opened ItemStore
  import opened Registry

  /** Writing holds the registry's read lock after finding the item's target registered. */
  datatype Worker = Working(snapshot: set<TargetKey>) | Writing(snapshot: set<TargetKey>, item: Item)

  datatype Sys = Sys(registered: set<TargetKey>, store: map<string, Shard>, pending: map<nat, TargetKey>, workers: map<nat, Worker>)

  datatype Action =
    | Register(key: TargetKey)
    | UnregisterBegin(u: nat, key: TargetKey)
    | UnregisterEnd(u: nat)
    | Dispatch(w: nat)
    | CheckRegistered(w: nat, item: Item)
    | Upsert(w: nat)
    | Remove(w: nat, key: TargetKey, uid: string)

  function KeyOf(item: Item): TargetKey {
    TargetKey(item.targetNamespace, item.targetName)
  }

  function ShardOf(store: map<string, Shard>, ns: string): Shard {
    if ns in store then store[ns] else map[]
  }

  predicate HasRows(s: Sys, key: TargetKey) {
    var sh := ShardOf(s.store, key.ns);
    key.name in sh && sh[key.name] != map[]
  }

  ghost predicate WriteLockFree(s: Sys) {
    forall w :: w in s.workers ==> s.workers[w].Working?
  }

  ghost predicate Enabled(s: Sys, a: Action) {
    match a
    case Register(_) => WriteLockFree(s)
    case UnregisterBegin(u, _) => WriteLockFree(s) && u !in s.pending
    case UnregisterEnd(u) => u in s.pending
    case Dispatch(w) => w in s.workers ==> s.workers[w].Working?
    case CheckRegistered(w, item) => w in s.workers && s.workers[w].Working? && KeyOf(item) in s.workers[w].snapshot
    case Upsert(w) => w in s.workers && s.workers[w].Writing?
    case Remove(w, key, _) => w in s.workers && s.workers[w].Working? && key in s.workers[w].snapshot
  }

  function Stored(s: Sys, ns: string, m: Mutation): Sys {
    s.(store := s.store[ns := Mutated(ShardOf(s.store, ns), m)])
  }

  function Moved(s: Sys, w: nat, worker: Worker): Sys {
    s.(workers := s.workers[w := worker])
  }

  function Apply(s: Sys, a: Action): Sys
    requires Enabled(s, a)
  {
    match a
    case Register(key) => s.(registered := s.registered + {key})
    case UnregisterBegin(u, key) => s.(registered := s.registered - {key}, pending := s.pending[u := key])
    case UnregisterEnd(u) => Stored(s, s.pending[u].ns, DropTarget(s.pending[u].name)).(pending := s.pending - {u})
    case Dispatch(w) => Moved(s, w, Working(s.registered))
    case CheckRegistered(w, item) =>
      if KeyOf(item) in s.registered then Moved(s, w, Writing(s.workers[w].snapshot, item)) else s
    case Upsert(w) =>
      var item := s.workers[w].item;
      Moved(Stored(s, item.targetNamespace, UpsertRow(item)), w, Working(s.workers[w].snapshot))
    case Remove(w, key, uid) => Stored(s, key.ns, RemoveRow(key.name, uid))
  }

  ghost predicate Run(tr: seq<Sys>, xs: seq<Action>) {
    && |tr| == |xs| + 1 && tr[0] == Sys({}, map[], map[], map[])
    && forall i :: 0 <= i < |xs| ==> Enabled(tr[i], xs[i]) && tr[i + 1] == Apply(tr[i], xs[i])
  }

  ghost predicate Pending(s: Sys, key: TargetKey) {
    exists u :: u in s.pending && s.pending[u] == key
  }

  ghost predicate Inv(s: Sys) {
    && (forall key :: HasRows(s, key) ==> key in s.registered || Pending(s, key))
    && forall w :: w in s.workers && s.workers[w].Writing? ==> KeyOf(s.workers[w].item) in s.registered
  }

  /** A mutation of one target's rows leaves every other target's alone. */
  lemma RowsFrame(s: Sys, ns: string, m: Mutation, key: TargetKey)
    requires HasRows(Stored(s, ns, m), key)
    ensures HasRows(s, key) || (m.UpsertRow? && key == TargetKey(ns, m.item.targetName))
    ensures m.DropTarget? ==> key != TargetKey(ns, m.target)
  {
  }

  lemma StoredKeeps(s: Sys, s': Sys, ns: string, m: Mutation)
    requires Inv(s) && s'.store == Stored(s, ns, m).store && s'.registered == s.registered
    requires m.UpsertRow? ==> TargetKey(ns, m.item.targetName) in s.registered
    requires forall u :: u in s.pending && u !in s'.pending ==> m.DropTarget? && s.pending[u] == TargetKey(ns, m.target)
    requires forall u :: u in s.pending && u in s'.pending ==> s'.pending[u] == s.pending[u]
    ensures forall key :: HasRows(s', key) ==> key in s'.registered || Pending(s', key)
  {
    forall key | HasRows(s', key) && key !in s.registered ensures Pending(s', key) {
      assert HasRows(Stored(s, ns, m), key);
      RowsFrame(s, ns, m, key);
      var u :| u in s.pending && s.pending[u] == key;
      assert u in s'.pending;
    }
  }

  lemma StepKeeps(s: Sys, a: Action)
    requires Inv(s) && Enabled(s, a)
    ensures Inv(Apply(s, a))
  {
    var s' := Apply(s, a);
    match a
    case Register(_) => PendingKept(s, s');
    case UnregisterBegin(u, key) =>
      PendingKept(s, s');
      assert Pending(s', key) by { assert s'.pending[u] == key; }
    case UnregisterEnd(u) => StoredKeeps(s, s', s.pending[u].ns, DropTarget(s.pending[u].name));
    case Dispatch(_) => PendingKept(s, s');
    case CheckRegistered(_, _) => PendingKept(s, s');
    case Upsert(w) => StoredKeeps(s, s', s.workers[w].item.targetNamespace, UpsertRow(s.workers[w].item));
    case Remove(_, key, uid) => StoredKeeps(s, s', key.ns, RemoveRow(key.name, uid));
  }

  lemma PendingKept(s: Sys, s': Sys)
    requires forall u :: u in s.pending ==> u in s'.pending && s'.pending[u] == s.pending[u]
    ensures forall key :: Pending(s, key) ==> Pending(s', key)
  {
  }

  lemma {:induction false} RunKeeps(tr: seq<Sys>, xs: seq<Action>, n: nat)
    requires Run(tr, xs) && n < |tr|
    ensures Inv(tr[n])
  {
    if n > 0 {
      RunKeeps(tr, xs, n - 1);
      StepKeeps(tr[n - 1], xs[n - 1]);
    }
  }

  /** A target with rows is registered or has an unregister still to clear them; with none pending,
      no row outlives its target. */
  lemma NoOrphanRows(tr: seq<Sys>, xs: seq<Action>, n: nat, key: TargetKey)
    requires Run(tr, xs) && n < |tr| && HasRows(tr[n], key)
    ensures key in tr[n].registered || Pending(tr[n], key)
    ensures tr[n].pending == map[] ==> key in tr[n].registered
  {
    RunKeeps(tr, xs, n);
  }

  /******* Which rows there are *******/

  function RowOf(s: Sys, key: TargetKey, uid: string): Option<Item> {
    RowAt(ShardOf(s.store, key.ns), key.name, uid)
  }

  /** A worker goes on to write its row exactly when the row's target is registered at its check. */
  lemma CheckExact(tr: seq<Sys>, xs: seq<Action>, n: nat, w: nat, item: Item)
    requires Run(tr, xs) && n < |xs| && xs[n] == CheckRegistered(w, item)
    ensures w in tr[n + 1].workers && tr[n + 1].store == tr[n].store
    ensures TargetKey(item.targetNamespace, item.targetName) in tr[n].registered <==>
            tr[n + 1].workers[w].Writing? && tr[n + 1].workers[w].item == item
  {
    assert Enabled(tr[n], xs[n]) && tr[n + 1] == Apply(tr[n], xs[n]);
  }

  lemma StoredExact(s: Sys, ns: string, m: Mutation, key: TargetKey, uid: string)
    ensures RowOf(Stored(s, ns, m), key, uid) ==
      if key.ns != ns then RowOf(s, key, uid)
      else match m
           case UpsertRow(item) => if key.name == item.targetName && uid == item.uid then Some(item) else RowOf(s, key, uid)
           case RemoveRow(target, u) => if key.name == target && uid == u then None else RowOf(s, key, uid)
           case DropTarget(target) => if key.name == target then None else RowOf(s, key, uid)
  {
    var sh := ShardOf(s.store, ns);
    match m
    case UpsertRow(item) => UpsertExact(sh, item, key.name, uid);
    case RemoveRow(target, u) => RemoveExact(sh, target, u, key.name, uid);
    case DropTarget(target) => DropExact(sh, target, key.name, uid);
  }

  /** A row changes only by the write of that row, its removal by a dispatch, or the clear of its target
      at the end of an unregister, and each of these does its work on all and only its rows. */
  lemma RowsChangeExactly(tr: seq<Sys>, xs: seq<Action>, n: nat, key: TargetKey, uid: string)
    requires Run(tr, xs) && n < |xs|
    ensures RowOf(tr[n + 1], key, uid) ==
      match xs[n]
      case Upsert(w) =>
        if w in tr[n].workers && tr[n].workers[w].Writing? && KeyOf(tr[n].workers[w].item) == key && tr[n].workers[w].item.uid == uid
        then Some(tr[n].workers[w].item) else RowOf(tr[n], key, uid)
      case Remove(_, k, u) => if k == key && u == uid then None else RowOf(tr[n], key, uid)
      case UnregisterEnd(u) => if u in tr[n].pending && tr[n].pending[u] == key then None else RowOf(tr[n], key, uid)
      case _ => RowOf(tr[n], key, uid)
  {
    assert Enabled(tr[n], xs[n]) && tr[n + 1] == Apply(tr[n], xs[n]);
    var s := tr[n];
    match xs[n]
    case Upsert(w) => StoredExact(s, s.workers[w].item.targetNamespace, UpsertRow(s.workers[w].item), key, uid);
    case Remove(_, k, u) => StoredExact(s, k.ns, RemoveRow(k.name, u), key, uid);
    case UnregisterEnd(u) => StoredExact(s, s.pending[u].ns, DropTarget(s.pending[u].name), key, uid);
    case _ =>
  }
}
