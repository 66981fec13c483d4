/** Where each backend is: the bookkeeping of holds, owners and Closes across all acquires. */
module PoolAccounting {
  import opened PoolModel
  import opened PoolInvariants
  import opened PoolProtocol

  predicate Holds(op: Op, b: Backend) {
    op.Holding? && op.b == b
  }

  predicate Owns(op: Op, b: Backend) {
    (op.Built? || op.Owning?) && op.b == b
  }

  predicate Neutral(op: Op) {
    !op.Holding? && !op.Built? && !op.Owning?
  }

  function Bit(c: bool): nat {
    if c then 1 else 0
  }

  /** How many acquires hold b unreleased, and how many own it outside the pool. */
  function HeldBy(ops: seq<Op>, b: Backend): nat {
    if ops == [] then 0 else HeldBy(ops[..|ops| - 1], b) + Bit(Holds(ops[|ops| - 1], b))
  }

  function OwnedBy(ops: seq<Op>, b: Backend): nat {
    if ops == [] then 0 else OwnedBy(ops[..|ops| - 1], b) + Bit(Owns(ops[|ops| - 1], b))
  }

  lemma {:induction false} CountUpdate(ops: seq<Op>, o: nat, op: Op, b: Backend)
    requires o < |ops|
    ensures HeldBy(ops[o := op], b) == HeldBy(ops, b) - Bit(Holds(ops[o], b)) + Bit(Holds(op, b))
    ensures OwnedBy(ops[o := op], b) == OwnedBy(ops, b) - Bit(Owns(ops[o], b)) + Bit(Owns(op, b))
  {
    var n := |ops| - 1;
    if o < n {
      assert ops[o := op][..n] == ops[..n][o := op];
      CountUpdate(ops[..n], o, op, b);
    } else {
      assert ops[o := op][..n] == ops[..n];
    }
  }

  lemma {:induction false} CountAt(ops: seq<Op>, o: nat, b: Backend)
    requires o < |ops|
    ensures HeldBy(ops, b) >= Bit(Holds(ops[o], b)) && OwnedBy(ops, b) >= Bit(Owns(ops[o], b))
  {
    if o < |ops| - 1 { CountAt(ops[..|ops| - 1], o, b); }
  }

  /** A pooled backend counts its holders exactly and has no owner; any other backend is with one
      owner, waiting for its Close, or closed, exactly once. */
  ghost predicate Account(p: Pool, held: nat, owned: nat, built: map<Backend, EntryKey>, b: Backend) {
    if b in p.cells then
      b in built && p.cells[b].key == built[b] && p.cells[b].holders == held && owned == 0
    else
      held == 0 && owned + p.due[b] + p.closed[b] == Bit(b in built)
  }

  ghost predicate Accounting(p: Pool, ops: seq<Op>, built: map<Backend, EntryKey>) {
    forall b :: Account(p, HeldBy(ops, b), OwnedBy(ops, b), built, b)
  }

  lemma PassiveAccounting(p: Pool, q: Pool, ops: seq<Op>, built: map<Backend, EntryKey>)
    requires Accounting(p, ops, built) && Passive(p, q)
    ensures Accounting(q, ops, built)
  {
    forall b ensures Account(q, HeldBy(ops, b), OwnedBy(ops, b), built, b) {
      assert Account(p, HeldBy(ops, b), OwnedBy(ops, b), built, b);
      assert b in p.cells ==> SameCell(p.cells[b], q.cells[b]);
    }
  }

  lemma AppendAccounting(p: Pool, ops: seq<Op>, built: map<Backend, EntryKey>, op: Op)
    requires Accounting(p, ops, built) && Neutral(op)
    ensures Accounting(p, ops + [op], built)
  {
    assert (ops + [op])[..|ops|] == ops;
    forall b ensures Account(p, HeldBy(ops + [op], b), OwnedBy(ops + [op], b), built, b) {
      assert Account(p, HeldBy(ops, b), OwnedBy(ops, b), built, b);
    }
  }

  /** One acquire moves from ops[o] to op while the pool goes from p to q: enough to check, for each
      backend, that what the acquire gained or lost matches what the pool did. */
  lemma MoveAccounting(p: Pool, q: Pool, ops: seq<Op>, o: nat, op: Op,
                       built: map<Backend, EntryKey>, built': map<Backend, EntryKey>)
    requires Accounting(p, ops, built) && o < |ops|
    requires forall b, held: nat, owned: nat ::
      Account(p, held, owned, built, b) && held >= Bit(Holds(ops[o], b)) && owned >= Bit(Owns(ops[o], b)) ==>
      Account(q, held - Bit(Holds(ops[o], b)) + Bit(Holds(op, b)),
                 owned - Bit(Owns(ops[o], b)) + Bit(Owns(op, b)), built', b)
    ensures Accounting(q, ops[o := op], built')
  {
    var ops' := ops[o := op];
    forall b ensures Account(q, HeldBy(ops', b), OwnedBy(ops', b), built', b) {
      CountUpdate(ops, o, op, b);
      CountAt(ops, o, b);
      assert Account(p, HeldBy(ops, b), OwnedBy(ops, b), built, b);
    }
  }

  /** The owner of a backend is its only trace. */
  lemma OwnerAlone(p: Pool, ops: seq<Op>, built: map<Backend, EntryKey>, o: nat, b: Backend)
    requires Accounting(p, ops, built) && o < |ops| && Owns(ops[o], b)
    ensures b !in p.cells && b in built && OwnedBy(ops, b) == 1 && p.due[b] == p.closed[b] == 0
  {
    CountAt(ops, o, b);
    assert Account(p, HeldBy(ops, b), OwnedBy(ops, b), built, b);
  }

  lemma HolderCounted(p: Pool, ops: seq<Op>, built: map<Backend, EntryKey>, o: nat, b: Backend)
    requires Accounting(p, ops, built) && o < |ops| && Holds(ops[o], b)
    ensures b in p.cells && b in built && p.cells[b].key == built[b] && p.cells[b].holders > 0
  {
    CountAt(ops, o, b);
    assert Account(p, HeldBy(ops, b), OwnedBy(ops, b), built, b);
  }

  lemma NeutralAccounting(p: Pool, ops: seq<Op>, built: map<Backend, EntryKey>, o: nat, op: Op)
    requires Accounting(p, ops, built) && o < |ops| && Neutral(op) && Neutral(ops[o])
    ensures Accounting(p, ops[o := op], built)
  {
    MoveAccounting(p, p, ops, o, op, built, built);
  }

  lemma HoldAccounting(p: Pool, ops: seq<Op>, built: map<Backend, EntryKey>, o: nat, a: Acquire, b: Backend, now: Time)
    requires Accounting(p, ops, built) && b in p.cells && o < |ops| && Neutral(ops[o])
    ensures Accounting(Hold(Touch(p, b, now), b), ops[o := Holding(a, b)], built)
  {
    MoveAccounting(p, Hold(Touch(p, b, now), b), ops, o, Holding(a, b), built, built);
  }

  lemma ReleaseAccounting(p: Pool, ops: seq<Op>, built: map<Backend, EntryKey>, o: nat, a: Acquire)
    requires Accounting(p, ops, built) && o < |ops| && ops[o].Holding?
    ensures ops[o].b in p.cells && p.cells[ops[o].b].holders > 0
    ensures Accounting(Release(p, ops[o].b), ops[o := Finished(a)], built)
  {
    HolderCounted(p, ops, built, o, ops[o].b);
    MoveAccounting(p, Release(p, ops[o].b), ops, o, Finished(a), built, built);
  }

  lemma BuildAccounting(p: Pool, ops: seq<Op>, built: map<Backend, EntryKey>, o: nat, op: Op)
    requires Accounting(p, ops, built) && o < |ops| && op.Built? && op.b !in built && Neutral(ops[o])
    ensures Accounting(p, ops[o := op], built[op.b := op.key])
  {
    MoveAccounting(p, p, ops, o, op, built, built[op.b := op.key]);
  }

  lemma OwningAccounting(p: Pool, ops: seq<Op>, built: map<Backend, EntryKey>, o: nat, a: Acquire)
    requires Accounting(p, ops, built) && o < |ops| && ops[o].Built?
    ensures Accounting(p, ops[o := Owning(a, ops[o].b)], built)
  {
    MoveAccounting(p, p, ops, o, Owning(a, ops[o].b), built, built);
  }

  /** An owner gives its backend up for Close. */
  lemma SurrenderAccounting(p: Pool, ops: seq<Op>, built: map<Backend, EntryKey>, o: nat, a: Acquire)
    requires Accounting(p, ops, built) && o < |ops| && (ops[o].Built? || ops[o].Owning?)
    ensures Accounting(Surrender(p, ops[o].b), ops[o := Finished(a)], built)
  {
    OwnerAlone(p, ops, built, o, ops[o].b);
    MoveAccounting(p, Surrender(p, ops[o].b), ops, o, Finished(a), built, built);
  }

  /** The owner's build becomes the key's entry, with the owner as its one holder. */
  lemma PooledAccounting(p: Pool, ops: seq<Op>, built: map<Backend, EntryKey>, o: nat, a: Acquire, k: PoolKey, now: Time)
    requires Accounting(p, ops, built) && o < |ops| && ops[o].Built?
    requires ops[o].b in built && built[ops[o].b] == ops[o].key
    ensures Accounting(Insert(p, k, ops[o].b, ops[o].key, now), ops[o := Holding(a, ops[o].b)], built)
  {
    OwnerAlone(p, ops, built, o, ops[o].b);
    MoveAccounting(p, Insert(p, k, ops[o].b, ops[o].key, now), ops, o, Holding(a, ops[o].b), built, built);
  }

  lemma CloseAccounting(p: Pool, ops: seq<Op>, built: map<Backend, EntryKey>, b: Backend)
    requires Accounting(p, ops, built) && b in p.due
    ensures Accounting(Close(p, b), ops, built)
  {
    forall c ensures Account(Close(p, b), HeldBy(ops, c), OwnedBy(ops, c), built, c) {
      assert Account(p, HeldBy(ops, c), OwnedBy(ops, c), built, c);
    }
  }
}
