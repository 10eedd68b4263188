/** A cluster of shards behind the coordinator: each write goes to the one shard its key
    hashes to. Taken together the shards behave as one index. */
module Cluster {
  import opened KeyTable
  import Router

  /** A coordinator's answer: a malformed request is turned away before it reaches a shard. */
  datatype Answer = Malformed | Shard(outcome: Outcome)

  /** The coordinator offers inserts and deletes; an undelete would be routed the same way. */
  predicate WellFormed(op: Write) {
    op.Insert? ==> op.vector != []
  }

  /** Which shard owns a key. The proofs hold for every such choice. */
  type Owner = Key -> nat

  ghost predicate Owns(owner: Owner, n: nat) {
    forall k :: owner(k) < n
  }

  /** The router's choice: the key's hash modulo the number of shards. */
  function HashOwner(n: nat): (owner: Owner)
    requires n > 0
    ensures Owns(owner, n) && forall k :: owner(k) == Router.ShardFor(k, n)
  {
    (k: Key) => Router.ShardFor(k, n)
  }

  /** The coordinator routes a write by its key and passes the shard's outcome on. */
  function Route(owner: Owner, shards: seq<Table>, op: Write): (seq<Table>, Answer)
    requires Owns(owner, |shards|)
  {
    if !WellFormed(op) then (shards, Malformed)
    else
      var i := owner(op.key);
      var reply := Perform(shards[i], op);
      (shards[i := reply.table], Shard(reply.outcome))
  }

  /** The same front end over one index. */
  function Direct(t: Table, op: Write): (Table, Answer) {
    if !WellFormed(op) then (t, Malformed)
    else
      var reply := Perform(t, op);
      (reply.table, Shard(reply.outcome))
  }

  /** Which requests are turned away: inserts without a vector, and nothing else; no delete. */
  lemma MalformedIff(owner: Owner, shards: seq<Table>, op: Write)
    requires Owns(owner, |shards|)
    ensures Route(owner, shards, op).1 == Malformed <==> op.Insert? && |op.vector| == 0
    ensures Route(owner, shards, op).1 == Malformed ==> Route(owner, shards, op).0 == shards
  {
  }

  /** A routed write reaches its owner and no other shard. */
  lemma OthersUntouched(owner: Owner, shards: seq<Table>, op: Write, i: nat)
    requires Owns(owner, |shards|) && i < |shards|
    ensures |Route(owner, shards, op).0| == |shards|
    ensures i != owner(op.key) ==> Route(owner, shards, op).0[i] == shards[i]
  {
  }

  /** A routed delete succeeds if and only if its key is live on the owner; then the key keeps its
      vector and gets its tombstone, and the owner's other entries stay. */
  lemma DeleteOnOwner(owner: Owner, shards: seq<Table>, k: Key)
    requires Owns(owner, |shards|)
    ensures var (after, answer) := Route(owner, shards, Mark(k, true));
      var t := shards[owner(k)];
      && (answer == Shard(Ok) <==> k in t.entries && !t.entries[k].deleted)
      && (answer != Shard(Ok) ==> answer == Shard(NotFound) && after == shards)
      && (answer == Shard(Ok) ==>
            |after| == |shards| && after[owner(k)].entries == t.entries[k := Entry(t.entries[k].vector, true)])
  {
  }

  /** A routed insert succeeds if and only if the vector has the owner's dimension, the key is absent
      there and the owner has room; then the key is live on the owner with that vector. */
  lemma InsertOnOwner(owner: Owner, shards: seq<Table>, k: Key, v: Vector)
    requires Owns(owner, |shards|) && v != []
    ensures var (after, answer) := Route(owner, shards, Insert(k, v));
      var t := shards[owner(k)];
      && (answer == Shard(Ok) <==> |v| == t.dim && k !in t.entries && |t.entries| < t.capacity)
      && (answer != Shard(Ok) ==> after == shards)
      && (answer == Shard(Ok) ==> |after| == |shards| && after[owner(k)].entries == t.entries[k := Entry(v, false)])
      && (answer == Shard(Duplicate) <==> |v| == t.dim && k in t.entries)
      && (answer == Shard(WrongDimension) <==> |v| != t.dim)
  {
  }

  /** A shard stores exactly the single index's entries that hash to it. */
  ghost predicate Slice(shard: Table, single: Table, i: nat, owner: Owner) {
    && shard.dim == single.dim
    && (forall k :: k in shard.entries <==> k in single.entries && owner(k) == i)
    && (forall k :: k in shard.entries ==> k in single.entries && shard.entries[k] == single.entries[k])
  }

  ghost predicate SliceAt(owner: Owner, shards: seq<Table>, single: Table, i: nat) {
    i < |shards| ==> Slice(shards[i], single, i, owner)
  }

  ghost predicate Refines(owner: Owner, shards: seq<Table>, single: Table) {
    forall i: nat :: SliceAt(owner, shards, single, i)
  }

  /** A key lives on its hash shard and nowhere else. */
  lemma LivesOnOwnerOnly(owner: Owner, shards: seq<Table>, single: Table, k: Key, i: nat)
    requires Owns(owner, |shards|) && Refines(owner, shards, single) && i < |shards|
    ensures k in shards[i].entries <==> k in single.entries && i == owner(k)
  {
    assert SliceAt(owner, shards, single, i);
  }

  /** The number of entries and the room of the first m shards. */
  function Stored(shards: seq<Table>, m: nat): nat
    requires m <= |shards|
  {
    if m == 0 then 0 else Stored(shards, m - 1) + |shards[m - 1].entries|
  }

  function Room(shards: seq<Table>, m: nat): nat
    requires m <= |shards|
  {
    if m == 0 then 0 else Room(shards, m - 1) + shards[m - 1].capacity
  }

  /** Shards of one capacity have room for as many times that. */
  lemma {:induction false} RoomOfEqual(shards: seq<Table>, m: nat, c: nat)
    requires m <= |shards| && forall i :: 0 <= i < m ==> shards[i].capacity == c
    ensures Room(shards, m) == m * c
  {
    if m > 0 {
      RoomOfEqual(shards, m - 1, c);
      assert m * c == (m - 1) * c + c;
    }
  }

  /** A shard's capacity changes the room by as much. */
  lemma {:induction false} RoomChanges(shards: seq<Table>, m: nat, i: nat, t: Table)
    requires i < m <= |shards|
    ensures Room(shards[i := t], m) == Room(shards, m) - shards[i].capacity + t.capacity
  {
    if i < m - 1 {
      RoomChanges(shards, m - 1, i, t);
    } else {
      RoomBefore(shards, i, i, t);
    }
  }

  lemma {:induction false} RoomBefore(shards: seq<Table>, m: nat, i: nat, t: Table)
    requires m <= i < |shards|
    ensures Room(shards[i := t], m) == Room(shards, m)
  {
    if m > 0 {
      RoomBefore(shards, m - 1, i, t);
    }
  }

  /** The first m shards' entries put together. */
  ghost function Union(shards: seq<Table>, m: nat): map<Key, Entry>
    requires m <= |shards|
  {
    if m == 0 then map[] else Union(shards, m - 1) + shards[m - 1].entries
  }

  /** The entries of the single index that the first m shards own. */
  ghost function OwnedBelow(single: Table, owner: Owner, m: nat): map<Key, Entry> {
    map k | k in single.entries && owner(k) < m :: single.entries[k]
  }

  lemma OneMoreSlice(single: Table, owner: Owner, m: nat, shard: Table, below: map<Key, Entry>)
    requires m > 0 && Slice(shard, single, m - 1, owner) && below == OwnedBelow(single, owner, m - 1)
    ensures below + shard.entries == OwnedBelow(single, owner, m)
    ensures |below + shard.entries| == |below| + |shard.entries|
  {
    var all := below + shard.entries;
    DisjointUnionSize(below, shard.entries);
    assert all.Keys == OwnedBelow(single, owner, m).Keys;
  }

  lemma {:induction false} UnionOfSome(owner: Owner, shards: seq<Table>, single: Table, m: nat)
    requires Refines(owner, shards, single) && m <= |shards|
    ensures Union(shards, m) == OwnedBelow(single, owner, m)
    ensures |Union(shards, m)| == Stored(shards, m)
  {
    if m > 0 {
      UnionOfSome(owner, shards, single, m - 1);
      assert SliceAt(owner, shards, single, m - 1);
      OneMoreSlice(single, owner, m, shards[m - 1], Union(shards, m - 1));
    }
  }

  lemma DisjointUnionSize(a: map<Key, Entry>, b: map<Key, Entry>)
    requires a.Keys !! b.Keys
    ensures |a + b| == |a| + |b|
  {
    assert (a + b).Keys == a.Keys + b.Keys;
    assert |a + b| == |(a + b).Keys| && |a| == |a.Keys| && |b| == |b.Keys|;
  }

  /** The union of the shard maps is the single map. */
  lemma UnionIsSingle(owner: Owner, shards: seq<Table>, single: Table)
    requires Owns(owner, |shards|) && Refines(owner, shards, single)
    ensures Union(shards, |shards|) == single.entries && |single.entries| == Stored(shards, |shards|)
  {
    UnionOfSome(owner, shards, single, |shards|);
    assert OwnedBelow(single, owner, |shards|).Keys == single.entries.Keys;
  }

  /** A write changes at most its own key. */
  lemma OnlyItsKey(t: Table, op: Write)
    ensures var after := Perform(t, op).table;
      && after.dim == t.dim && after.capacity == t.capacity
      && (forall k :: k != op.key ==> (k in after.entries <==> k in t.entries))
      && (forall k :: k != op.key && k in t.entries ==> after.entries[k] == t.entries[k])
  {
  }

  /** Tables that agree on the key, neither of them full, treat the write alike. */
  lemma AgreeingTables(t: Table, u: Table, op: Write)
    requires t.dim == u.dim
    requires op.key in t.entries <==> op.key in u.entries
    requires op.key in t.entries ==> t.entries[op.key] == u.entries[op.key]
    requires Perform(t, op).outcome != Full && Perform(u, op).outcome != Full
    ensures var (a, b) := (Perform(t, op), Perform(u, op));
      && a.outcome == b.outcome
      && (op.key in a.table.entries <==> op.key in b.table.entries)
      && (op.key in a.table.entries ==> a.table.entries[op.key] == b.table.entries[op.key])
  {
  }

  lemma OwnerKeepsSlice(shard: Table, single: Table, shard': Table, single': Table, i: nat, owner: Owner, op: Write)
    requires owner(op.key) == i && Slice(shard, single, i, owner)
    requires shard' == Perform(shard, op).table && single' == Perform(single, op).table
    requires op.key in shard'.entries <==> op.key in single'.entries
    requires op.key in shard'.entries ==> shard'.entries[op.key] == single'.entries[op.key]
    ensures Slice(shard', single', i, owner)
  {
    OnlyItsKey(shard, op);
    OnlyItsKey(single, op);
  }

  lemma OtherKeepsSlice(shard: Table, single: Table, single': Table, i: nat, owner: Owner, op: Write)
    requires owner(op.key) != i && Slice(shard, single, i, owner)
    requires single' == Perform(single, op).table
    ensures Slice(shard, single', i, owner)
  {
    OnlyItsKey(single, op);
  }

  /** One write, neither the owner nor the single index being full. */
  lemma StepRefines(owner: Owner, shards: seq<Table>, single: Table, op: Write)
    requires Owns(owner, |shards|) && Refines(owner, shards, single)
    requires Route(owner, shards, op).1 != Shard(Full) && Direct(single, op).1 != Shard(Full)
    ensures Route(owner, shards, op).1 == Direct(single, op).1
    ensures Refines(owner, Route(owner, shards, op).0, Direct(single, op).0)
  {
    if WellFormed(op) {
      var own := owner(op.key);
      assert SliceAt(owner, shards, single, own);
      AgreeingTables(shards[own], single, op);
      var after, one := Route(owner, shards, op).0, Direct(single, op).0;
      forall i: nat | i < |after| ensures SliceAt(owner, after, one, i) {
        assert SliceAt(owner, shards, single, i);
        if i == own {
          OwnerKeepsSlice(shards[own], single, after[own], one, own, owner, op);
        } else {
          OtherKeepsSlice(shards[i], single, one, i, owner, op);
        }
      }
    }
  }

  /** Every shard within its own capacity, the single index as large as all shards together. */
  ghost predicate Sized(shards: seq<Table>, single: Table) {
    && (forall i :: 0 <= i < |shards| ==> |shards[i].entries| <= shards[i].capacity)
    && single.capacity == Room(shards, |shards|)
  }

  lemma {:induction false} StoredFits(shards: seq<Table>, m: nat, own: nat)
    requires m <= |shards| && forall i :: 0 <= i < |shards| ==> |shards[i].entries| <= shards[i].capacity
    requires own < |shards| && |shards[own].entries| < shards[own].capacity
    ensures Stored(shards, m) <= Room(shards, m)
    ensures own < m ==> Stored(shards, m) < Room(shards, m)
  {
    if m > 0 {
      StoredFits(shards, m - 1, own);
    }
  }

  lemma {:induction false} RoomUnchanged(a: seq<Table>, b: seq<Table>, m: nat)
    requires m <= |a| == |b| && forall i :: 0 <= i < |a| ==> a[i].capacity == b[i].capacity
    ensures Room(a, m) == Room(b, m)
  {
    if m > 0 {
      RoomUnchanged(a, b, m - 1);
    }
  }

  /** The single index is never full before the owning shard is. */
  lemma OwnerFillsFirst(owner: Owner, shards: seq<Table>, single: Table, op: Write)
    requires Owns(owner, |shards|) && Refines(owner, shards, single) && Sized(shards, single)
    requires Direct(single, op).1 == Shard(Full)
    ensures Route(owner, shards, op).1 == Shard(Full)
  {
    var own := owner(op.key);
    assert SliceAt(owner, shards, single, own);
    UnionIsSingle(owner, shards, single);
    if |shards[own].entries| < shards[own].capacity {
      StoredFits(shards, |shards|, own);
    }
  }

  lemma StepKeepsSize(owner: Owner, shards: seq<Table>, single: Table, op: Write)
    requires Owns(owner, |shards|) && Sized(shards, single)
    ensures Sized(Route(owner, shards, op).0, Direct(single, op).0)
  {
    var after, one := Route(owner, shards, op).0, Direct(single, op).0;
    if WellFormed(op) {
      var own := owner(op.key);
      OnlyItsKey(shards[own], op);
      OnlyItsKey(single, op);
      PerformFits(shards[own], op);
    }
    RoomUnchanged(shards, after, |shards|);
  }

  lemma PerformFits(t: Table, op: Write)
    requires |t.entries| <= t.capacity
    ensures |Perform(t, op).table.entries| <= t.capacity
  {
    var t' := Perform(t, op).table;
    if t' != t {
      assert |t'.entries| == |t'.entries.Keys| && |t.entries| == |t.entries.Keys|;
      assert t'.entries.Keys == t.entries.Keys + {op.key};
    }
  }

  /** The write would need a new slot: an insert, well formed, of the right dimension, of a key
      the table does not hold. */
  predicate NeedsSlot(t: Table, op: Write) {
    op.Insert? && op.vector != [] && |op.vector| == t.dim && op.key !in t.entries
  }

  predicate IsFull(t: Table) {
    |t.entries| >= t.capacity
  }

  /** One write: the two answers differ if and only if it needs a slot, its owner is full, and the
      single index of the total capacity is not. */
  lemma StepAgrees(owner: Owner, shards: seq<Table>, single: Table, op: Write)
    requires Owns(owner, |shards|) && Refines(owner, shards, single) && Sized(shards, single)
    ensures Route(owner, shards, op).1 == Direct(single, op).1
       <==> !(NeedsSlot(shards[owner(op.key)], op) && IsFull(shards[owner(op.key)]) && !IsFull(single))
  {
    var own := owner(op.key);
    assert SliceAt(owner, shards, single, own);
    if Direct(single, op).1 == Shard(Full) {
      OwnerFillsFirst(owner, shards, single, op);
    } else if Route(owner, shards, op).1 != Shard(Full) {
      StepRefines(owner, shards, single, op);
    }
  }

  /** A sequence of writes, with all the answers. */
  function RouteAll(owner: Owner, shards: seq<Table>, ops: seq<Write>): (r: (seq<Table>, seq<Answer>))
    requires Owns(owner, |shards|)
    ensures |r.0| == |shards|
    decreases |ops|
  {
    if ops == [] then (shards, [])
    else
      var first := Route(owner, shards, ops[0]);
      var rest := RouteAll(owner, first.0, ops[1..]);
      (rest.0, [first.1] + rest.1)
  }

  function DirectAll(t: Table, ops: seq<Write>): (Table, seq<Answer>)
    decreases |ops|
  {
    if ops == [] then (t, [])
    else
      var first := Direct(t, ops[0]);
      var rest := DirectAll(first.0, ops[1..]);
      (rest.0, [first.1] + rest.1)
  }

  function EmptyShards(dim: nat, capacities: seq<nat>): (shards: seq<Table>)
    ensures |shards| == |capacities|
  {
    seq(|capacities|, i requires 0 <= i < |capacities| => Empty(dim, capacities[i]))
  }

  /** The key a write can bring to a shard that owns it. */
  function Brings(dim: nat, op: Write): set<Key> {
    if op.Insert? && op.vector != [] && |op.vector| == dim then {op.key} else {}
  }

  /** The distinct keys the writes can bring to shard i. */
  function Wanted(owner: Owner, dim: nat, ops: seq<Write>, i: nat): set<Key> {
    if ops == [] then {}
    else
      var later := Wanted(owner, dim, ops[1..], i);
      if owner(ops[0].key) == i then Brings(dim, ops[0]) + later else later
  }

  /** Shard t has room for all of them beside what it stores. */
  predicate HasRoom(t: Table, keys: set<Key>) {
    |t.entries.Keys + keys| <= t.capacity
  }

  ghost predicate AllHaveRoom(owner: Owner, dim: nat, shards: seq<Table>, ops: seq<Write>) {
    forall i: nat :: i < |shards| ==> HasRoom(shards[i], Wanted(owner, dim, ops, i))
  }

  ghost predicate SameDim(shards: seq<Table>, dim: nat) {
    forall i :: 0 <= i < |shards| ==> shards[i].dim == dim
  }

  ghost predicate WithinCapacity(shards: seq<Table>) {
    forall i :: 0 <= i < |shards| ==> |shards[i].entries| <= shards[i].capacity
  }

  lemma KeysAfter(t: Table, op: Write)
    requires WellFormed(op)
    ensures Perform(t, op).outcome == Full ==> NeedsSlot(t, op) && IsFull(t)
    ensures Perform(t, op).outcome != Full ==> Perform(t, op).table.entries.Keys == t.entries.Keys + Brings(t.dim, op)
    ensures Perform(t, op).table.capacity == t.capacity
  {
  }

  /** A write that is not refused for lack of room leaves what its shard needs as it is; one that
      is refused asked for more than the shard has. */
  lemma OwnerRoom(t: Table, op: Write, rest: set<Key>)
    requires |t.entries| <= t.capacity && WellFormed(op)
    ensures Perform(t, op).outcome == Full ==> !HasRoom(t, Brings(t.dim, op) + rest)
    ensures Perform(t, op).outcome != Full ==> (HasRoom(Perform(t, op).table, rest) <==> HasRoom(t, Brings(t.dim, op) + rest))
  {
    KeysAfter(t, op);
    if Perform(t, op).outcome == Full {
      OneTooMany(t.entries.Keys, Brings(t.dim, op) + rest, op.key);
      assert |t.entries| == |t.entries.Keys|;
    } else {
      UnionsRegroup(t.entries.Keys, Brings(t.dim, op), rest);
    }
  }

  lemma OneTooMany(keys: set<Key>, more: set<Key>, k: Key)
    requires k !in keys && k in more
    ensures |keys + more| > |keys|
  {
    SubsetSize(keys + {k}, keys + more);
  }

  lemma UnionsRegroup(a: set<Key>, b: set<Key>, c: set<Key>)
    ensures (a + b) + c == a + (b + c)
  {
  }

  lemma StepRoom(owner: Owner, dim: nat, shards: seq<Table>, ops: seq<Write>)
    requires Owns(owner, |shards|) && ops != [] && SameDim(shards, dim) && WithinCapacity(shards)
    ensures Route(owner, shards, ops[0]).1 == Shard(Full) ==> !AllHaveRoom(owner, dim, shards, ops)
    ensures Route(owner, shards, ops[0]).1 != Shard(Full) ==>
      (AllHaveRoom(owner, dim, Route(owner, shards, ops[0]).0, ops[1..]) <==> AllHaveRoom(owner, dim, shards, ops))
  {
    var op, own, after := ops[0], owner(ops[0].key), Route(owner, shards, ops[0]).0;
    if WellFormed(op) {
      OwnerRoom(shards[own], op, Wanted(owner, dim, ops[1..], own));
      RoomElsewhere(owner, dim, shards, after, ops, own);
    } else {
      assert forall i: nat :: Wanted(owner, dim, ops, i) == Wanted(owner, dim, ops[1..], i);
    }
  }

  /** The other shards neither change nor need more. */
  lemma RoomElsewhere(owner: Owner, dim: nat, shards: seq<Table>, after: seq<Table>, ops: seq<Write>, own: nat)
    requires ops != [] && own == owner(ops[0].key) && own < |shards| == |after| && after == shards[own := after[own]]
    ensures AllHaveRoom(owner, dim, shards, ops) ==> HasRoom(shards[own], Wanted(owner, dim, ops, own))
    ensures (HasRoom(after[own], Wanted(owner, dim, ops[1..], own)) <==> HasRoom(shards[own], Wanted(owner, dim, ops, own)))
      ==> (AllHaveRoom(owner, dim, after, ops[1..]) <==> AllHaveRoom(owner, dim, shards, ops))
  {
    assert forall i: nat :: i != own ==> Wanted(owner, dim, ops, i) == Wanted(owner, dim, ops[1..], i);
    if AllHaveRoom(owner, dim, after, ops[1..]) && HasRoom(shards[own], Wanted(owner, dim, ops, own)) {
      forall i: nat | i < |shards| ensures HasRoom(shards[i], Wanted(owner, dim, ops, i)) {
        assert HasRoom(after[i], Wanted(owner, dim, ops[1..], i));
      }
    }
    if AllHaveRoom(owner, dim, shards, ops) && HasRoom(after[own], Wanted(owner, dim, ops[1..], own)) {
      forall i: nat | i < |after| ensures HasRoom(after[i], Wanted(owner, dim, ops[1..], i)) {
        assert HasRoom(shards[i], Wanted(owner, dim, ops, i));
      }
    }
  }

  lemma StepFits(owner: Owner, dim: nat, shards: seq<Table>, op: Write)
    requires Owns(owner, |shards|) && SameDim(shards, dim) && WithinCapacity(shards)
    ensures SameDim(Route(owner, shards, op).0, dim) && WithinCapacity(Route(owner, shards, op).0)
  {
    if WellFormed(op) {
      OnlyItsKey(shards[owner(op.key)], op);
      PerformFits(shards[owner(op.key)], op);
    }
  }

  /** No shard runs full over a sequence of writes if and only if each has room for the distinct
      keys the writes can bring to it. */
  lemma {:induction false} NoneFillsIff(owner: Owner, dim: nat, shards: seq<Table>, ops: seq<Write>)
    requires Owns(owner, |shards|) && SameDim(shards, dim) && WithinCapacity(shards)
    ensures Shard(Full) !in RouteAll(owner, shards, ops).1 <==> AllHaveRoom(owner, dim, shards, ops)
    decreases |ops|
  {
    if ops == [] {
      forall i: nat | i < |shards| ensures HasRoom(shards[i], Wanted(owner, dim, ops, i)) {
        assert shards[i].entries.Keys + {} == shards[i].entries.Keys;
      }
    } else {
      var first := Route(owner, shards, ops[0]);
      var rest := RouteAll(owner, first.0, ops[1..]).1;
      StepRoom(owner, dim, shards, ops);
      StepFits(owner, dim, shards, ops[0]);
      NoneFillsIff(owner, dim, first.0, ops[1..]);
      assert RouteAll(owner, shards, ops).1 == [first.1] + rest;
      assert Shard(Full) in [first.1] + rest <==> first.1 == Shard(Full) || Shard(Full) in rest;
    }
  }

  lemma SlicesHaveDim(owner: Owner, shards: seq<Table>, single: Table)
    requires Refines(owner, shards, single)
    ensures SameDim(shards, single.dim)
  {
    forall i | 0 <= i < |shards| ensures shards[i].dim == single.dim {
      assert SliceAt(owner, shards, single, i);
    }
  }

  /** One write of a sequence for which all shards have room. */
  lemma RoomyStep(owner: Owner, shards: seq<Table>, single: Table, ops: seq<Write>)
    requires Owns(owner, |shards|) && Refines(owner, shards, single) && Sized(shards, single) && ops != []
    requires AllHaveRoom(owner, single.dim, shards, ops)
    ensures var (shards', answer) := Route(owner, shards, ops[0]);
      var (single', expected) := Direct(single, ops[0]);
      && answer == expected && Refines(owner, shards', single') && Sized(shards', single')
      && single'.dim == single.dim && AllHaveRoom(owner, single.dim, shards', ops[1..])
  {
    SlicesHaveDim(owner, shards, single);
    StepRoom(owner, single.dim, shards, ops);
    if Direct(single, ops[0]).1 == Shard(Full) {
      OwnerFillsFirst(owner, shards, single, ops[0]);
    }
    StepRefines(owner, shards, single, ops[0]);
    StepKeepsSize(owner, shards, single, ops[0]);
    OnlyItsKey(single, ops[0]);
  }

  /** Every sequence of writes for which all shards have room. */
  lemma {:induction false} RunRefines(owner: Owner, shards: seq<Table>, single: Table, ops: seq<Write>)
    requires Owns(owner, |shards|) && Refines(owner, shards, single) && Sized(shards, single)
    requires AllHaveRoom(owner, single.dim, shards, ops)
    ensures RouteAll(owner, shards, ops).1 == DirectAll(single, ops).1
    ensures Refines(owner, RouteAll(owner, shards, ops).0, DirectAll(single, ops).0)
    decreases |ops|
  {
    if ops != [] {
      RoomyStep(owner, shards, single, ops);
      RunRefines(owner, Route(owner, shards, ops[0]).0, Direct(single, ops[0]).0, ops[1..]);
    }
  }

  /** The keys bound for each shard fit it. */
  ghost predicate KeysFit(owner: Owner, dim: nat, capacities: seq<nat>, ops: seq<Write>) {
    forall i: nat :: i < |capacities| ==> |Wanted(owner, dim, ops, i)| <= capacities[i]
  }

  /** From empty shards: no answer is Full if and only if the distinct keys of the inserts each
      shard owns number at most its capacity. */
  lemma NoneFillsFromEmpty(owner: Owner, dim: nat, capacities: seq<nat>, ops: seq<Write>)
    requires Owns(owner, |capacities|)
    ensures Shard(Full) !in RouteAll(owner, EmptyShards(dim, capacities), ops).1 <==> KeysFit(owner, dim, capacities, ops)
    ensures AllHaveRoom(owner, dim, EmptyShards(dim, capacities), ops) <==> KeysFit(owner, dim, capacities, ops)
  {
    var shards := EmptyShards(dim, capacities);
    NoneFillsIff(owner, dim, shards, ops);
    forall i: nat | i < |shards|
      ensures HasRoom(shards[i], Wanted(owner, dim, ops, i)) <==> |Wanted(owner, dim, ops, i)| <= capacities[i]
    {
      assert shards[i].entries.Keys + Wanted(owner, dim, ops, i) == Wanted(owner, dim, ops, i);
    }
  }

  /** Every key of the single index is on the shard that owns it and on no other. */
  ghost predicate PlacedBy(owner: Owner, shards: seq<Table>, single: Table) {
    forall k, i :: 0 <= i < |shards| ==> (k in shards[i].entries <==> k in single.entries && i == owner(k))
  }

  /** The shards store what the single index stores, each key on its owner only. */
  ghost predicate ActsAsOne(owner: Owner, shards: seq<Table>, single: Table) {
    Refines(owner, shards, single) && Union(shards, |shards|) == single.entries && PlacedBy(owner, shards, single)
  }

  lemma RefiningActsAsOne(owner: Owner, shards: seq<Table>, single: Table)
    requires Owns(owner, |shards|) && Refines(owner, shards, single)
    ensures ActsAsOne(owner, shards, single)
  {
    UnionIsSingle(owner, shards, single);
    RefiningIsPlaced(owner, shards, single);
  }

  lemma RefiningIsPlaced(owner: Owner, shards: seq<Table>, single: Table)
    requires Owns(owner, |shards|) && Refines(owner, shards, single)
    ensures PlacedBy(owner, shards, single)
  {
    forall k, i | 0 <= i < |shards| ensures k in shards[i].entries <==> k in single.entries && i == owner(k) {
      LivesOnOwnerOnly(owner, shards, single, k, i);
    }
  }

  /** One index with the capacity of all shards together. */
  function OneIndex(dim: nat, capacities: seq<nat>): Table {
    Empty(dim, Room(EmptyShards(dim, capacities), |capacities|))
  }

  lemma OneIndexForOwner(owner: Owner, dim: nat, capacities: seq<nat>, ops: seq<Write>)
    requires Owns(owner, |capacities|) && KeysFit(owner, dim, capacities, ops)
    ensures RouteAll(owner, EmptyShards(dim, capacities), ops).1 == DirectAll(OneIndex(dim, capacities), ops).1
    ensures ActsAsOne(owner, RouteAll(owner, EmptyShards(dim, capacities), ops).0, DirectAll(OneIndex(dim, capacities), ops).0)
  {
    var start, one := EmptyShards(dim, capacities), OneIndex(dim, capacities);
    NoneFillsFromEmpty(owner, dim, capacities, ops);
    EmptyRefines(owner, start, one);
    RunRefines(owner, start, one, ops);
    RefiningActsAsOne(owner, RouteAll(owner, start, ops).0, DirectAll(one, ops).0);
  }

  /** The cluster is one index: for every sequence of writes whose keys fit their hash shards, hash
      routing gives the answers one index of the total capacity gives, every key ends up on its
      hash shard only, and the shards together store what the one index stores. */
  lemma ClusterIsOneIndex(dim: nat, capacities: seq<nat>, ops: seq<Write>)
    requires capacities != [] && KeysFit(HashOwner(|capacities|), dim, capacities, ops)
    ensures var owner := HashOwner(|capacities|);
      && RouteAll(owner, EmptyShards(dim, capacities), ops).1 == DirectAll(OneIndex(dim, capacities), ops).1
      && ActsAsOne(owner, RouteAll(owner, EmptyShards(dim, capacities), ops).0, DirectAll(OneIndex(dim, capacities), ops).0)
  {
    OneIndexForOwner(HashOwner(|capacities|), dim, capacities, ops);
  }

  lemma EmptyRefines(owner: Owner, shards: seq<Table>, single: Table)
    requires Owns(owner, |shards|) && single.entries == map[] && single.capacity == Room(shards, |shards|)
    requires forall i :: 0 <= i < |shards| ==> shards[i].dim == single.dim && shards[i].entries == map[]
    ensures Refines(owner, shards, single) && Sized(shards, single)
  {
  }

  /** Two keys of one shard of capacity 1, beside another shard of capacity 1: the cluster refuses
      the second insert, the one index of capacity 2 takes it. */
  lemma SharedShardRefuses(owner: Owner, dim: nat, a: Key, b: Key, v: Vector)
    requires Owns(owner, 2) && dim > 0 && |v| == dim && a != b && owner(a) == owner(b)
    ensures var ops := [Insert(a, v), Insert(b, v)];
      && RouteAll(owner, EmptyShards(dim, [1, 1]), ops).1 == [Shard(Ok), Shard(Full)]
      && DirectAll(Empty(dim, 2), ops).1 == [Shard(Ok), Shard(Ok)]
  {
    var ops := [Insert(a, v), Insert(b, v)];
    assert ops[1..] == [Insert(b, v)] && ops[1..][1..] == [];
    var start, one := EmptyShards(dim, [1, 1]), Empty(dim, 2);
    var r1, d1 := Route(owner, start, ops[0]), Direct(one, ops[0]);
    assert r1.1 == Shard(Ok) && d1.1 == Shard(Ok);
    assert |map[a := Entry(v, false)]| == 1;
    var r2, d2 := Route(owner, r1.0, ops[1]), Direct(d1.0, ops[1]);
    assert r2.1 == Shard(Full) && d2.1 == Shard(Ok);
    assert RouteAll(owner, r2.0, []).1 == [] && DirectAll(d2.0, []).1 == [];
    assert RouteAll(owner, r1.0, ops[1..]).1 == [r2.1] + [] && DirectAll(d1.0, ops[1..]).1 == [d2.1] + [];
  }

  /** Such a pair exists among any three keys: two of them have the same hash shard. */
  lemma HashShardRefuses(dim: nat, k1: Key, k2: Key, k3: Key, v: Vector) returns (a: Key, b: Key)
    requires dim > 0 && |v| == dim && k1 != k2 && k2 != k3 && k1 != k3
    ensures a in {k1, k2, k3} && b in {k1, k2, k3}
    ensures var ops := [Insert(a, v), Insert(b, v)];
      && RouteAll(HashOwner(2), EmptyShards(dim, [1, 1]), ops).1 == [Shard(Ok), Shard(Full)]
      && DirectAll(Empty(dim, 2), ops).1 == [Shard(Ok), Shard(Ok)]
  {
    var owner := HashOwner(2);
    assert owner(k1) < 2 && owner(k2) < 2 && owner(k3) < 2;
    a, b := if owner(k1) == owner(k2) || owner(k1) == owner(k3) then k1 else k2,
            if owner(k1) == owner(k2) then k2 else k3;
    SharedShardRefuses(owner, dim, a, b, v);
  }
}
