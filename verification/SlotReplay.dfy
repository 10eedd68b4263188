/** Replaying a log into slots: when it runs to the end, and which vector each key then has. */
module SlotReplay {
  import opened KeyTable
  import opened Options
  import opened WalFormat
  import opened Replay
  import opened SlotStore
  import opened DurableSlots

  ghost function KeysOf(slots: seq<Slot>): set<Key> {
    set i | 0 <= i < |slots| :: slots[i].key
  }

  lemma KeysOfHas(slots: seq<Slot>, k: Key)
    ensures k in KeysOf(slots) <==> HasKey(slots, k)
  {
  }

  lemma KeysOfMore(slots: seq<Slot>, s: Slot)
    ensures KeysOf(slots + [s]) == KeysOf(slots) + {s.key}
  {
    var more := slots + [s];
    forall k ensures k in KeysOf(more) <==> k in KeysOf(slots) || k == s.key {
      if k in KeysOf(more) {
        var i :| 0 <= i < |more| && more[i].key == k;
        assert i < |slots| ==> slots[i].key == k;
      }
      if k in KeysOf(slots) {
        var i :| 0 <= i < |slots| && slots[i].key == k;
        assert more[i].key == k;
      }
      assert more[|slots|].key == s.key;
    }
  }

  /** Slots of one label have one vector. */
  ghost predicate Uniform(slots: seq<Slot>) {
    forall i, j :: 0 <= i < |slots| && 0 <= j < |slots| && slots[i].key == slots[j].key ==> slots[i].vector == slots[j].vector
  }

  /** b continues a; tombstones may differ. */
  ghost predicate Extends(a: seq<Slot>, b: seq<Slot>) {
    |a| <= |b| && forall i :: 0 <= i < |a| ==> b[i].key == a[i].key && b[i].vector == a[i].vector
  }

  /** Replaying the log over the slots gives k the vector v: that of its slots, else of its first Add. */
  ghost predicate Recovers(cfg: Setup, base: seq<Slot>, log: seq<Record>, k: Key, v: Vector) {
    && (forall i :: 0 <= i < |base| && base[i].key == k ==> base[i].vector == v)
    && (!HasKey(base, k) ==> FirstAdd(log, k).Some? && cfg.prepare(log[FirstAdd(log, k).value].vector) == v)
  }

  /** What replay needs: every Add of the right dimension, and a slot for every key that has none. */
  ghost predicate Replays(cfg: Setup, base: seq<Slot>, log: seq<Record>) {
    AddsHaveDim(log, cfg.dim) && Room(|base|, log, KeysOf(base), cfg.capacity)
  }

  /** Slots for the Adds of a log beyond the n there are, given the labels that have one. */
  ghost predicate Room(n: nat, log: seq<Record>, keys: set<Key>, capacity: nat) {
    n + |AddKeys(log) - keys| <= capacity
  }

  /** A store whose map knows exactly the labels of its slots. */
  ghost predicate StoreOk(cfg: Setup, s: Store) {
    s.dim == cfg.dim && s.capacity == cfg.capacity && |s.slots| <= s.capacity && MapOk(s) && s.ids.Keys == KeysOf(s.slots)
  }

  lemma LoadedOk(cfg: Setup, slots: seq<Slot>)
    requires |slots| <= cfg.capacity
    ensures StoreOk(cfg, Loaded(cfg.dim, cfg.capacity, slots))
  {
    RebuiltMeaning(slots);
    var s := Loaded(cfg.dim, cfg.capacity, slots);
    forall k ensures k in s.ids <==> k in KeysOf(slots) {
      KeysOfHas(slots, k);
    }
  }

  lemma MarkedSame(s: Store, k: Key, flag: bool)
    ensures var s' := Marked(s, k, flag).0;
      && s'.ids == s.ids && s'.dim == s.dim && s'.capacity == s.capacity && |s'.slots| == |s.slots|
      && forall i :: 0 <= i < |s.slots| ==> s'.slots[i].key == s.slots[i].key && s'.slots[i].vector == s.slots[i].vector
  {
  }

  lemma SameKeys(a: seq<Slot>, b: seq<Slot>)
    requires |a| == |b| && forall i :: 0 <= i < |a| ==> b[i].key == a[i].key
    ensures KeysOf(a) == KeysOf(b)
  {
    forall k ensures k in KeysOf(a) <==> k in KeysOf(b) {
      if k in KeysOf(a) {
        var i :| 0 <= i < |a| && a[i].key == k;
        assert b[i].key == k;
      }
      if k in KeysOf(b) {
        var i :| 0 <= i < |b| && b[i].key == k;
        assert a[i].key == k;
      }
    }
  }

  /** One replayed record. */
  lemma RedoneOk(cfg: Setup, s: Store, r: Record)
    requires KeepsLength(cfg) && KnownOp(r.op) && StoreOk(cfg, s) && Redone(s, WriteOf(cfg, r)).Some?
    ensures var s' := Redone(s, WriteOf(cfg, r)).value;
      && StoreOk(cfg, s') && Extends(s.slots, s'.slots)
      && KeysOf(s'.slots) == KeysOf(s.slots) + (if r.op == OP_ADD then {r.key} else {})
      && |s'.slots| == |s.slots| + (if r.op == OP_ADD && r.key !in s.ids then 1 else 0)
      && (r.op == OP_ADD && r.key !in s.ids ==> s'.slots == s.slots + [Slot(r.key, cfg.prepare(r.vector), false)])
  {
    var s' := Redone(s, WriteOf(cfg, r)).value;
    if r.op != OP_ADD {
      MarkedSame(s, r.key, r.op == OP_MARK_DELETED);
      SameKeys(s.slots, s'.slots);
      forall k | k in s'.ids ensures Leads(s', k) {
        assert Leads(s, k);
      }
    } else if r.key in s.ids {
      assert KeysOf(s.slots) + {r.key} == KeysOf(s.slots);
    } else {
      KeysOfMore(s.slots, Slot(r.key, cfg.prepare(r.vector), false));
      forall k | k in s'.ids ensures Leads(s', k) {
        assert k != r.key ==> Leads(s, k);
      }
    }
  }

  lemma NewKeysAfter(rest: set<Key>, keys: set<Key>, k: Key)
    ensures k !in keys ==> |({k} + rest) - keys| == 1 + |rest - (keys + {k})|
    ensures k in keys ==> ({k} + rest) - keys == rest - keys
  {
    if k !in keys {
      assert ({k} + rest) - keys == {k} + (rest - (keys + {k}));
    }
  }

  lemma AddKeysCons(rs: seq<Record>)
    requires rs != []
    ensures AddKeys(rs) == (if rs[0].op == OP_ADD then {rs[0].key} + AddKeys(rs[1..]) else AddKeys(rs[1..]))
  {
  }

  lemma DimsSplit(rs: seq<Record>, dim: nat)
    requires rs != []
    ensures AddsHaveDim(rs, dim) <==> (rs[0].op == OP_ADD ==> |rs[0].vector| == dim) && AddsHaveDim(rs[1..], dim)
  {
    assert forall x :: x in rs <==> x == rs[0] || x in rs[1..];
  }

  lemma RoomStep(n: nat, rs: seq<Record>, keys: set<Key>, capacity: nat)
    requires rs != []
    ensures rs[0].op != OP_ADD || rs[0].key in keys ==> (Room(n, rs, keys, capacity) <==> Room(n, rs[1..], keys, capacity))
    ensures rs[0].op == OP_ADD && rs[0].key !in keys ==>
      && (Room(n, rs, keys, capacity) <==> Room(n + 1, rs[1..], keys + {rs[0].key}, capacity))
      && (n >= capacity ==> !Room(n, rs, keys, capacity))
  {
    AddKeysCons(rs);
    NewKeysAfter(AddKeys(rs[1..]), keys, rs[0].key);
  }

  lemma FailureNeeds(cfg: Setup, s: Store, rs: seq<Record>)
    requires KeepsLength(cfg) && rs != [] && StoreOk(cfg, s) && KnownOp(rs[0].op) && Redone(s, WriteOf(cfg, rs[0])).None?
    ensures !Replays(cfg, s.slots, rs)
  {
    DimsSplit(rs, cfg.dim);
    RoomStep(|s.slots|, rs, KeysOf(s.slots), cfg.capacity);
  }

  lemma SuccessNeeds(cfg: Setup, s: Store, rs: seq<Record>, slots: seq<Slot>)
    requires KeepsLength(cfg) && rs != [] && StoreOk(cfg, s) && KnownOp(rs[0].op)
    requires rs[0].op == OP_ADD ==> |rs[0].vector| == cfg.dim
    requires KeysOf(slots) == KeysOf(s.slots) + (if rs[0].op == OP_ADD then {rs[0].key} else {})
    requires |slots| == |s.slots| + (if rs[0].op == OP_ADD && rs[0].key !in s.ids then 1 else 0)
    ensures Replays(cfg, s.slots, rs) <==> Replays(cfg, slots, rs[1..])
  {
    DimsSplit(rs, cfg.dim);
    RoomSame(|s.slots|, rs, KeysOf(s.slots), cfg.capacity, |slots|, KeysOf(slots));
  }

  lemma RoomSame(n: nat, rs: seq<Record>, keys: set<Key>, capacity: nat, n': nat, keys': set<Key>)
    requires rs != [] && keys' == keys + (if rs[0].op == OP_ADD then {rs[0].key} else {})
    requires n' == n + (if rs[0].op == OP_ADD && rs[0].key !in keys then 1 else 0)
    ensures Room(n, rs, keys, capacity) <==> Room(n', rs[1..], keys', capacity)
  {
    RoomStep(n, rs, keys, capacity);
    if rs[0].op != OP_ADD || rs[0].key in keys {
      assert keys' == keys;
    }
  }

  /** What the first record needs. */
  lemma FirstNeeds(cfg: Setup, s: Store, rs: seq<Record>)
    requires KeepsLength(cfg) && rs != [] && StoreOk(cfg, s) && KnownOp(rs[0].op)
    ensures Redone(s, WriteOf(cfg, rs[0])).None? ==> !Replays(cfg, s.slots, rs)
    ensures Redone(s, WriteOf(cfg, rs[0])).Some? ==>
      (Replays(cfg, s.slots, rs) <==> Replays(cfg, Redone(s, WriteOf(cfg, rs[0])).value.slots, rs[1..]))
  {
    if Redone(s, WriteOf(cfg, rs[0])).None? {
      FailureNeeds(cfg, s, rs);
    } else {
      RedoneOk(cfg, s, rs[0]);
      SuccessNeeds(cfg, s, rs, Redone(s, WriteOf(cfg, rs[0])).value.slots);
    }
  }

  /** The recovered vector of a key, one record later. */
  lemma RecoversLater(cfg: Setup, s: Store, rs: seq<Record>, k: Key, v: Vector)
    requires KeepsLength(cfg) && rs != [] && StoreOk(cfg, s) && KnownOp(rs[0].op) && Redone(s, WriteOf(cfg, rs[0])).Some?
    requires Recovers(cfg, Redone(s, WriteOf(cfg, rs[0])).value.slots, rs[1..], k, v)
    ensures Recovers(cfg, s.slots, rs, k, v)
  {
    var r, s' := rs[0], Redone(s, WriteOf(cfg, rs[0])).value;
    RedoneOk(cfg, s, r);
    forall i | 0 <= i < |s.slots| && s.slots[i].key == k ensures s.slots[i].vector == v {
      assert s'.slots[i].key == k;
    }
    KeysOfHas(s.slots, k);
    KeysOfHas(s'.slots, k);
    if !HasKey(s.slots, k) {
      if r.op == OP_ADD && r.key == k {
        assert s'.slots[|s.slots|].key == k;
      } else {
        assert !HasKey(s'.slots, k);
        assert FirstAdd(rs, k) == Some(FirstAdd(rs[1..], k).value + 1);
      }
    }
  }

  lemma UniformMore(slots: seq<Slot>, s: Slot)
    requires Uniform(slots) && !HasKey(slots, s.key)
    ensures Uniform(slots + [s])
  {
    var more := slots + [s];
    forall i, j | 0 <= i < |more| && 0 <= j < |more| && more[i].key == more[j].key ensures more[i].vector == more[j].vector {
      assert i < |slots| ==> slots[i] == more[i];
      assert j < |slots| ==> slots[j] == more[j];
    }
  }

  lemma UniformSame(a: seq<Slot>, b: seq<Slot>)
    requires Uniform(a) && |a| == |b| && Extends(a, b)
    ensures Uniform(b)
  {
    forall i, j | 0 <= i < |b| && 0 <= j < |b| && b[i].key == b[j].key ensures b[i].vector == b[j].vector {
      assert a[i].key == a[j].key;
    }
  }

  lemma RedoneUniform(cfg: Setup, s: Store, r: Record)
    requires KeepsLength(cfg) && KnownOp(r.op) && StoreOk(cfg, s) && Uniform(s.slots) && Redone(s, WriteOf(cfg, r)).Some?
    ensures Uniform(Redone(s, WriteOf(cfg, r)).value.slots)
  {
    RedoneOk(cfg, s, r);
    if r.op == OP_ADD && r.key !in s.ids {
      KeysOfHas(s.slots, r.key);
      UniformMore(s.slots, Slot(r.key, cfg.prepare(r.vector), false));
    } else {
      UniformSame(s.slots, Redone(s, WriteOf(cfg, r)).value.slots);
    }
  }

  ghost predicate SlotsRecovered(cfg: Setup, base: seq<Slot>, log: seq<Record>, slots: seq<Slot>) {
    forall i :: 0 <= i < |slots| ==> Recovers(cfg, base, log, slots[i].key, slots[i].vector)
  }

  /** Every key of slots or log has a slot, and every slot has the vector the key had first. */
  ghost predicate Rebuild(cfg: Setup, s: Store, rs: seq<Record>, s': Store) {
    && StoreOk(cfg, s') && Uniform(s'.slots) && Extends(s.slots, s'.slots)
    && KeysOf(s'.slots) == KeysOf(s.slots) + AddKeys(rs) && SlotsRecovered(cfg, s.slots, rs, s'.slots)
  }

  lemma NothingReplayed(cfg: Setup, s: Store)
    requires StoreOk(cfg, s) && Uniform(s.slots)
    ensures Replays(cfg, s.slots, []) && Rebuild(cfg, s, [], s)
  {
    assert AddKeys([]) - KeysOf(s.slots) == {};
  }

  lemma RebuildLater(cfg: Setup, s: Store, rs: seq<Record>, s': Store)
    requires KeepsLength(cfg) && rs != [] && KnownOp(rs[0].op) && StoreOk(cfg, s) && Redone(s, WriteOf(cfg, rs[0])).Some?
    requires Rebuild(cfg, Redone(s, WriteOf(cfg, rs[0])).value, rs[1..], s')
    ensures Rebuild(cfg, s, rs, s')
  {
    var s1 := Redone(s, WriteOf(cfg, rs[0])).value;
    RedoneOk(cfg, s, rs[0]);
    ExtendsTransitive(s.slots, s1.slots, s'.slots);
    KeysLater(KeysOf(s.slots), KeysOf(s1.slots), KeysOf(s'.slots), rs);
    SlotsRecoveredLater(cfg, s, rs, s'.slots);
  }

  lemma ExtendsTransitive(a: seq<Slot>, b: seq<Slot>, c: seq<Slot>)
    requires Extends(a, b) && Extends(b, c)
    ensures Extends(a, c)
  {
  }

  lemma KeysLater(keys: set<Key>, keys1: set<Key>, keys': set<Key>, rs: seq<Record>)
    requires rs != [] && keys1 == keys + (if rs[0].op == OP_ADD then {rs[0].key} else {}) && keys' == keys1 + AddKeys(rs[1..])
    ensures keys' == keys + AddKeys(rs)
  {
    AddKeysCons(rs);
  }

  lemma SlotsRecoveredLater(cfg: Setup, s: Store, rs: seq<Record>, slots: seq<Slot>)
    requires KeepsLength(cfg) && rs != [] && KnownOp(rs[0].op) && StoreOk(cfg, s) && Redone(s, WriteOf(cfg, rs[0])).Some?
    requires SlotsRecovered(cfg, Redone(s, WriteOf(cfg, rs[0])).value.slots, rs[1..], slots)
    ensures SlotsRecovered(cfg, s.slots, rs, slots)
  {
    forall i | 0 <= i < |slots| ensures Recovers(cfg, s.slots, rs, slots[i].key, slots[i].vector) {
      RecoversLater(cfg, s, rs, slots[i].key, slots[i].vector);
    }
  }

  /** Replay runs to the end if and only if dimensions and slots allow it. */
  lemma {:induction false} ReplayAllMeaning(cfg: Setup, s: Store, rs: seq<Record>)
    requires KeepsLength(cfg) && OpsKnown(rs) && StoreOk(cfg, s) && Uniform(s.slots)
    ensures ReplayAll(cfg, s, rs).Some? <==> Replays(cfg, s.slots, rs)
    ensures ReplayAll(cfg, s, rs).Some? ==> Rebuild(cfg, s, rs, ReplayAll(cfg, s, rs).value)
    decreases |rs|
  {
    if rs == [] {
      NothingReplayed(cfg, s);
    } else {
      assert rs[0] in rs && OpsKnown(rs[1..]);
      FirstNeeds(cfg, s, rs);
      if Redone(s, WriteOf(cfg, rs[0])).Some? {
        var s1 := Redone(s, WriteOf(cfg, rs[0])).value;
        RedoneOk(cfg, s, rs[0]);
        RedoneUniform(cfg, s, rs[0]);
        ReplayAllMeaning(cfg, s1, rs[1..]);
        if ReplayAll(cfg, s1, rs[1..]).Some? {
          RebuildLater(cfg, s, rs, ReplayAll(cfg, s1, rs[1..]).value);
        }
      }
    }
  }
}
