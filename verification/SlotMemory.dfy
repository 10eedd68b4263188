/** What the steps of racing writers keep about vectors, whatever the interleaving: all slots of a
    label have one vector, and it is the one recovery gives the key. */
module SlotMemory {
  import opened KeyTable
  import opened Options
  import opened WalFormat
  import opened Replay
  import opened SlotStore
  import opened LabelRace
  import opened DurableSlots
  import opened SlotReplay

  /** An insert that can still get a slot. */
  ghost predicate Active(m: Memory, w: nat, k: Key, v: Vector) {
    w in m.flights && m.flights[w].write == Insert(k, v) && (m.flights[w].step != Entered || k !in m.store.ids)
  }

  ghost predicate AgreesWithSlots(m: Memory, k: Key, v: Vector) {
    forall i :: 0 <= i < |m.store.slots| && m.store.slots[i].key == k ==> m.store.slots[i].vector == v
  }

  /** Slots and active inserts of one label have one vector. */
  ghost predicate Agreeing(m: Memory) {
    && Uniform(m.store.slots)
    && (forall w, k, v :: Active(m, w, k, v) ==> AgreesWithSlots(m, k, v))
    && (forall w, k, v, w', v' :: Active(m, w, k, v) && Active(m, w', k, v') ==> v == v')
  }

  ghost predicate MemOk(cfg: Setup, base: seq<Slot>, m: Memory) {
    && Inv(m) && Agreeing(m)
    && m.store.dim == cfg.dim && m.store.capacity == cfg.capacity && |m.store.slots| <= m.store.capacity
    && Extends(base, m.store.slots) && (forall k :: HasKey(base, k) ==> k in m.store.ids)
  }

  ghost predicate IsFull(m: Memory) {
    |m.store.slots| >= m.store.capacity
  }

  ghost predicate FlightRecovered(cfg: Setup, base: seq<Slot>, log: seq<Record>, m: Memory, k: Key, v: Vector) {
    Recovers(cfg, base, log, k, v) || IsFull(m)
  }

  ghost predicate RightDims(cfg: Setup, flights: Flights) {
    forall w :: w in flights && flights[w].write.Insert? ==> |flights[w].write.vector| == cfg.dim
  }

  ghost predicate KeyKept(m: Memory, k: Key) {
    k in m.store.ids || (exists w :: Inserting(m.flights, w, k)) || IsFull(m)
  }

  /** Memory against recovery: every slot and every active insert has the recovered vector, unless
      there is no slot left for it; and no logged key is forgotten, unless for lack of a slot. */
  ghost predicate VecOk(cfg: Setup, base: seq<Slot>, log: seq<Record>, m: Memory) {
    && SlotsRecovered(cfg, base, log, m.store.slots) && RightDims(cfg, m.flights)
    && (forall w, k, v :: Active(m, w, k, v) ==> FlightRecovered(cfg, base, log, m, k, v))
    && (forall k :: k in AddKeys(log) ==> KeyKept(m, k))
  }

  /** The guard on vectors: no insert of an absent label while one of another vector is under way. */
  ghost predicate SameVector(m: Memory, write: Write) {
    write.Insert? && write.key !in m.store.ids ==>
      forall u :: Inserting(m.flights, u, write.key) ==> m.flights[u].write.vector == write.vector
  }

  // --- a writer enters

  lemma EntererAgrees(m: Memory, k: Key, v: Vector)
    requires Inv(m) && Agreeing(m) && SameVector(m, Insert(k, v)) && k !in m.store.ids
    ensures AgreesWithSlots(m, k, v)
  {
    forall i | 0 <= i < |m.store.slots| && m.store.slots[i].key == k ensures m.store.slots[i].vector == v {
      assert SlotCovered(m, i);
      var u :| Claims(m.flights, u, k);
      assert Inserting(m.flights, u, k) && Active(m, u, k, m.flights[u].write.vector);
    }
  }

  lemma EnterKeepsAgreeing(m: Memory, w: nat, write: Write)
    requires Inv(m) && Agreeing(m) && SameVector(m, write) && w !in m.flights
    ensures Agreeing(LabelRace.Next(m, Enter(w, write)))
  {
    var m' := LabelRace.Next(m, Enter(w, write));
    forall u, k, v | Active(m', u, k, v) ensures AgreesWithSlots(m', k, v) {
      if u == w {
        EntererAgrees(m, k, v);
      } else {
        assert Active(m, u, k, v);
      }
      assert AgreesWithSlots(m, k, v);
    }
    forall u, k, v, u', v' | Active(m', u, k, v) && Active(m', u', k, v') ensures v == v' {
      assert u != w ==> Active(m, u, k, v) && Inserting(m.flights, u, k);
      assert u' != w ==> Active(m, u', k, v') && Inserting(m.flights, u', k);
    }
  }

  lemma RecoversAppend(cfg: Setup, base: seq<Slot>, log: seq<Record>, r: Record, k: Key, v: Vector)
    requires Recovers(cfg, base, log, k, v)
    ensures Recovers(cfg, base, log + [r], k, v)
  {
    FirstAddAppend(log, r, k);
  }

  lemma ReplaysPrefix(cfg: Setup, base: seq<Slot>, log: seq<Record>, r: Record)
    requires Replays(cfg, base, log + [r])
    ensures Replays(cfg, base, log) && (r.op == OP_ADD ==> |r.vector| == cfg.dim)
  {
    AddKeysAppend(log, r);
    SubsetSize(AddKeys(log) - KeysOf(base), AddKeys(log + [r]) - KeysOf(base));
    assert forall x :: x in log ==> x in log + [r];
    assert r in log + [r];
  }

  /** The vector of a key whose Add is logged now. */
  lemma EntererRecovered(cfg: Setup, base: seq<Slot>, log: seq<Record>, m: Memory, r: Record)
    requires MemOk(cfg, base, m) && VecOk(cfg, base, log, m) && r.op == OP_ADD && r.key !in m.store.ids
    requires SameVector(m, WriteOf(cfg, r))
    ensures FlightRecovered(cfg, base, log + [r], m, r.key, cfg.prepare(r.vector))
  {
    var k, v := r.key, cfg.prepare(r.vector);
    FirstAddAppend(log, r, k);
    if k in AddKeys(log) && !IsFull(m) {
      assert KeyKept(m, k);
      var u :| Inserting(m.flights, u, k);
      assert Active(m, u, k, v);
      assert FlightRecovered(cfg, base, log, m, k, v);
      RecoversAppend(cfg, base, log, r, k, v);
    }
  }

  lemma FlightRecoveredAppend(cfg: Setup, base: seq<Slot>, log: seq<Record>, m: Memory, r: Record, k: Key, v: Vector)
    requires FlightRecovered(cfg, base, log, m, k, v)
    ensures FlightRecovered(cfg, base, log + [r], m, k, v)
  {
    if Recovers(cfg, base, log, k, v) {
      RecoversAppend(cfg, base, log, r, k, v);
    }
  }

  lemma EnterKeepsKeys(m: Memory, w: nat, write: Write, k: Key)
    requires w !in m.flights && (KeyKept(m, k) || (write.Insert? && write.key == k))
    ensures KeyKept(LabelRace.Next(m, Enter(w, write)), k)
  {
    var m' := LabelRace.Next(m, Enter(w, write));
    if write.Insert? && write.key == k {
      assert Inserting(m'.flights, w, k);
    } else if u :| Inserting(m.flights, u, k) {
      assert Inserting(m'.flights, u, k);
    }
  }

  lemma EnterFlightsRecovered(cfg: Setup, base: seq<Slot>, log: seq<Record>, m: Memory, w: nat, r: Record)
    requires MemOk(cfg, base, m) && VecOk(cfg, base, log, m) && SameVector(m, WriteOf(cfg, r)) && w !in m.flights
    ensures var m' := LabelRace.Next(m, Enter(w, WriteOf(cfg, r)));
      forall u, k, v :: Active(m', u, k, v) ==> FlightRecovered(cfg, base, log + [r], m', k, v)
  {
    var m' := LabelRace.Next(m, Enter(w, WriteOf(cfg, r)));
    forall u, k, v | Active(m', u, k, v) ensures FlightRecovered(cfg, base, log + [r], m', k, v) {
      if u == w {
        EntererRecovered(cfg, base, log, m, r);
      } else {
        assert Active(m, u, k, v);
        FlightRecoveredAppend(cfg, base, log, m, r, k, v);
      }
    }
  }

  lemma EnterKeepsVecOk(cfg: Setup, base: seq<Slot>, log: seq<Record>, m: Memory, w: nat, r: Record)
    requires KeepsLength(cfg) && KnownOp(r.op) && MemOk(cfg, base, m) && VecOk(cfg, base, log, m)
    requires Replays(cfg, base, log + [r]) && SameVector(m, WriteOf(cfg, r)) && w !in m.flights
    ensures VecOk(cfg, base, log + [r], LabelRace.Next(m, Enter(w, WriteOf(cfg, r))))
  {
    var m', log' := LabelRace.Next(m, Enter(w, WriteOf(cfg, r))), log + [r];
    ReplaysPrefix(cfg, base, log, r);
    forall i | 0 <= i < |m'.store.slots| ensures Recovers(cfg, base, log', m'.store.slots[i].key, m'.store.slots[i].vector) {
      RecoversAppend(cfg, base, log, r, m.store.slots[i].key, m.store.slots[i].vector);
    }
    EnterFlightsRecovered(cfg, base, log, m, w, r);
    AddKeysAppend(log, r);
    forall k | k in AddKeys(log') ensures KeyKept(m', k) {
      EnterKeepsKeys(m, w, WriteOf(cfg, r), k);
    }
  }

  lemma EnterKeepsMemOk(cfg: Setup, base: seq<Slot>, m: Memory, w: nat, write: Write)
    requires MemOk(cfg, base, m) && SameVector(m, write) && w !in m.flights
    ensures MemOk(cfg, base, LabelRace.Next(m, Enter(w, write)))
  {
    StepKeepsInv(m, Enter(w, write));
    EnterKeepsAgreeing(m, w, write);
  }

  // --- a writer advances

  /** A step that adds no slot and no active insert, and forgets no key. */
  ghost predicate Quieter(m: Memory, m': Memory) {
    && m'.store.dim == m.store.dim && m'.store.capacity == m.store.capacity && |m'.store.slots| == |m.store.slots|
    && Extends(m.store.slots, m'.store.slots)
    && (forall k :: k in m.store.ids ==> k in m'.store.ids)
    && (forall w, k, v :: Active(m', w, k, v) ==> Active(m, w, k, v))
    && (forall w :: w in m'.flights ==> w in m.flights && m'.flights[w].write == m.flights[w].write)
  }

  lemma QuieterAgreeing(m: Memory, m': Memory)
    requires Agreeing(m) && Quieter(m, m')
    ensures Agreeing(m')
  {
    UniformSame(m.store.slots, m'.store.slots);
    forall w, k, v | Active(m', w, k, v) ensures AgreesWithSlots(m', k, v) {
      assert Active(m, w, k, v) && AgreesWithSlots(m, k, v);
      forall i | 0 <= i < |m'.store.slots| && m'.store.slots[i].key == k ensures m'.store.slots[i].vector == v {
        assert m.store.slots[i].key == k;
      }
    }
    forall w, k, v, w', v' | Active(m', w, k, v) && Active(m', w', k, v') ensures v == v' {
      assert Active(m, w, k, v) && Active(m, w', k, v');
    }
  }

  lemma QuieterMemOk(cfg: Setup, base: seq<Slot>, m: Memory, m': Memory)
    requires MemOk(cfg, base, m) && Quieter(m, m') && Inv(m')
    ensures MemOk(cfg, base, m')
  {
    QuieterAgreeing(m, m');
    assert forall i :: 0 <= i < |base| ==> m.store.slots[i].key == base[i].key && m.store.slots[i].vector == base[i].vector;
  }

  lemma QuieterVecOk(cfg: Setup, base: seq<Slot>, log: seq<Record>, m: Memory, m': Memory)
    requires VecOk(cfg, base, log, m) && Quieter(m, m')
    requires forall k :: KeyKept(m, k) ==> KeyKept(m', k)
    ensures VecOk(cfg, base, log, m')
  {
    forall i | 0 <= i < |m'.store.slots| ensures Recovers(cfg, base, log, m'.store.slots[i].key, m'.store.slots[i].vector) {
      assert Recovers(cfg, base, log, m.store.slots[i].key, m.store.slots[i].vector);
    }
    forall w, k, v | Active(m', w, k, v) ensures FlightRecovered(cfg, base, log, m', k, v) {
      assert Active(m, w, k, v) && FlightRecovered(cfg, base, log, m, k, v);
    }
  }

  /** The step is not the claiming of a slot. */
  ghost predicate NoClaim(m: Memory, w: nat)
    requires w in m.flights
  {
    !(m.flights[w].write.Insert? && m.flights[w].step == Checked && !IsFull(m))
  }

  lemma NoClaimIsQuieter(m: Memory, w: nat)
    requires w in m.flights && NoClaim(m, w)
    ensures Quieter(m, Advance(m, w).0)
  {
    if m.flights[w].write.Mark? {
      MarkedSame(m.store, m.flights[w].write.key, m.flights[w].write.deleted);
    }
  }

  /** No key is forgotten: the writer that leaves is refused for lack of a slot, or its label is in the
      map. */
  lemma NoClaimKeepsKeys(cfg: Setup, m: Memory, w: nat, k: Key)
    requires w in m.flights && NoClaim(m, w) && RightDims(cfg, m.flights) && m.store.dim == cfg.dim && KeyKept(m, k)
    ensures KeyKept(Advance(m, w).0, k)
  {
    var m' := Advance(m, w).0;
    NoClaimIsQuieter(m, w);
    if k !in m'.store.ids && !IsFull(m') {
      var u :| Inserting(m.flights, u, k);
      assert Inserting(m'.flights, u, k);
    }
  }

  lemma ClaimKeepsAgreeing(m: Memory, w: nat, k: Key, v: Vector)
    requires Agreeing(m) && w in m.flights && m.flights[w] == Flight(Insert(k, v), Checked) && !IsFull(m)
    ensures Agreeing(Advance(m, w).0)
  {
    var m' := Advance(m, w).0;
    assert Active(m, w, k, v) && AgreesWithSlots(m, k, v);
    assert m'.store.slots == m.store.slots + [Slot(k, v, false)];
    assert forall u, x, y :: Active(m', u, x, y) ==> Active(m, u, x, y);
    forall i, j | 0 <= i < |m'.store.slots| && 0 <= j < |m'.store.slots| && m'.store.slots[i].key == m'.store.slots[j].key
      ensures m'.store.slots[i].vector == m'.store.slots[j].vector
    {
      assert i < |m.store.slots| ==> m'.store.slots[i] == m.store.slots[i];
      assert j < |m.store.slots| ==> m'.store.slots[j] == m.store.slots[j];
    }
    forall u, x, y | Active(m', u, x, y) ensures AgreesWithSlots(m', x, y) {
      assert Active(m, u, x, y) && AgreesWithSlots(m, x, y);
    }
  }

  lemma ClaimKeepsVecOk(cfg: Setup, base: seq<Slot>, log: seq<Record>, m: Memory, w: nat, k: Key, v: Vector)
    requires VecOk(cfg, base, log, m) && w in m.flights && m.flights[w] == Flight(Insert(k, v), Checked) && !IsFull(m)
    ensures VecOk(cfg, base, log, Advance(m, w).0)
  {
    var m' := Advance(m, w).0;
    assert Active(m, w, k, v) && FlightRecovered(cfg, base, log, m, k, v);
    assert m'.store.slots == m.store.slots + [Slot(k, v, false)];
    forall i | 0 <= i < |m'.store.slots| ensures Recovers(cfg, base, log, m'.store.slots[i].key, m'.store.slots[i].vector) {
      assert i < |m.store.slots| ==> Recovers(cfg, base, log, m.store.slots[i].key, m.store.slots[i].vector);
    }
    forall u, x, y | Active(m', u, x, y) ensures FlightRecovered(cfg, base, log, m', x, y) {
      assert Active(m, u, x, y) && FlightRecovered(cfg, base, log, m, x, y);
    }
    forall x | x in AddKeys(log) ensures KeyKept(m', x) {
      assert KeyKept(m, x);
      if u :| Inserting(m.flights, u, x) {
        assert Inserting(m'.flights, u, x);
      }
    }
  }

  lemma AdvanceKeepsMemOk(cfg: Setup, base: seq<Slot>, m: Memory, w: nat)
    requires MemOk(cfg, base, m) && w in m.flights
    ensures MemOk(cfg, base, Advance(m, w).0)
  {
    AdvanceKeepsInv(m, w);
    if NoClaim(m, w) {
      NoClaimIsQuieter(m, w);
      QuieterMemOk(cfg, base, m, Advance(m, w).0);
    } else {
      ClaimKeepsAgreeing(m, w, m.flights[w].write.key, m.flights[w].write.vector);
    }
  }

  lemma AdvanceKeepsVecOk(cfg: Setup, base: seq<Slot>, log: seq<Record>, m: Memory, w: nat)
    requires MemOk(cfg, base, m) && VecOk(cfg, base, log, m) && w in m.flights
    ensures VecOk(cfg, base, log, Advance(m, w).0)
  {
    if NoClaim(m, w) {
      NoClaimIsQuieter(m, w);
      forall k | KeyKept(m, k) ensures KeyKept(Advance(m, w).0, k) {
        NoClaimKeepsKeys(cfg, m, w, k);
      }
      QuieterVecOk(cfg, base, log, m, Advance(m, w).0);
    } else {
      ClaimKeepsVecOk(cfg, base, log, m, w, m.flights[w].write.key, m.flights[w].write.vector);
    }
  }

  // --- acknowledged inserts

  ghost predicate AckHeld(s: Store, k: Key, v: Vector) {
    k in s.ids && s.ids[k] < |s.slots| && s.slots[s.ids[k]].vector == v
  }

  lemma AdvanceKeepsAck(cfg: Setup, base: seq<Slot>, m: Memory, w: nat, k: Key, v: Vector)
    requires MemOk(cfg, base, m) && w in m.flights && AckHeld(m.store, k, v)
    ensures AckHeld(Advance(m, w).0.store, k, v)
  {
    assert FlightOk(m.store, m.flights[w]) && Leads(m.store, k);
    if m.flights[w].write.Mark? {
      MarkedSame(m.store, m.flights[w].write.key, m.flights[w].write.deleted);
    }
  }

  lemma AnsweredIsHeld(cfg: Setup, base: seq<Slot>, m: Memory, w: nat)
    requires MemOk(cfg, base, m) && w in m.flights && m.flights[w].write.Insert? && Advance(m, w).1 == Some(Ok)
    ensures AckHeld(Advance(m, w).0.store, m.flights[w].write.key, m.flights[w].write.vector)
  {
    assert FlightOk(m.store, m.flights[w]);
    assert Active(m, w, m.flights[w].write.key, m.flights[w].write.vector);
  }
}
