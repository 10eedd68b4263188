/** How slots and label map appear as the table of keys that the atomic system speaks of, as long as
    no label is on two slots. */
module SlotShown {
  import opened KeyTable
  import opened Options
  import opened WalFormat
  import opened Replay
  import opened SlotStore
  import opened LabelRace
  import opened DurableSlots
  import D = Durable

  ghost predicate SlotShown(cfg: Setup, s: Slot, t: Table) {
    s.key in t.entries && s.vector == cfg.prepare(t.entries[s.key].vector) && s.deleted == t.entries[s.key].deleted
  }

  /** The table lists the slots by label, with the vectors as they were given. */
  ghost predicate Shown(cfg: Setup, slots: seq<Slot>, t: Table) {
    && t.dim == cfg.dim && t.capacity == cfg.capacity && |t.entries| == |slots| && DistinctLabels(slots)
    && (forall i :: 0 <= i < |slots| ==> SlotShown(cfg, slots[i], t))
    && (forall k :: k in t.entries ==> HasKey(slots, k))
  }

  lemma ShownKey(cfg: Setup, slots: seq<Slot>, t: Table, k: Key)
    requires Shown(cfg, slots, t)
    ensures k in t.entries <==> HasKey(slots, k)
  {
    if HasKey(slots, k) {
      var i :| 0 <= i < |slots| && slots[i].key == k;
      assert SlotShown(cfg, slots[i], t);
    }
  }

  lemma EmptyShown(cfg: Setup)
    ensures Shown(cfg, [], Empty(cfg.dim, cfg.capacity))
  {
  }

  lemma MapGrows(m: map<Key, Entry>, k: Key, e: Entry)
    ensures |m[k := e]| == if k in m then |m| else |m| + 1
  {
    var m' := m[k := e];
    assert |m| == |m.Keys| && |m'| == |m'.Keys|;
    if k in m {
      assert m'.Keys == m.Keys;
    } else {
      assert m'.Keys == m.Keys + {k};
    }
  }

  /** A new slot and a new entry. */
  lemma ShownMore(cfg: Setup, slots: seq<Slot>, t: Table, k: Key, v: Vector)
    requires Shown(cfg, slots, t) && k !in t.entries
    ensures Shown(cfg, slots + [Slot(k, cfg.prepare(v), false)], t.(entries := t.entries[k := Entry(v, false)]))
  {
    var s := Slot(k, cfg.prepare(v), false);
    var slots', t' := slots + [s], t.(entries := t.entries[k := Entry(v, false)]);
    MapGrows(t.entries, k, Entry(v, false));
    ShownKey(cfg, slots, t, k);
    ClaimDistinct(slots, s);
    forall i | 0 <= i < |slots'| ensures SlotShown(cfg, slots'[i], t') {
      if i < |slots| {
        assert SlotShown(cfg, slots[i], t) && slots[i].key != k;
      }
    }
    forall x | x in t'.entries ensures HasKey(slots', x) {
      if x == k {
        assert slots'[|slots|].key == k;
      } else {
        var i :| 0 <= i < |slots| && slots[i].key == x;
        assert slots'[i].key == x;
      }
    }
  }

  /** A flipped tombstone. */
  lemma ShownFlag(cfg: Setup, slots: seq<Slot>, t: Table, id: nat, flag: bool)
    requires Shown(cfg, slots, t) && id < |slots|
    ensures slots[id].key in t.entries
    ensures Shown(cfg, slots[id := slots[id].(deleted := flag)],
                  t.(entries := t.entries[slots[id].key := t.entries[slots[id].key].(deleted := flag)]))
  {
    assert SlotShown(cfg, slots[id], t);
    var k := slots[id].key;
    var e := t.entries[k].(deleted := flag);
    var slots', t' := slots[id := slots[id].(deleted := flag)], t.(entries := t.entries[k := e]);
    MapGrows(t.entries, k, e);
    forall i, j | 0 <= i < j < |slots'| ensures slots'[i].key != slots'[j].key {
      assert slots[i].key != slots[j].key;
    }
    forall i | 0 <= i < |slots'| ensures SlotShown(cfg, slots'[i], t') {
      assert SlotShown(cfg, slots[i], t);
      if i != id {
        assert slots[i].key != k;
      }
    }
    forall x | x in t'.entries ensures HasKey(slots', x) {
      var i :| 0 <= i < |slots| && slots[i].key == x;
      assert slots'[i].key == x;
    }
  }

  /** A mark of a label that the map leads to its slot. */
  lemma MarkShown(cfg: Setup, s: Store, t: Table, k: Key, flag: bool)
    requires Shown(cfg, s.slots, t) && Leads(s, k)
    ensures Shown(cfg, Marked(s, k, flag).0.slots, SetDeleted(t, k, flag).table)
    ensures Marked(s, k, flag).1 == SetDeleted(t, k, flag).outcome
  {
    assert SlotShown(cfg, s.slots[s.ids[k]], t);
    ShownFlag(cfg, s.slots, t, s.ids[k], flag);
  }

  // --- replay

  lemma InverseKey(s: Store, k: Key)
    requires Inverse(s)
    ensures k in s.ids <==> HasKey(s.slots, k)
  {
    if k in s.ids {
      assert Leads(s, k);
    }
    if i :| 0 <= i < |s.slots| && s.slots[i].key == k {
      assert s.slots[i].key in s.ids;
    }
  }

  lemma MarkedInverse(s: Store, k: Key, flag: bool)
    requires Inverse(s)
    ensures Inverse(Marked(s, k, flag).0)
  {
    var s' := Marked(s, k, flag).0;
    assert forall i :: 0 <= i < |s.slots| ==> s'.slots[i].key == s.slots[i].key;
    forall x | x in s'.ids ensures Leads(s', x) {
      assert Leads(s, x);
    }
  }

  lemma AddedInverse(s: Store, k: Key, v: Vector)
    requires Inverse(s) && k !in s.ids
    ensures Inverse(Labelled(Claimed(s, k, v), k, |s.slots|))
  {
    var s' := Labelled(Claimed(s, k, v), k, |s.slots|);
    forall x | x in s'.ids ensures Leads(s', x) {
      assert x != k ==> Leads(s, x);
    }
    forall i | 0 <= i < |s'.slots| ensures s'.slots[i].key in s'.ids && s'.ids[s'.slots[i].key] == i {
      assert i < |s.slots| ==> s.slots[i].key in s.ids && s.ids[s.slots[i].key] == i;
    }
  }

  ghost predicate StoreShown(cfg: Setup, s: Store, t: Table) {
    s.dim == cfg.dim && s.capacity == cfg.capacity && Shown(cfg, s.slots, t) && Inverse(s)
  }

  lemma RedoneMarkShown(cfg: Setup, s: Store, t: Table, k: Key, flag: bool)
    requires StoreShown(cfg, s, t)
    ensures StoreShown(cfg, Marked(s, k, flag).0, SetDeleted(t, k, flag).table)
  {
    MarkedInverse(s, k, flag);
    InverseKey(s, k);
    ShownKey(cfg, s.slots, t, k);
    if k in s.ids {
      assert Leads(s, k);
      MarkShown(cfg, s, t, k, flag);
    }
  }

  lemma RedoneAddShown(cfg: Setup, s: Store, t: Table, k: Key, v: Vector)
    requires KeepsLength(cfg) && StoreShown(cfg, s, t)
    ensures k in s.ids <==> k in t.entries
    ensures k !in s.ids ==> StoreShown(cfg, Labelled(Claimed(s, k, cfg.prepare(v)), k, |s.slots|),
                                       t.(entries := t.entries[k := Entry(v, false)]))
  {
    InverseKey(s, k);
    ShownKey(cfg, s.slots, t, k);
    if k !in s.ids {
      AddedInverse(s, k, cfg.prepare(v));
      ShownMore(cfg, s.slots, t, k, v);
    }
  }

  /** Replaying one record into the slots is replaying it into the table. */
  lemma RedoneShown(cfg: Setup, s: Store, t: Table, r: Record)
    requires KeepsLength(cfg) && KnownOp(r.op) && StoreShown(cfg, s, t)
    ensures Redone(s, WriteOf(cfg, r)).Some? <==> ApplyRecord(t, r).Some?
    ensures Redone(s, WriteOf(cfg, r)).Some? ==> StoreShown(cfg, Redone(s, WriteOf(cfg, r)).value, ApplyRecord(t, r).value)
  {
    if r.op != OP_ADD {
      RedoneMarkShown(cfg, s, t, r.key, r.op == OP_MARK_DELETED);
      assert ApplyRecord(t, r) == Some(SetDeleted(t, r.key, r.op == OP_MARK_DELETED).table);
    } else {
      var k, v := r.key, r.vector;
      RedoneAddShown(cfg, s, t, k, v);
      if |v| != cfg.dim || (k !in s.ids && |s.slots| >= s.capacity) {
        assert Redone(s, WriteOf(cfg, r)) == None && ApplyRecord(t, r) == None;
      } else if k in s.ids {
        assert Redone(s, WriteOf(cfg, r)) == Some(s) && ApplyRecord(t, r) == Some(t);
      } else {
        assert Redone(s, WriteOf(cfg, r)) == Some(Labelled(Claimed(s, k, cfg.prepare(v)), k, |s.slots|));
        assert ApplyRecord(t, r) == Some(t.(entries := t.entries[k := Entry(v, false)]));
      }
    }
  }

  lemma {:induction false} ReplayShown(cfg: Setup, s: Store, t: Table, rs: seq<Record>)
    requires KeepsLength(cfg) && OpsKnown(rs) && StoreShown(cfg, s, t)
    ensures ReplayAll(cfg, s, rs).Some? <==> ApplyAll(t, rs).Some?
    ensures ReplayAll(cfg, s, rs).Some? ==> StoreShown(cfg, ReplayAll(cfg, s, rs).value, ApplyAll(t, rs).value)
    decreases |rs|
  {
    if rs != [] {
      assert rs[0] in rs && OpsKnown(rs[1..]);
      RedoneShown(cfg, s, t, rs[0]);
      if Redone(s, WriteOf(cfg, rs[0])).Some? {
        ReplayShown(cfg, Redone(s, WriteOf(cfg, rs[0])).value, ApplyRecord(t, rs[0]).value, rs[1..]);
      }
    }
  }

  /** Stores that one table shows answer alike. */
  lemma SameTableSameAnswers(cfg: Setup, a: Store, b: Store, t: Table, k: Key)
    requires StoreShown(cfg, a, t) && StoreShown(cfg, b, t)
    ensures EntryOf(a, k) == EntryOf(b, k)
  {
    AnswerShown(cfg, a, t, k);
    AnswerShown(cfg, b, t, k);
  }

  lemma AnswerShown(cfg: Setup, s: Store, t: Table, k: Key)
    requires StoreShown(cfg, s, t)
    ensures EntryOf(s, k) == if k in t.entries then Some(Entry(cfg.prepare(t.entries[k].vector), t.entries[k].deleted)) else None
  {
    InverseKey(s, k);
    ShownKey(cfg, s.slots, t, k);
    if k in s.ids {
      assert Leads(s, k) && SlotShown(cfg, s.slots[s.ids[k]], t);
    }
  }

  // --- writers under way

  /** No delete of a label is under way together with an insert of it while it is absent. */
  ghost predicate NoRacingDelete(m: Memory) {
    forall u, w, k :: Inserting(m.flights, u, k) && w in m.flights && m.flights[w].write == Mark(k, true) ==> k in m.store.ids
  }

  ghost predicate FlightShown(cfg: Setup, s: Store, f: Flight) {
    && (f.step == Checked ==> f.write.Insert? && |f.write.vector| == cfg.dim)
    && (f.step.HasSlot? ==> f.write.Insert? && f.step.id < |s.slots|
                            && s.slots[f.step.id] == Slot(f.write.key, f.write.vector, false))
  }

  /** The atomic system's writers in flight are those without a slot. */
  ghost predicate FlightsShown(cfg: Setup, m: Memory, inFlight: map<nat, Record>) {
    && (forall w :: w in inFlight <==> w in m.flights && !m.flights[w].step.HasSlot?)
    && (forall w :: w in inFlight ==> KnownOp(inFlight[w].op) && m.flights[w].write == WriteOf(cfg, inFlight[w]))
    && (forall w :: w in m.flights ==> FlightShown(cfg, m.store, m.flights[w]))
  }

  ghost predicate MemShown(cfg: Setup, m: Memory, t: Table, inFlight: map<nat, Record>) {
    && m.store.dim == cfg.dim && m.store.capacity == cfg.capacity && Shown(cfg, m.store.slots, t)
    && Inv(m) && AllExclusive(m) && NoRacingDelete(m) && FlightsShown(cfg, m, inFlight)
  }

  /** Two writes of one label whose order shows, with the real steps: any two inserts, or an insert
      and a delete, of an absent label; a delete and an undelete of a present one. */
  ghost predicate RealClash(present: bool, a: Write, b: Write) {
    || (!present && a.Insert? && b.Insert?)
    || (!present && ((a.Insert? && b.Mark? && b.deleted) || (b.Insert? && a.Mark? && a.deleted)))
    || (present && a.Mark? && b.Mark? && a.deleted != b.deleted)
  }

  ghost predicate Fitting(m: Memory, write: Write) {
    forall u :: u in m.flights && m.flights[u].write.key == write.key
      ==> !RealClash(write.key in m.store.ids, m.flights[u].write, write)
  }

  /** A label that is on a slot and not in the map is one an insert is about to enter. */
  lemma AbsentOnSlot(m: Memory, k: Key) returns (u: nat)
    requires Inv(m) && HasKey(m.store.slots, k) && k !in m.store.ids
    ensures Claims(m.flights, u, k) && Inserting(m.flights, u, k)
  {
    var i :| 0 <= i < |m.store.slots| && m.store.slots[i].key == k;
    assert SlotCovered(m, i);
    u :| Claims(m.flights, u, k);
  }

  lemma FittingIsAlone(m: Memory, w: nat, write: Write)
    requires Fitting(m, write)
    ensures Alone(m, Enter(w, write))
  {
  }

  lemma EnterNoRacingDelete(m: Memory, w: nat, write: Write)
    requires NoRacingDelete(m) && Fitting(m, write) && w !in m.flights
    ensures NoRacingDelete(LabelRace.Next(m, Enter(w, write)))
  {
    var m' := LabelRace.Next(m, Enter(w, write));
    forall u, v, k | Inserting(m'.flights, u, k) && v in m'.flights && m'.flights[v].write == Mark(k, true)
      ensures k in m'.store.ids
    {
      assert u != w ==> Inserting(m.flights, u, k);
      assert u == w ==> v in m.flights && !RealClash(k in m.store.ids, m.flights[v].write, write);
      assert v == w ==> u in m.flights && !RealClash(k in m.store.ids, m.flights[u].write, write);
    }
  }

  lemma EnterFlightsShown(cfg: Setup, m: Memory, inFlight: map<nat, Record>, w: nat, r: Record)
    requires FlightsShown(cfg, m, inFlight) && w !in m.flights && KnownOp(r.op)
    ensures FlightsShown(cfg, LabelRace.Next(m, Enter(w, WriteOf(cfg, r))), inFlight[w := r])
  {
    var m' := LabelRace.Next(m, Enter(w, WriteOf(cfg, r)));
    forall u | u in m'.flights ensures FlightShown(cfg, m'.store, m'.flights[u]) {
      assert u != w ==> FlightShown(cfg, m.store, m.flights[u]);
    }
  }

  lemma EnterShown(cfg: Setup, m: Memory, t: Table, inFlight: map<nat, Record>, w: nat, r: Record)
    requires MemShown(cfg, m, t, inFlight) && w !in m.flights && KnownOp(r.op) && Fitting(m, WriteOf(cfg, r))
    ensures MemShown(cfg, LabelRace.Next(m, Enter(w, WriteOf(cfg, r))), t, inFlight[w := r])
  {
    var write := WriteOf(cfg, r);
    FittingIsAlone(m, w, write);
    StepKeepsInv(m, Enter(w, write));
    StepKeepsExclusive(m, Enter(w, write));
    EnterNoRacingDelete(m, w, write);
    EnterFlightsShown(cfg, m, inFlight, w, r);
  }

  /** A step in which the atomic system does nothing: the check passes, or the label is entered. */
  ghost predicate Stutters(m: Memory, w: nat) {
    w in m.flights && m.flights[w].write.Insert? &&
      (m.flights[w].step.HasSlot?
       || (m.flights[w].step == Entered && |m.flights[w].write.vector| == m.store.dim && m.flights[w].write.key !in m.store.ids))
  }

  lemma StutterNoRacingDelete(m: Memory, w: nat)
    requires NoRacingDelete(m) && Stutters(m, w)
    ensures NoRacingDelete(Advance(m, w).0)
  {
    var m' := Advance(m, w).0;
    forall u, v, k | Inserting(m'.flights, u, k) && v in m'.flights && m'.flights[v].write == Mark(k, true)
      ensures k in m'.store.ids
    {
      assert Inserting(m.flights, u, k);
    }
  }

  lemma StutterFlightsShown(cfg: Setup, m: Memory, inFlight: map<nat, Record>, w: nat)
    requires FlightsShown(cfg, m, inFlight) && Stutters(m, w) && m.store.dim == cfg.dim
    ensures FlightsShown(cfg, Advance(m, w).0, inFlight)
  {
    var m' := Advance(m, w).0;
    assert m'.store.slots == m.store.slots;
    forall u | u in m'.flights ensures FlightShown(cfg, m'.store, m'.flights[u]) {
      assert FlightShown(cfg, m.store, m.flights[u]);
    }
  }

  lemma StutterShown(cfg: Setup, m: Memory, t: Table, inFlight: map<nat, Record>, w: nat)
    requires MemShown(cfg, m, t, inFlight) && Stutters(m, w)
    ensures MemShown(cfg, Advance(m, w).0, t, inFlight)
  {
    StepKeepsInv(m, Go(w));
    StepKeepsExclusive(m, Go(w));
    StutterNoRacingDelete(m, w);
    StutterFlightsShown(cfg, m, inFlight, w);
    assert Advance(m, w).0.store.slots == m.store.slots;
  }

  /** What is left when a writer leaves without a slot. */
  lemma LeftShown(cfg: Setup, m: Memory, m': Memory, inFlight: map<nat, Record>, w: nat)
    requires FlightsShown(cfg, m, inFlight) && NoRacingDelete(m) && w in inFlight
    requires m'.flights == m.flights - {w} && m'.store.ids == m.store.ids && |m'.store.slots| == |m.store.slots|
    requires forall u :: u in m'.flights && m'.flights[u].step.HasSlot? && m'.flights[u].step.id < |m.store.slots| ==>
               m'.store.slots[m'.flights[u].step.id] == m.store.slots[m'.flights[u].step.id]
    ensures FlightsShown(cfg, m', inFlight - {w}) && NoRacingDelete(m')
  {
    forall u, v, k | Inserting(m'.flights, u, k) && v in m'.flights && m'.flights[v].write == Mark(k, true)
      ensures k in m'.store.ids
    {
      assert Inserting(m.flights, u, k);
    }
    forall u | u in m'.flights ensures FlightShown(cfg, m'.store, m'.flights[u]) {
      assert FlightShown(cfg, m.store, m.flights[u]);
    }
  }

  /** A mark, in slots and in the table. */
  lemma MarkStepShown(cfg: Setup, m: Memory, t: Table, inFlight: map<nat, Record>, w: nat, k: Key, flag: bool)
    requires MemShown(cfg, m, t, inFlight) && w in inFlight && m.flights[w].write == Mark(k, flag)
    ensures Shown(cfg, Marked(m.store, k, flag).0.slots, SetDeleted(t, k, flag).table)
    ensures k !in m.store.ids ==> Marked(m.store, k, flag).0 == m.store
  {
    ShownKey(cfg, m.store.slots, t, k);
    if k in m.store.ids {
      assert Leads(m.store, k);
      MarkShown(cfg, m.store, t, k, flag);
    } else if k in t.entries {
      var u := AbsentOnSlot(m, k);
      assert FlightShown(cfg, m.store, m.flights[u]);
      assert SlotShown(cfg, m.store.slots[m.flights[u].step.id], t);
    }
  }

  /** The slot of an insert under way is not one a mark can reach. */
  lemma MarkSparesClaims(cfg: Setup, m: Memory, t: Table, inFlight: map<nat, Record>, k: Key, flag: bool, u: nat)
    requires MemShown(cfg, m, t, inFlight) && u in m.flights && m.flights[u].step.HasSlot?
    ensures m.flights[u].step.id < |m.store.slots|
    ensures Marked(m.store, k, flag).0.slots[m.flights[u].step.id] == m.store.slots[m.flights[u].step.id]
  {
    assert FlightShown(cfg, m.store, m.flights[u]);
    var x := m.flights[u].write.key;
    assert Inserting(m.flights, u, x) && Exclusive(m.store.ids, m.flights, u, x);
    if k in m.store.ids {
      assert Leads(m.store, k);
    }
  }

  lemma MarkFlightsShown(cfg: Setup, m: Memory, t: Table, inFlight: map<nat, Record>, w: nat, k: Key, flag: bool)
    requires MemShown(cfg, m, t, inFlight) && w in inFlight && m.flights[w].write == Mark(k, flag)
    ensures FlightsShown(cfg, Advance(m, w).0, inFlight - {w}) && NoRacingDelete(Advance(m, w).0)
    ensures Advance(m, w).0.store == Marked(m.store, k, flag).0
  {
    var m' := Advance(m, w).0;
    forall u | u in m'.flights && m'.flights[u].step.HasSlot? && m'.flights[u].step.id < |m.store.slots|
      ensures m'.store.slots[m'.flights[u].step.id] == m.store.slots[m'.flights[u].step.id]
    {
      MarkSparesClaims(cfg, m, t, inFlight, k, flag, u);
    }
    LeftShown(cfg, m, m', inFlight, w);
  }

  lemma MarkAdvanceShown(cfg: Setup, m: Memory, t: Table, inFlight: map<nat, Record>, w: nat, k: Key, flag: bool)
    requires MemShown(cfg, m, t, inFlight) && w in inFlight && m.flights[w].write == Mark(k, flag)
    ensures MemShown(cfg, Advance(m, w).0, SetDeleted(t, k, flag).table, inFlight - {w})
  {
    StepKeepsInv(m, Go(w));
    StepKeepsExclusive(m, Go(w));
    MarkStepShown(cfg, m, t, inFlight, w, k, flag);
    MarkFlightsShown(cfg, m, t, inFlight, w, k, flag);
  }

  /** A checked insert's label is on no slot. */
  lemma CheckedIsNew(m: Memory, w: nat, k: Key)
    requires Inv(m) && AllExclusive(m) && Inserting(m.flights, w, k) && m.flights[w].step == Checked
    ensures k !in m.store.ids && !HasKey(m.store.slots, k)
  {
    assert Exclusive(m.store.ids, m.flights, w, k);
    if HasKey(m.store.slots, k) {
      var u := AbsentOnSlot(m, k);
    }
  }

  lemma ClaimFlightsShown(cfg: Setup, m: Memory, inFlight: map<nat, Record>, w: nat)
    requires FlightsShown(cfg, m, inFlight) && NoRacingDelete(m) && w in inFlight
    requires m.flights[w].step == Checked && |m.store.slots| < m.store.capacity
    ensures FlightsShown(cfg, Advance(m, w).0, inFlight - {w}) && NoRacingDelete(Advance(m, w).0)
  {
    var m' := Advance(m, w).0;
    assert FlightShown(cfg, m.store, m.flights[w]);
    forall u, v, x | Inserting(m'.flights, u, x) && v in m'.flights && m'.flights[v].write == Mark(x, true)
      ensures x in m'.store.ids
    {
      assert Inserting(m.flights, u, x);
    }
    forall u | u in m'.flights ensures FlightShown(cfg, m'.store, m'.flights[u]) {
      assert FlightShown(cfg, m.store, m.flights[u]);
    }
  }

  lemma ClaimShown(cfg: Setup, m: Memory, t: Table, inFlight: map<nat, Record>, w: nat, r: Record)
    requires MemShown(cfg, m, t, inFlight) && w in inFlight && inFlight[w] == r && r.op == OP_ADD
    requires m.flights[w].step == Checked && |m.store.slots| < m.store.capacity
    ensures r.key !in t.entries
    ensures MemShown(cfg, Advance(m, w).0, t.(entries := t.entries[r.key := Entry(r.vector, false)]), inFlight - {w})
  {
    StepKeepsInv(m, Go(w));
    StepKeepsExclusive(m, Go(w));
    assert Inserting(m.flights, w, r.key);
    CheckedIsNew(m, w, r.key);
    ShownKey(cfg, m.store.slots, t, r.key);
    ShownMore(cfg, m.store.slots, t, r.key, r.vector);
    ClaimFlightsShown(cfg, m, inFlight, w);
  }

  /** A writer that leaves without changing anything. */
  lemma RefusedShown(cfg: Setup, m: Memory, t: Table, inFlight: map<nat, Record>, w: nat)
    requires MemShown(cfg, m, t, inFlight) && w in inFlight && Advance(m, w).0 == Left(m, w)
    ensures MemShown(cfg, Advance(m, w).0, t, inFlight - {w})
  {
    StepKeepsInv(m, Go(w));
    StepKeepsExclusive(m, Go(w));
    LeftShown(cfg, m, Advance(m, w).0, inFlight, w);
  }

  /** Every other step is one atomic application of the writer's record. */
  lemma AdvanceShown(cfg: Setup, m: Memory, t: Table, inFlight: map<nat, Record>, w: nat)
    requires KeepsLength(cfg) && MemShown(cfg, m, t, inFlight) && w in m.flights && !Stutters(m, w)
    ensures w in inFlight
    ensures MemShown(cfg, Advance(m, w).0, D.Effect(t, inFlight[w]).table, inFlight - {w})
  {
    assert FlightShown(cfg, m.store, m.flights[w]);
    var r := inFlight[w];
    if r.op != OP_ADD {
      MarkAdvanceShown(cfg, m, t, inFlight, w, r.key, r.op == OP_MARK_DELETED);
    } else {
      InsertAdvanceShown(cfg, m, t, inFlight, w, r);
    }
  }

  lemma InsertAdvanceShown(cfg: Setup, m: Memory, t: Table, inFlight: map<nat, Record>, w: nat, r: Record)
    requires KeepsLength(cfg) && MemShown(cfg, m, t, inFlight) && w in inFlight && inFlight[w] == r && r.op == OP_ADD
    requires !Stutters(m, w)
    ensures MemShown(cfg, Advance(m, w).0, Add(t, r.key, r.vector).table, inFlight - {w})
  {
    assert FlightShown(cfg, m.store, m.flights[w]) && Inserting(m.flights, w, r.key);
    ShownKey(cfg, m.store.slots, t, r.key);
    if m.flights[w].step == Checked && |m.store.slots| < m.store.capacity {
      ClaimShown(cfg, m, t, inFlight, w, r);
    } else {
      RefusedShown(cfg, m, t, inFlight, w);
      if m.flights[w].step == Checked {
        CheckedIsNew(m, w, r.key);
      } else if r.key in m.store.ids {
        assert Leads(m.store, r.key);
      }
    }
  }
}
