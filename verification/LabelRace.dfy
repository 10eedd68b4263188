/** Concurrent insertions and label operations. addPoint looks its label up under the label lock,
    releases the lock, claims a slot, and enters the label into the map under a second
    acquisition. Any number of writers, any interleaving of these steps. */
module LabelRace {
  import opened KeyTable
  import opened Options
  import opened SlotStore

  /** How far a writer is. A mark is one step; an insert checks, claims and labels. */
  datatype Step = Entered | Checked | HasSlot(id: nat)

  datatype Flight = Flight(write: Write, step: Step)

  type Flights = map<nat, Flight>

  datatype Memory = Memory(store: Store, flights: Flights)

  function Left(m: Memory, w: nat): Memory {
    m.(flights := m.flights - {w})
  }

  function Moved(m: Memory, w: nat, step: Step): Memory
    requires w in m.flights
  {
    m.(flights := m.flights[w := m.flights[w].(step := step)])
  }

  /** addPoint's next step for writer w, and its answer if that was the last one. */
  function AdvanceInsert(m: Memory, w: nat, k: Key, v: Vector): (Memory, Option<Outcome>)
    requires w in m.flights
  {
    var s := m.store;
    match m.flights[w].step
    case Entered =>
      if |v| != s.dim then (Left(m, w), Some(WrongDimension))
      else if k in s.ids then (Left(m, w), Some(Duplicate))
      else (Moved(m, w, Checked), None)
    case Checked =>
      if |s.slots| >= s.capacity then (Left(m, w), Some(Full))
      else (Moved(m.(store := Claimed(s, k, v)), w, HasSlot(|s.slots|)), None)
    case HasSlot(id) => (Left(m.(store := Labelled(s, k, id)), w), Some(Ok))
  }

  function Advance(m: Memory, w: nat): (Memory, Option<Outcome>) {
    if w !in m.flights then (m, None)
    else match m.flights[w].write
      case Mark(k, flag) =>
        var (s, o) := Marked(m.store, k, flag);
        (Left(m.(store := s), w), Some(o))
      case Insert(k, v) => AdvanceInsert(m, w, k, v)
  }

  datatype Event = Enter(w: nat, write: Write) | Go(w: nat)

  function Next(m: Memory, e: Event): Memory {
    match e
    case Enter(w, write) => if w in m.flights then m else m.(flights := m.flights[w := Flight(write, Entered)])
    case Go(w) => Advance(m, w).0
  }

  function Exec(m: Memory, events: seq<Event>): Memory
    decreases |events|
  {
    if events == [] then m else Exec(Next(m, events[0]), events[1..])
  }

  /** The step gives a second slot to a key. */
  ghost predicate Doubles(m: Memory, e: Event) {
    && e.Go? && e.w in m.flights && m.flights[e.w].write.Insert? && m.flights[e.w].step == Checked
    && |m.store.slots| < m.store.capacity && HasKey(m.store.slots, m.flights[e.w].write.key)
  }

  ghost predicate NeverDoubles(m: Memory, events: seq<Event>)
    decreases |events|
  {
    events == [] || (!Doubles(m, events[0]) && NeverDoubles(Next(m, events[0]), events[1..]))
  }

  /** A writer has claimed slot i for its label and not entered it into the map yet. */
  ghost predicate Claims(flights: Flights, w: nat, k: Key) {
    w in flights && flights[w].write.Insert? && flights[w].step.HasSlot? && flights[w].write.key == k
  }

  ghost predicate SlotCovered(m: Memory, i: nat)
    requires i < |m.store.slots|
  {
    m.store.slots[i].key in m.store.ids || exists w :: Claims(m.flights, w, m.store.slots[i].key)
  }

  ghost predicate FlightOk(s: Store, f: Flight) {
    f.step.HasSlot? ==> f.write.Insert? && f.step.id < |s.slots| && s.slots[f.step.id].key == f.write.key
  }

  /** What holds in every interleaving: the map leads to slots with the right label, and every slot's
      label is in the map or about to be. */
  ghost predicate Inv(m: Memory) {
    && MapOk(m.store)
    && (forall i: nat :: i < |m.store.slots| ==> SlotCovered(m, i))
    && (forall w :: w in m.flights ==> FlightOk(m.store, m.flights[w]))
  }

  lemma LeavingKeepsInv(m: Memory, w: nat)
    requires Inv(m) && w in m.flights && !m.flights[w].step.HasSlot?
    ensures Inv(Left(m, w))
  {
    var m' := Left(m, w);
    forall i: nat | i < |m'.store.slots| ensures SlotCovered(m', i) {
      assert SlotCovered(m, i);
      if u :| Claims(m.flights, u, m.store.slots[i].key) {
        assert Claims(m'.flights, u, m.store.slots[i].key);
      }
    }
  }

  lemma MarkKeepsInv(m: Memory, k: Key, flag: bool)
    requires Inv(m)
    ensures Inv(m.(store := Marked(m.store, k, flag).0))
  {
    var m' := m.(store := Marked(m.store, k, flag).0);
    assert forall i :: 0 <= i < |m.store.slots| ==> m'.store.slots[i].key == m.store.slots[i].key;
    forall x | x in m'.store.ids ensures Leads(m'.store, x) {
      assert Leads(m.store, x);
    }
    forall i: nat | i < |m'.store.slots| ensures SlotCovered(m', i) {
      assert SlotCovered(m, i);
    }
    forall u | u in m'.flights ensures FlightOk(m'.store, m'.flights[u]) {
      assert FlightOk(m.store, m.flights[u]);
    }
  }

  lemma ClaimKeepsInv(m: Memory, w: nat, k: Key, v: Vector)
    requires Inv(m) && w in m.flights && m.flights[w].write == Insert(k, v) && !m.flights[w].step.HasSlot?
    ensures Inv(Moved(m.(store := Claimed(m.store, k, v)), w, HasSlot(|m.store.slots|)))
  {
    var m' := Moved(m.(store := Claimed(m.store, k, v)), w, HasSlot(|m.store.slots|));
    forall x | x in m'.store.ids ensures Leads(m'.store, x) {
      assert Leads(m.store, x);
    }
    assert Claims(m'.flights, w, k);
    forall i: nat | i < |m'.store.slots| ensures SlotCovered(m', i) {
      if i < |m.store.slots| {
        assert SlotCovered(m, i);
        if u :| Claims(m.flights, u, m.store.slots[i].key) {
          assert Claims(m'.flights, u, m.store.slots[i].key);
        }
      }
    }
    forall u | u in m'.flights ensures FlightOk(m'.store, m'.flights[u]) {
      assert FlightOk(m.store, m.flights[u]);
    }
  }

  lemma LabelKeepsInv(m: Memory, w: nat, k: Key, v: Vector, id: nat)
    requires Inv(m) && w in m.flights && m.flights[w] == Flight(Insert(k, v), HasSlot(id))
    ensures Inv(Left(m.(store := Labelled(m.store, k, id)), w))
  {
    var m' := Left(m.(store := Labelled(m.store, k, id)), w);
    assert FlightOk(m.store, m.flights[w]);
    forall x | x in m'.store.ids ensures Leads(m'.store, x) {
      assert x != k ==> Leads(m.store, x);
    }
    forall i: nat | i < |m'.store.slots| ensures SlotCovered(m', i) {
      assert SlotCovered(m, i);
      if u :| Claims(m.flights, u, m.store.slots[i].key) && m.store.slots[i].key != k {
        assert Claims(m'.flights, u, m.store.slots[i].key);
      }
    }
    forall u | u in m'.flights ensures FlightOk(m'.store, m'.flights[u]) {
      assert FlightOk(m.store, m.flights[u]);
    }
  }

  lemma MovedKeepsInv(m: Memory, w: nat)
    requires Inv(m) && w in m.flights && !m.flights[w].step.HasSlot?
    ensures Inv(Moved(m, w, Checked))
  {
    var m' := Moved(m, w, Checked);
    forall i: nat | i < |m'.store.slots| ensures SlotCovered(m', i) {
      assert SlotCovered(m, i);
      if u :| Claims(m.flights, u, m.store.slots[i].key) {
        assert Claims(m'.flights, u, m.store.slots[i].key);
      }
    }
  }

  lemma EnterKeepsInv(m: Memory, w: nat, write: Write)
    requires Inv(m) && w !in m.flights
    ensures Inv(m.(flights := m.flights[w := Flight(write, Entered)]))
  {
    var m' := m.(flights := m.flights[w := Flight(write, Entered)]);
    forall i: nat | i < |m'.store.slots| ensures SlotCovered(m', i) {
      assert SlotCovered(m, i);
      if u :| Claims(m.flights, u, m.store.slots[i].key) {
        assert Claims(m'.flights, u, m.store.slots[i].key);
      }
    }
  }

  lemma StepKeepsInv(m: Memory, e: Event)
    requires Inv(m)
    ensures Inv(Next(m, e))
  {
    match e {
      case Enter(w, write) =>
        if w !in m.flights {
          EnterKeepsInv(m, w, write);
        }
      case Go(w) =>
        if w in m.flights {
          AdvanceKeepsInv(m, w);
        }
    }
  }

  lemma AdvanceKeepsInv(m: Memory, w: nat)
    requires Inv(m) && w in m.flights
    ensures Inv(Advance(m, w).0)
  {
    assert FlightOk(m.store, m.flights[w]);
    match m.flights[w].write {
      case Mark(k, flag) =>
        MarkKeepsInv(m, k, flag);
        LeavingKeepsInv(m.(store := Marked(m.store, k, flag).0), w);
      case Insert(k, v) =>
        match m.flights[w].step {
          case Entered =>
            LeavingKeepsInv(m, w);
            MovedKeepsInv(m, w);
          case Checked =>
            LeavingKeepsInv(m, w);
            ClaimKeepsInv(m, w, k, v);
          case HasSlot(id) => LabelKeepsInv(m, w, k, v, id);
        }
    }
  }

  /** Labels stay distinct in a step if and only if it does not give a key a second slot. */
  lemma StepKeepsDistinct(m: Memory, e: Event)
    ensures DistinctLabels(Next(m, e).store.slots) <==> DistinctLabels(m.store.slots) && !Doubles(m, e)
  {
    var before, after := m.store.slots, Next(m, e).store.slots;
    if Grows(m, e) {
      ClaimDistinct(before, after[|before|]);
      assert after == before + [after[|before|]];
    } else {
      SameLabels(m, e);
    }
  }

  ghost predicate Grows(m: Memory, e: Event) {
    && e.Go? && e.w in m.flights && m.flights[e.w].write.Insert? && m.flights[e.w].step == Checked
    && |m.store.slots| < m.store.capacity
  }

  lemma SameLabels(m: Memory, e: Event)
    requires !Grows(m, e)
    ensures var before, after := m.store.slots, Next(m, e).store.slots;
      |after| == |before| && forall i :: 0 <= i < |before| ==> after[i].key == before[i].key
  {
  }

  lemma ClaimDistinct(slots: seq<Slot>, s: Slot)
    ensures DistinctLabels(slots + [s]) <==> DistinctLabels(slots) && !HasKey(slots, s.key)
  {
    var more := slots + [s];
    if DistinctLabels(more) {
      forall i, j | 0 <= i < j < |slots| ensures slots[i].key != slots[j].key {
        assert more[i].key != more[j].key;
      }
      forall i | 0 <= i < |slots| ensures slots[i].key != s.key {
        assert more[i].key != more[|slots|].key;
      }
    }
  }

  lemma {:induction false} RunDistinct(m: Memory, events: seq<Event>)
    requires Inv(m)
    ensures Inv(Exec(m, events))
    ensures DistinctLabels(Exec(m, events).store.slots) <==> DistinctLabels(m.store.slots) && NeverDoubles(m, events)
    decreases |events|
  {
    if events != [] {
      StepKeepsInv(m, events[0]);
      StepKeepsDistinct(m, events[0]);
      RunDistinct(Next(m, events[0]), events[1..]);
    }
  }

  /** With nobody under way, the map is the inverse of the labels exactly if no label is on two slots. */
  lemma QuietInverse(m: Memory)
    requires Inv(m) && m.flights == map[]
    ensures Inverse(m.store) <==> DistinctLabels(m.store.slots)
  {
    if DistinctLabels(m.store.slots) {
      forall i | 0 <= i < |m.store.slots| ensures m.store.slots[i].key in m.store.ids && m.store.ids[m.store.slots[i].key] == i {
        assert SlotCovered(m, i);
        assert Leads(m.store, m.store.slots[i].key);
      }
    } else {
      var i, j :| 0 <= i < j < |m.store.slots| && m.store.slots[i].key == m.store.slots[j].key;
    }
  }

  /** Over every interleaving of inserts and marks, from an index whose label map is the inverse of its
      labels: once all writers are done it is so again if and only if no step gave a second slot to
      a key. */
  lemma InverseIffNeverDoubles(s: Store, events: seq<Event>)
    requires Inverse(s) && Exec(Memory(s, map[]), events).flights == map[]
    ensures Inverse(Exec(Memory(s, map[]), events).store) <==> NeverDoubles(Memory(s, map[]), events)
  {
    var m := Memory(s, map[]);
    assert Inv(m);
    InverseIsDistinct(s);
    RunDistinct(m, events);
    QuietInverse(Exec(m, events));
  }

  /** An insert of label k is under way. */
  ghost predicate Inserting(flights: Flights, w: nat, k: Key) {
    w in flights && flights[w].write.Insert? && flights[w].write.key == k
  }

  /** What is asked of the writers: no insert of an absent label while another one is under way. */
  ghost predicate Alone(m: Memory, e: Event) {
    e.Enter? && e.w !in m.flights && e.write.Insert? ==>
      e.write.key in m.store.ids || forall u :: !Inserting(m.flights, u, e.write.key)
  }

  ghost predicate AloneRun(m: Memory, events: seq<Event>)
    decreases |events|
  {
    events == [] || (Alone(m, events[0]) && AloneRun(Next(m, events[0]), events[1..]))
  }

  /** An insert past its check is of an absent label, and the only one of it. */
  ghost predicate Exclusive(ids: map<Key, nat>, flights: Flights, w: nat, k: Key) {
    Inserting(flights, w, k) ==>
      && (flights[w].step != Entered ==> k !in ids)
      && (k !in ids ==> forall u :: Inserting(flights, u, k) ==> u == w)
  }

  ghost predicate AllExclusive(m: Memory) {
    forall w, k :: Exclusive(m.store.ids, m.flights, w, k)
  }

  lemma StepKeepsExclusive(m: Memory, e: Event)
    requires AllExclusive(m) && Alone(m, e)
    ensures AllExclusive(Next(m, e))
  {
    var m' := Next(m, e);
    forall w, k ensures Exclusive(m'.store.ids, m'.flights, w, k) {
      if Inserting(m'.flights, w, k) {
        WriterKept(m, e, w, k);
        forall u | k !in m'.store.ids && Inserting(m'.flights, u, k) ensures u == w {
          WriterKept(m, e, u, k);
          assert Exclusive(m.store.ids, m.flights, w, k) && Exclusive(m.store.ids, m.flights, u, k);
        }
        assert Exclusive(m.store.ids, m.flights, w, k);
        if k in m'.store.ids && k !in m.store.ids {
          assert Inserting(m.flights, e.w, k);
        }
      }
    }
  }

  /** An insert that is under way after a step was so before, or has just entered. */
  lemma WriterKept(m: Memory, e: Event, w: nat, k: Key)
    requires Inserting(Next(m, e).flights, w, k)
    ensures Inserting(m.flights, w, k) || (e.Enter? && e.w == w && w !in m.flights && e.write.Insert? && e.write.key == k
                                          && Next(m, e).flights[w].step == Entered)
    ensures Inserting(m.flights, w, k) && Next(m, e).flights[w].step != Entered ==>
              m.flights[w].step != Entered || k !in m.store.ids
    ensures e.Enter? ==> Next(m, e).store == m.store
  {
  }

  lemma AloneNeverDoubles(m: Memory, e: Event)
    requires Inv(m) && AllExclusive(m)
    ensures !Doubles(m, e)
  {
    if Doubles(m, e) {
      var k := m.flights[e.w].write.key;
      assert Exclusive(m.store.ids, m.flights, e.w, k) && Inserting(m.flights, e.w, k);
      var i :| 0 <= i < |m.store.slots| && m.store.slots[i].key == k;
      assert SlotCovered(m, i);
      var u :| Claims(m.flights, u, k);
      assert Inserting(m.flights, u, k);
    }
  }

  /** Writers that keep to the guard never give a key a second slot. */
  lemma {:induction false} AloneRunsNeverDouble(m: Memory, events: seq<Event>)
    requires Inv(m) && AllExclusive(m) && AloneRun(m, events)
    ensures NeverDoubles(m, events)
    decreases |events|
  {
    if events != [] {
      AloneNeverDoubles(m, events[0]);
      StepKeepsInv(m, events[0]);
      StepKeepsExclusive(m, events[0]);
      AloneRunsNeverDouble(Next(m, events[0]), events[1..]);
    }
  }

  /** Two inserts of one label, both past the check. */
  ghost predicate BothChecked(m: Memory, w: nat, w': nat, k: Key, v: Vector, v': Vector) {
    && w != w' && w in m.flights && w' in m.flights
    && m.flights[w] == Flight(Insert(k, v), Checked) && m.flights[w'] == Flight(Insert(k, v'), Checked)
  }

  lemma BothGetSlots(m: Memory, w: nat, w': nat, k: Key, v: Vector, v': Vector)
    requires BothChecked(m, w, w', k, v, v') && |m.store.slots| + 2 <= m.store.capacity
    ensures var m1 := Advance(m, w).0; var m2 := Advance(m1, w').0; var m3 := Advance(m2, w); var m4 := Advance(m3.0, w');
      && m3.1 == Some(Ok) && m4.1 == Some(Ok)
      && m4.0 == Memory(Store(m.store.dim, m.store.capacity, m.store.slots + [Slot(k, v, false), Slot(k, v', false)],
                              m.store.ids[k := |m.store.slots| + 1]), m.flights - {w, w'})
  {
    var n := |m.store.slots|;
    var m1 := Advance(m, w).0;
    assert m1.store.slots == m.store.slots + [Slot(k, v, false)] && m1.flights == m.flights[w := Flight(Insert(k, v), HasSlot(n))];
    var m2 := Advance(m1, w').0;
    assert m2.store.slots == m.store.slots + [Slot(k, v, false), Slot(k, v', false)];
    assert m2.flights[w] == Flight(Insert(k, v), HasSlot(n)) && m2.flights[w'] == Flight(Insert(k, v'), HasSlot(n + 1));
    var m3 := Advance(m2, w).0;
    assert m3.flights == m2.flights - {w} && m3.store.ids == m.store.ids[k := n];
    var m4 := Advance(m3, w').0;
    assert m4.store.ids == m.store.ids[k := n + 1];
    assert m4.flights == m.flights - {w, w'};
  }

  /** The guard is exact. Whenever it is broken and there is room, the two inserts can both be answered
      with success, and the label is on two slots. */
  lemma BrokenGuardDoubles(m: Memory, w: nat, w': nat, k: Key, v: Vector, v': Vector) returns (events: seq<Event>)
    requires Inv(m) && w in m.flights && m.flights[w].write == Insert(k, v) && w' !in m.flights
    requires k !in m.store.ids && |v| == |v'| == m.store.dim && |m.store.slots| + 2 <= m.store.capacity
    ensures events != [] && events[0] == Enter(w', Insert(k, v'))
    ensures var after := Exec(m, events); after.flights == m.flights - {w} && !DistinctLabels(after.store.slots)
  {
    var enter := Enter(w', Insert(k, v'));
    match m.flights[w].step {
      case Entered =>
        var m1 := Next(Next(Next(m, enter), Go(w)), Go(w'));
        events := [enter, Go(w), Go(w'), Go(w), Go(w'), Go(w), Go(w')];
        RunSeven(m, enter, Go(w), Go(w'), Go(w), Go(w'), Go(w), Go(w'));
        CheckedDouble(m, m1, w, w', k, v, v');
      case Checked =>
        var m1 := Next(Next(m, enter), Go(w'));
        events := [enter, Go(w'), Go(w), Go(w'), Go(w), Go(w')];
        RunSix(m, enter, Go(w'), Go(w), Go(w'), Go(w), Go(w'));
        CheckedDouble(m, m1, w, w', k, v, v');
      case HasSlot(id) =>
        events := [enter, Go(w'), Go(w'), Go(w'), Go(w)];
        RunFive(m, enter, Go(w'), Go(w'), Go(w'), Go(w));
        LateDouble(m, w, w', k, v, v', id);
    }
  }

  lemma CheckedDouble(m: Memory, m1: Memory, w: nat, w': nat, k: Key, v: Vector, v': Vector)
    requires BothChecked(m1, w, w', k, v, v') && m1.store == m.store && |m.store.slots| + 2 <= m.store.capacity
    requires w in m.flights && w' !in m.flights && m1.flights - {w, w'} == m.flights - {w}
    ensures var after := Advance(Advance(Advance(Advance(m1, w).0, w').0, w).0, w').0;
      after.flights == m.flights - {w} && !DistinctLabels(after.store.slots)
  {
    BothGetSlots(m1, w, w', k, v, v');
    var slots := m.store.slots + [Slot(k, v, false), Slot(k, v', false)];
    assert slots[|m.store.slots|].key == slots[|m.store.slots| + 1].key;
  }

  /** The other insert already has its slot, but its label is not in the map. */
  lemma LateDouble(m: Memory, w: nat, w': nat, k: Key, v: Vector, v': Vector, id: nat)
    requires Inv(m) && w in m.flights && m.flights[w] == Flight(Insert(k, v), HasSlot(id)) && w' !in m.flights
    requires k !in m.store.ids && |v'| == m.store.dim && |m.store.slots| < m.store.capacity
    ensures var after := Next(Next(Next(Next(Next(m, Enter(w', Insert(k, v'))), Go(w')), Go(w')), Go(w')), Go(w));
      after.flights == m.flights - {w} && !DistinctLabels(after.store.slots)
  {
    assert FlightOk(m.store, m.flights[w]);
    var n := |m.store.slots|;
    var m1 := Next(m, Enter(w', Insert(k, v')));
    var m2 := Next(m1, Go(w'));
    assert m2.flights[w'] == Flight(Insert(k, v'), Checked) && m2.store == m.store;
    var m3 := Next(m2, Go(w'));
    assert m3.store.slots == m.store.slots + [Slot(k, v', false)] && m3.flights[w'] == Flight(Insert(k, v'), HasSlot(n));
    var m4 := Next(m3, Go(w'));
    assert m4.store.slots == m3.store.slots && w in m4.flights && m4.flights[w] == m.flights[w];
    var after := Next(m4, Go(w));
    assert after.store.slots[id].key == after.store.slots[n].key;
    assert after.flights == m.flights - {w};
  }

  lemma RunFive(m: Memory, a: Event, b: Event, c: Event, d: Event, e: Event)
    ensures Exec(m, [a, b, c, d, e]) == Next(Next(Next(Next(Next(m, a), b), c), d), e)
  {
    RunCons(m, a, [b, c, d, e]);
    var m1 := Next(m, a);
    RunCons(m1, b, [c, d, e]);
    var m2 := Next(m1, b);
    RunCons(m2, c, [d, e]);
    var m3 := Next(m2, c);
    RunCons(m3, d, [e]);
    RunCons(Next(m3, d), e, []);
  }

  lemma RunSix(m: Memory, a: Event, b: Event, c: Event, d: Event, e: Event, f: Event)
    ensures Exec(m, [a, b, c, d, e, f]) == Next(Next(Next(Next(Next(Next(m, a), b), c), d), e), f)
  {
    RunCons(m, a, [b, c, d, e, f]);
    RunFive(Next(m, a), b, c, d, e, f);
  }

  lemma RunSeven(m: Memory, a: Event, b: Event, c: Event, d: Event, e: Event, f: Event, g: Event)
    ensures Exec(m, [a, b, c, d, e, f, g]) == Next(Next(Next(Next(Next(Next(Next(m, a), b), c), d), e), f), g)
  {
    RunCons(m, a, [b, c, d, e, f, g]);
    RunSix(Next(m, a), b, c, d, e, f, g);
  }

  lemma RunCons(m: Memory, e: Event, rest: seq<Event>)
    ensures [e] + rest != [] && Exec(m, [e] + rest) == Exec(Next(m, e), rest)
  {
    assert ([e] + rest)[1..] == rest;
  }
}
