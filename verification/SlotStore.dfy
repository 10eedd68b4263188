/** What the index keeps per element: one slot per claimed id, and the label map. */
module SlotStore {
  import opened KeyTable
  import opened Options

  datatype Slot = Slot(key: Key, vector: Vector, deleted: bool)

  datatype Store = Store(dim: nat, capacity: nat, slots: seq<Slot>, ids: map<Key, nat>)

  ghost predicate HasKey(slots: seq<Slot>, k: Key) {
    exists i :: 0 <= i < |slots| && slots[i].key == k
  }

  /** No label is on two slots. */
  ghost predicate DistinctLabels(slots: seq<Slot>) {
    forall i, j :: 0 <= i < j < |slots| ==> slots[i].key != slots[j].key
  }

  /** A label of the map leads to a slot that carries it. */
  ghost predicate Leads(s: Store, k: Key) {
    k in s.ids && s.ids[k] < |s.slots| && s.slots[s.ids[k]].key == k
  }

  ghost predicate MapOk(s: Store) {
    forall k :: k in s.ids ==> Leads(s, k)
  }

  /** The label map is the exact inverse of the slots' labels. */
  ghost predicate Inverse(s: Store) {
    && MapOk(s)
    && forall i :: 0 <= i < |s.slots| ==> s.slots[i].key in s.ids && s.ids[s.slots[i].key] == i
  }

  /** What the store answers for a key. */
  function EntryOf(s: Store, k: Key): Option<Entry> {
    if k in s.ids && s.ids[k] < |s.slots| then
      var slot := s.slots[s.ids[k]];
      Some(Entry(slot.vector, slot.deleted))
    else None
  }

  /** load's loop over the labels: the last slot of a label wins. */
  function Rebuilt(slots: seq<Slot>): map<Key, nat> {
    if slots == [] then map[]
    else
      var last := |slots| - 1;
      Rebuilt(slots[..last])[slots[last].key := last]
  }

  lemma {:induction false} RebuiltMeaning(slots: seq<Slot>)
    ensures forall k :: k in Rebuilt(slots) <==> HasKey(slots, k)
    ensures forall k :: k in Rebuilt(slots) ==> Rebuilt(slots)[k] < |slots| && slots[Rebuilt(slots)[k]].key == k
  {
    if slots != [] {
      var last := |slots| - 1;
      var before := slots[..last];
      RebuiltMeaning(before);
      forall k ensures HasKey(slots, k) <==> k == slots[last].key || HasKey(before, k) {
        if i :| 0 <= i < |slots| && slots[i].key == k {
          assert i < last ==> before[i].key == k;
        }
        if i :| 0 <= i < |before| && before[i].key == k {
          assert slots[i].key == k;
        }
      }
      forall k | k in Rebuilt(slots) ensures Rebuilt(slots)[k] < |slots| && slots[Rebuilt(slots)[k]].key == k {
        if k != slots[last].key {
          assert k in Rebuilt(before) && before[Rebuilt(before)[k]].key == k;
        }
      }
    }
  }

  function Loaded(dim: nat, capacity: nat, slots: seq<Slot>): Store {
    Store(dim, capacity, slots, Rebuilt(slots))
  }

  /** Loading distinct labels gives an exact inverse. */
  lemma LoadedInverse(dim: nat, capacity: nat, slots: seq<Slot>)
    requires DistinctLabels(slots)
    ensures Inverse(Loaded(dim, capacity, slots))
  {
    RebuiltMeaning(slots);
    var s := Loaded(dim, capacity, slots);
    forall i | 0 <= i < |slots| ensures slots[i].key in s.ids && s.ids[slots[i].key] == i {
      assert HasKey(slots, slots[i].key);
    }
  }

  lemma InverseIsDistinct(s: Store)
    requires Inverse(s)
    ensures DistinctLabels(s.slots)
  {
  }

  function WithFlag(s: Store, id: nat, flag: bool): Store
    requires id < |s.slots|
  {
    s.(slots := s.slots[id := s.slots[id].(deleted := flag)])
  }

  /** markDeleted and unmarkDeleted, which hold the label lock throughout. */
  function Marked(s: Store, k: Key, flag: bool): (Store, Outcome) {
    if k in s.ids && s.ids[k] < |s.slots| && s.slots[s.ids[k]].deleted != flag then (WithFlag(s, s.ids[k], flag), Ok)
    else (s, NotFound)
  }

  /** The second step of addPoint: the next slot, with its label. */
  function Claimed(s: Store, k: Key, v: Vector): Store {
    s.(slots := s.slots + [Slot(k, v, false)])
  }

  /** The third step: the label map. */
  function Labelled(s: Store, k: Key, id: nat): Store {
    s.(ids := s.ids[k := id])
  }
}
