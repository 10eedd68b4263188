/** Per-node metadata of the index: vectors, labels, tombstones and the label map. */
module NodeSlots {
  import opened KeyTable

  /** Number of set flags among the first n. */
  function Tombstones(flags: seq<bool>, n: nat): nat
    requires n <= |flags|
  {
    if n == 0 then 0 else Tombstones(flags, n - 1) + if flags[n - 1] then 1 else 0
  }

  lemma {:induction false} TombstonesAfter(flags: seq<bool>, n: nat, i: nat, flag: bool)
    requires n <= |flags| && i < |flags|
    ensures Tombstones(flags[i := flag], n)
         == if i < n && flag != flags[i] then Tombstones(flags, n) + (if flag then 1 else -1) else Tombstones(flags, n)
  {
    if n > 0 {
      TombstonesAfter(flags, n - 1, i, flag);
    }
  }

  /** The parallel per-node arrays, one slot per possible element, and the label map. */
  datatype Nodes = Nodes(data: seq<Vector>, labels: seq<Key>, deleted: seq<bool>, labelToId: map<Key, nat>)
  {
    /** The label maps to a slot that carries it. */
    ghost predicate KeyOk(k: Key, count: nat)
    {
      k in labelToId && labelToId[k] < count <= |labels| && labels[labelToId[k]] == k
    }

    /** The slot's label maps back to it, and its vector has the index's dimension. */
    ghost predicate SlotOk(id: nat, dim: nat)
    {
      && id < |labels| && id < |data| && |data[id]| == dim
      && labels[id] in labelToId && labelToId[labels[id]] == id
    }

    /** Array sizes; the label map is the exact inverse of labels below count. */
    ghost predicate Ok(slots: nat, count: nat, dim: nat)
    {
      && |data| == |labels| == |deleted| == slots && count <= slots
      && |labelToId| == count
      && (forall k :: k in labelToId ==> KeyOk(k, count))
      && (forall id: nat :: id < count ==> SlotOk(id, dim))
    }

    function With(id: nat, k: Key, v: Vector): Nodes
      requires id < |data| == |labels| == |deleted|
    {
      Nodes(data[id := v], labels[id := k], deleted[id := false], labelToId[k := id])
    }
  }

  /** What the slots store, by label. */
  ghost function EntriesOf(n: Nodes): map<Key, Entry> {
    map k | k in n.labelToId && n.labelToId[k] < |n.data| && n.labelToId[k] < |n.deleted| ::
      Entry(n.data[n.labelToId[k]], n.deleted[n.labelToId[k]])
  }

  lemma EntriesKeys(n: Nodes, slots: nat, count: nat, dim: nat)
    requires n.Ok(slots, count, dim)
    ensures EntriesOf(n).Keys == n.labelToId.Keys && |EntriesOf(n)| == count
  {
    forall k | k in n.labelToId ensures k in EntriesOf(n) {
      assert n.KeyOk(k, count);
    }
    assert EntriesOf(n).Keys == n.labelToId.Keys;
    assert |EntriesOf(n)| == |EntriesOf(n).Keys| && |n.labelToId| == |n.labelToId.Keys|;
  }

  lemma NodeAdded(n: Nodes, slots: nat, count: nat, dim: nat, k: Key, v: Vector)
    requires n.Ok(slots, count, dim) && count < slots && k !in n.labelToId && |v| == dim
    ensures n.With(count, k, v).Ok(slots, count + 1, dim)
    ensures EntriesOf(n.With(count, k, v)) == EntriesOf(n)[k := Entry(v, false)]
    ensures Tombstones(n.With(count, k, v).deleted, count + 1) == Tombstones(n.deleted, count)
  {
    TombstonesAfter(n.deleted, count, count, false);
    NodeAddedOk(n, slots, count, dim, k, v);
    NodeAddedEntries(n, slots, count, dim, k, v);
  }

  lemma NodeAddedOk(n: Nodes, slots: nat, count: nat, dim: nat, k: Key, v: Vector)
    requires n.Ok(slots, count, dim) && count < slots && k !in n.labelToId && |v| == dim
    ensures n.With(count, k, v).Ok(slots, count + 1, dim)
  {
    var n' := n.With(count, k, v);
    MapGrows(n.labelToId, k, count);
    forall j | j in n'.labelToId ensures n'.KeyOk(j, count + 1) {
      assert j != k ==> n.KeyOk(j, count);
    }
    forall id: nat | id < count + 1 ensures n'.SlotOk(id, dim) {
      assert id < count ==> n.SlotOk(id, dim);
    }
  }

  lemma NodeAddedEntries(n: Nodes, slots: nat, count: nat, dim: nat, k: Key, v: Vector)
    requires n.Ok(slots, count, dim) && count < slots && k !in n.labelToId
    ensures EntriesOf(n.With(count, k, v)) == EntriesOf(n)[k := Entry(v, false)]
  {
    var e, e' := EntriesOf(n), EntriesOf(n.With(count, k, v));
    forall j ensures j in e' <==> j == k || j in e {
      assert j in n.labelToId ==> n.KeyOk(j, count);
    }
    forall j | j in e' ensures e'[j] == if j == k then Entry(v, false) else e[j] {
      assert j in n.labelToId ==> n.KeyOk(j, count);
    }
  }

  lemma MapGrows(f: map<Key, nat>, k: Key, x: nat)
    requires k !in f
    ensures |f[k := x]| == |f| + 1
  {
    assert f[k := x].Keys == f.Keys + {k};
    assert |f[k := x]| == |f[k := x].Keys| && |f| == |f.Keys|;
  }

  lemma NodeFlagged(n: Nodes, slots: nat, count: nat, dim: nat, k: Key, flag: bool)
    requires n.Ok(slots, count, dim) && n.KeyOk(k, count) && n.deleted[n.labelToId[k]] != flag
    ensures var n' := n.(deleted := n.deleted[n.labelToId[k] := flag]);
      && n'.Ok(slots, count, dim)
      && k in EntriesOf(n) && EntriesOf(n)[k].deleted == !flag
      && EntriesOf(n') == EntriesOf(n)[k := EntriesOf(n)[k].(deleted := flag)]
      && Tombstones(n'.deleted, count) == Tombstones(n.deleted, count) + if flag then 1 else -1
  {
    TombstonesAfter(n.deleted, count, n.labelToId[k], flag);
    var n' := n.(deleted := n.deleted[n.labelToId[k] := flag]);
    forall j | j in n'.labelToId ensures n'.KeyOk(j, count) {
      assert n.KeyOk(j, count);
    }
    forall id: nat | id < count ensures n'.SlotOk(id, dim) {
      assert n.SlotOk(id, dim);
    }
    var e, e' := EntriesOf(n), EntriesOf(n');
    forall j | j in e' ensures e'[j] == if j == k then e[k].(deleted := flag) else e[j] {
      assert n.KeyOk(j, count);
    }
  }
}
