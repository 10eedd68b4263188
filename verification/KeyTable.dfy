/** What one index stores, seen as a table from keys to vectors with a soft-delete flag,
    and the outcomes its operations report. */
module KeyTable {
  import opened Bytes

  /** A label is scoped to the client that chose it. */
  datatype Key = Key(clientId: U64, labelId: U64)

  /** A vector of 32-bit floats, each given by its bit pattern. */
  type Vector = seq<U32>

  datatype Entry = Entry(vector: Vector, deleted: bool)

  datatype Table = Table(dim: nat, capacity: nat, entries: map<Key, Entry>)

  datatype Outcome = Ok | Duplicate | Full | NotFound | WrongDimension

  datatype Reply = Reply(table: Table, outcome: Outcome)

  function Empty(dim: nat, capacity: nat): Table {
    Table(dim, capacity, map[])
  }

  function Add(t: Table, k: Key, v: Vector): Reply {
    if |v| != t.dim then Reply(t, WrongDimension)
    else if k in t.entries then Reply(t, Duplicate)
    else if |t.entries| >= t.capacity then Reply(t, Full)
    else Reply(t.(entries := t.entries[k := Entry(v, false)]), Ok)
  }

  /** Marking an entry deleted, or live again, succeeds only if that changes it. */
  function SetDeleted(t: Table, k: Key, flag: bool): Reply {
    if k !in t.entries || t.entries[k].deleted == flag then Reply(t, NotFound)
    else Reply(t.(entries := t.entries[k := t.entries[k].(deleted := flag)]), Ok)
  }

  /** A write, as any layer of the system passes it on. */
  datatype Write = Insert(key: Key, vector: Vector) | Mark(key: Key, deleted: bool)

  function Perform(t: Table, w: Write): Reply {
    match w
    case Insert(k, v) => Add(t, k, v)
    case Mark(k, flag) => SetDeleted(t, k, flag)
  }

  lemma SubsetSize<T>(a: set<T>, b: set<T>)
    requires a <= b
    ensures |a| <= |b|
  {
    assert |b| == |a| + |b - a|;
  }
}
