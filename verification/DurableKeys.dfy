/** The heart of the recovery argument, key by key: replaying the log over the snapshot gives
    what memory holds once the writers in flight have applied their records. */
module DurableKeys {
  import opened KeyTable
  import opened Options
  import opened WalFormat
  import opened Replay

  function VectorOf(e: Option<Entry>): Option<Vector> {
    if e.Some? then Some(e.value.vector) else None
  }

  /** Agreement on the whole entry, or on presence and vector only. */
  ghost predicate Same(exact: bool, a: Option<Entry>, b: Option<Entry>) {
    if exact then a == b else VectorOf(a) == VectorOf(b)
  }

  type Entries = map<Key, Entry>
  type InFlight = map<nat, Record>

  ghost predicate Pending(inFlight: InFlight, w: nat, k: Key) {
    w in inFlight && inFlight[w].key == k
  }

  predicate IsAdd(r: Record) {
    r.op == OP_ADD
  }

  predicate IsFlag(r: Record) {
    r.op == OP_MARK_DELETED || r.op == OP_UNMARK_DELETED
  }

  /** Two records of one key whose order matters for a key that memory holds as e: two Adds of
      different vectors for an absent key; for exact tombstones also an Add and a delete of an
      absent key, or a delete and an undelete of a present one. */
  predicate Clash(exact: bool, e: Option<Entry>, r: Record, r': Record) {
    || (e.None? && IsAdd(r) && IsAdd(r') && r.vector != r'.vector)
    || (exact && e.None? && ((IsAdd(r) && r'.op == OP_MARK_DELETED) || (IsAdd(r') && r.op == OP_MARK_DELETED)))
    || (exact && e.Some? && IsFlag(r) && IsFlag(r') && r.op != r'.op)
  }

  /** The guard is exact: two records commute if and only if they do not clash. */
  lemma CommuteUnlessClash(exact: bool, e: Option<Entry>, r: Record, r': Record)
    requires KnownOp(r.op) && KnownOp(r'.op)
    ensures Same(exact, EntryStep(EntryStep(e, r), r'), EntryStep(EntryStep(e, r'), r)) <==> !Clash(exact, e, r, r')
  {
  }

  /** No two writers in flight for one key clash. */
  ghost predicate Harmonious(exact: bool, table: Entries, inFlight: InFlight) {
    forall v, w :: v in inFlight && w in inFlight && v != w && inFlight[v].key == inFlight[w].key
      ==> !Clash(exact, Lookup(table, inFlight[v].key), inFlight[v], inFlight[w])
  }

  /** A new record that clashes with no writer in flight. */
  ghost predicate Fitting(exact: bool, table: Entries, inFlight: InFlight, r: Record) {
    forall v :: Pending(inFlight, v, r.key) ==> !Clash(exact, Lookup(table, r.key), inFlight[v], r)
  }

  /** The recovered vector of a key: memory's, else that of every Add in flight, else none. */
  ghost predicate VectorMatch(e: Option<Entry>, m: Option<Entry>, inFlight: InFlight, k: Key) {
    && (m.Some? ==> VectorOf(e) == VectorOf(m))
    && (m.None? ==> forall w :: Pending(inFlight, w, k) && IsAdd(inFlight[w]) ==> VectorOf(e) == Some(inFlight[w].vector))
    && (m.None? && (forall w :: Pending(inFlight, w, k) ==> !IsAdd(inFlight[w])) ==> e.None?)
  }

  /** The recovered tombstone of a key: that of every delete or undelete in flight, else memory's. */
  ghost predicate FlagMatch(e: Option<Entry>, m: Option<Entry>, inFlight: InFlight, k: Key) {
    e.Some? ==>
      && (forall w :: Pending(inFlight, w, k) && IsFlag(inFlight[w]) ==>
            e.value.deleted == (inFlight[w].op == OP_MARK_DELETED))
      && ((forall w :: Pending(inFlight, w, k) ==> !IsFlag(inFlight[w])) ==>
            e.value.deleted == (m.Some? && m.value.deleted))
  }

  /** Recovery of key k from base and log agrees with memory, its records in flight applied in
      whatever order. */
  ghost predicate KeyMatch(exact: bool, base: Entries, log: seq<Record>, table: Entries, inFlight: InFlight, k: Key) {
    var e, m := EntryFold(Lookup(base, k), log, k), Lookup(table, k);
    VectorMatch(e, m, inFlight, k) && (exact ==> FlagMatch(e, m, inFlight, k))
  }

  /** With nothing in flight for the key, agreement is equality. */
  lemma QuietMatch(exact: bool, base: Entries, log: seq<Record>, table: Entries, inFlight: InFlight, k: Key)
    requires forall w :: !Pending(inFlight, w, k)
    ensures KeyMatch(exact, base, log, table, inFlight, k)
       <==> Same(exact, EntryFold(Lookup(base, k), log, k), Lookup(table, k))
  {
  }

  lemma FoldOne(e: Option<Entry>, log: seq<Record>, r: Record, k: Key)
    ensures EntryFold(e, log + [r], k)
         == if r.key == k then EntryStep(EntryFold(e, log, k), r) else EntryFold(e, log, k)
  {
    FoldConcat(e, log, [r], k);
    assert EntryFold(EntryFold(e, log, k), [r], k)
        == if r.key == k then EntryStep(EntryFold(e, log, k), r) else EntryFold(e, log, k);
  }

  lemma StepMatchesVector(exact: bool, e: Option<Entry>, m: Option<Entry>, inFlight: InFlight, w: nat, r: Record, k: Key)
    requires VectorMatch(e, m, inFlight, k) && w !in inFlight && r.key == k
    requires forall v :: Pending(inFlight, v, k) ==> !Clash(exact, m, inFlight[v], r)
    ensures VectorMatch(EntryStep(e, r), m, inFlight[w := r], k)
  {
    var inFlight' := inFlight[w := r];
    assert Pending(inFlight', w, k);
    assert forall v :: v != w ==> (Pending(inFlight', v, k) <==> Pending(inFlight, v, k));
  }

  lemma StepMatchesFlag(e: Option<Entry>, m: Option<Entry>, inFlight: InFlight, w: nat, r: Record, k: Key)
    requires KnownOp(r.op) && VectorMatch(e, m, inFlight, k) && FlagMatch(e, m, inFlight, k)
    requires w !in inFlight && r.key == k
    requires forall v :: Pending(inFlight, v, k) ==> !Clash(true, m, inFlight[v], r)
    requires forall u, v :: Pending(inFlight, u, k) && Pending(inFlight, v, k) && u != v ==> !Clash(true, m, inFlight[u], inFlight[v])
    ensures FlagMatch(EntryStep(e, r), m, inFlight[w := r], k)
  {
    var inFlight' := inFlight[w := r];
    assert Pending(inFlight', w, k);
    assert forall v :: v != w ==> (Pending(inFlight', v, k) <==> Pending(inFlight, v, k));
  }

  /** Logging a record that clashes with no writer in flight. */
  lemma AppendKeepsMatch(exact: bool, base: Entries, log: seq<Record>, table: Entries, inFlight: InFlight,
                         w: nat, r: Record, k: Key)
    requires KeyMatch(exact, base, log, table, inFlight, k) && KnownOp(r.op)
    requires w !in inFlight && Harmonious(exact, table, inFlight) && Fitting(exact, table, inFlight, r)
    ensures KeyMatch(exact, base, log + [r], table, inFlight[w := r], k)
  {
    FoldOne(Lookup(base, k), log, r, k);
    var e, m := EntryFold(Lookup(base, k), log, k), Lookup(table, k);
    if r.key == k {
      StepMatchesVector(exact, e, m, inFlight, w, r, k);
      if exact {
        StepMatchesFlag(e, m, inFlight, w, r, k);
      }
    } else {
      OtherKeyInFlight(e, m, inFlight, inFlight[w := r], k);
    }
  }

  /** What is in flight for other keys makes no difference. */
  lemma OtherKeyInFlight(e: Option<Entry>, m: Option<Entry>, inFlight: InFlight, inFlight': InFlight, k: Key)
    requires forall v :: Pending(inFlight', v, k) <==> Pending(inFlight, v, k)
    requires forall v :: Pending(inFlight, v, k) ==> v in inFlight' && inFlight'[v] == inFlight[v]
    ensures VectorMatch(e, m, inFlight', k) <==> VectorMatch(e, m, inFlight, k)
    ensures FlagMatch(e, m, inFlight', k) <==> FlagMatch(e, m, inFlight, k)
  {
  }

  lemma ApplyMatchesVector(e: Option<Entry>, m: Option<Entry>, inFlight: InFlight, w: nat, k: Key)
    requires Pending(inFlight, w, k) && VectorMatch(e, m, inFlight, k)
    ensures VectorMatch(e, EntryStep(m, inFlight[w]), inFlight - {w}, k)
  {
    var rest := inFlight - {w};
    assert forall v :: Pending(rest, v, k) <==> v != w && Pending(inFlight, v, k);
  }

  lemma ApplyMatchesFlag(e: Option<Entry>, m: Option<Entry>, inFlight: InFlight, w: nat, k: Key)
    requires Pending(inFlight, w, k) && KnownOp(inFlight[w].op)
    requires VectorMatch(e, m, inFlight, k) && FlagMatch(e, m, inFlight, k)
    requires forall u, v :: Pending(inFlight, u, k) && Pending(inFlight, v, k) && u != v ==> !Clash(true, m, inFlight[u], inFlight[v])
    ensures FlagMatch(e, EntryStep(m, inFlight[w]), inFlight - {w}, k)
  {
    var rest := inFlight - {w};
    assert forall v :: Pending(rest, v, k) <==> v != w && Pending(inFlight, v, k);
  }

  /** A writer in flight applies its record; table' is memory afterwards. */
  lemma ApplyKeepsMatch(exact: bool, base: Entries, log: seq<Record>, table: Entries, inFlight: InFlight,
                        w: nat, table': Entries, k: Key)
    requires KeyMatch(exact, base, log, table, inFlight, k)
    requires w in inFlight && KnownOp(inFlight[w].op) && Harmonious(exact, table, inFlight)
    requires Lookup(table', k) == if k == inFlight[w].key then EntryStep(Lookup(table, k), inFlight[w]) else Lookup(table, k)
    ensures KeyMatch(exact, base, log, table', inFlight - {w}, k)
  {
    var e, m := EntryFold(Lookup(base, k), log, k), Lookup(table, k);
    if inFlight[w].key == k {
      ApplyMatchesVector(e, m, inFlight, w, k);
      if exact {
        ApplyMatchesFlag(e, m, inFlight, w, k);
      }
    } else {
      OtherKeyInFlight(e, m, inFlight, inFlight - {w}, k);
    }
  }

  /** Applying a record makes no two others clash: an Add that lets a key in was not in flight
      together with a delete of it. */
  lemma ApplyKeepsHarmony(exact: bool, table: Entries, inFlight: InFlight, w: nat, table': Entries)
    requires Harmonious(exact, table, inFlight) && w in inFlight
    requires table.Keys <= table'.Keys <= table.Keys + {inFlight[w].key}
    requires inFlight[w].key in table' && inFlight[w].key !in table ==> IsAdd(inFlight[w])
    ensures Harmonious(exact, table', inFlight - {w})
  {
    var rest, r := inFlight - {w}, inFlight[w];
    forall u, v | u in rest && v in rest && u != v && rest[u].key == rest[v].key
      ensures !Clash(exact, Lookup(table', rest[u].key), rest[u], rest[v])
    {
      assert !Clash(exact, Lookup(table, inFlight[u].key), inFlight[u], inFlight[v]);
      if inFlight[u].key == r.key {
        assert !Clash(exact, Lookup(table, r.key), r, inFlight[u]) && !Clash(exact, Lookup(table, r.key), r, inFlight[v]);
      }
    }
  }

  /** A key recovery produces is in the base or added by the log, and the other way round. */
  lemma FoldPresence(base: Entries, log: seq<Record>, k: Key)
    ensures EntryFold(Lookup(base, k), log, k).Some? <==> k in base || k in AddKeys(log)
  {
    if k in base {
      FoldPresent(base[k], log, k);
    } else {
      FoldAbsent(log, k);
    }
  }

  lemma MatchedKeyIsLogged(exact: bool, base: Entries, log: seq<Record>, table: Entries, inFlight: InFlight, k: Key)
    requires KeyMatch(exact, base, log, table, inFlight, k)
    requires k in table || exists w :: Pending(inFlight, w, k) && IsAdd(inFlight[w])
    ensures k in base || k in AddKeys(log)
  {
    FoldPresence(base, log, k);
  }

  /** Saving memory as the new base, with the old log still in place, keeps the match; for
      tombstones exactly if the key has no late one. */
  lemma RebaseKeepsMatch(exact: bool, base: Entries, log: seq<Record>, table: Entries, k: Key)
    requires KeyMatch(exact, base, log, table, map[], k)
    ensures KeyMatch(exact, table, log, table, map[], k) <==> (exact ==> !LateTombstone(Lookup(base, k), log, k))
  {
    assert forall w :: !Pending(map[], w, k);
    QuietMatch(exact, base, log, table, map[], k);
    QuietMatch(exact, table, log, table, map[], k);
    if exact {
      ReplayTwice(Lookup(base, k), log, k);
    } else if k in table {
      FoldPresent(table[k], log, k);
    } else {
      FoldPresence(base, log, k);
      FoldPresence(table, log, k);
    }
  }
}
