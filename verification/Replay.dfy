/** Replaying a log over a table: when it runs to the end, what each key then holds, and
    exactly when replaying a log twice is the same as replaying it once. */
module Replay {
  import opened Bytes
  import opened KeyTable
  import opened Options
  import opened WalFormat

  /** apply: a duplicate Add and a delete or undelete that finds nothing to change are
      tolerated, every other failure stops the replay. */
  function ApplyRecord(t: Table, r: Record): Option<Table> {
    if r.op == OP_ADD then
      var a := Add(t, r.key, r.vector);
      if a.outcome == Ok || a.outcome == Duplicate then Some(a.table) else None
    else if r.op == OP_MARK_DELETED then Some(SetDeleted(t, r.key, true).table)
    else if r.op == OP_UNMARK_DELETED then Some(SetDeleted(t, r.key, false).table)
    else None
  }

  /** The same in terms of the op byte and the entries: 1 inserts a key that is absent, 2 sets and 3
      clears the tombstone of one that is present, and every other key stays. */
  lemma AppliedByOp(t: Table, r: Record)
    ensures ApplyRecord(t, r).Some? <==>
      r.op == 2 || r.op == 3
      || (r.op == 1 && |r.vector| == t.dim && (r.key in t.entries || |t.entries| < t.capacity))
    ensures ApplyRecord(t, r).Some? ==>
      var after := ApplyRecord(t, r).value;
      && after.dim == t.dim && after.capacity == t.capacity
      && (forall k :: k != r.key ==> Lookup(after.entries, k) == Lookup(t.entries, k))
      && (r.key in t.entries ==>
            Lookup(after.entries, r.key)
            == Some(Entry(t.entries[r.key].vector, if r.op == 1 then t.entries[r.key].deleted else r.op == 2)))
      && (r.key !in t.entries ==>
            Lookup(after.entries, r.key) == if r.op == 1 then Some(Entry(r.vector, false)) else None)
  {
  }

  function ApplyAll(t: Table, rs: seq<Record>): Option<Table>
    decreases |rs|
  {
    if rs == [] then Some(t)
    else match ApplyRecord(t, rs[0])
      case None => None
      case Some(t') => ApplyAll(t', rs[1..])
  }

  function AddKeys(rs: seq<Record>): set<Key> {
    if rs == [] then {}
    else (if rs[0].op == OP_ADD then {rs[0].key} else {}) + AddKeys(rs[1..])
  }

  predicate AddsHaveDim(rs: seq<Record>, dim: nat) {
    forall r :: r in rs && r.op == OP_ADD ==> |r.vector| == dim
  }

  predicate OpsKnown(rs: seq<Record>) {
    forall r :: r in rs ==> KnownOp(r.op)
  }

  /** The condition on log and table under which replay runs to the end: every Add has the
      table's dimension, and the keys of table and log together fit. */
  predicate Replayable(t: Table, rs: seq<Record>) {
    AddsHaveDim(rs, t.dim) && |t.entries.Keys + AddKeys(rs)| <= t.capacity
  }

  /** What one record does to the entry of its key. */
  function EntryStep(e: Option<Entry>, r: Record): Option<Entry> {
    if r.op == OP_ADD then (if e.None? then Some(Entry(r.vector, false)) else e)
    else if e.None? then None
    else if r.op == OP_MARK_DELETED then Some(e.value.(deleted := true))
    else if r.op == OP_UNMARK_DELETED then Some(e.value.(deleted := false))
    else e
  }

  /** What the records of one key do to its entry. */
  function EntryFold(e: Option<Entry>, rs: seq<Record>, k: Key): Option<Entry>
    decreases |rs|
  {
    if rs == [] then e
    else EntryFold(if rs[0].key == k then EntryStep(e, rs[0]) else e, rs[1..], k)
  }

  function Lookup(entries: map<Key, Entry>, k: Key): Option<Entry> {
    if k in entries then Some(entries[k]) else None
  }

  /** The entry of k in t' is what the records of k make of its entry in t. */
  ghost predicate Folded(t: Table, rs: seq<Record>, t': Table, k: Key) {
    Lookup(t'.entries, k) == EntryFold(Lookup(t.entries, k), rs, k)
  }

  /** t' is the outcome of a completed replay of rs over t: the keys are those of table and
      log, and each key's entry is the fold of its own records. */
  ghost predicate Replayed(t: Table, rs: seq<Record>, t': Table) {
    && t'.dim == t.dim && t'.capacity == t.capacity && |t'.entries| <= t.capacity
    && t'.entries.Keys == t.entries.Keys + AddKeys(rs)
    && (forall k :: Folded(t, rs, t', k))
  }

  /** One applied record changes its own key's entry, and no other. */
  lemma ApplyRecordEffect(t: Table, r: Record)
    requires KnownOp(r.op) && ApplyRecord(t, r).Some? && |t.entries| <= t.capacity
    ensures Replayed(t, [r], ApplyRecord(t, r).value)
  {
    var t' := ApplyRecord(t, r).value;
    assert AddKeys([r]) == if r.op == OP_ADD then {r.key} else {};
    assert |t'.entries| == |t'.entries.Keys| && |t.entries| == |t.entries.Keys|;
    if r.op == OP_ADD && r.key !in t.entries {
      assert t'.entries.Keys == t.entries.Keys + {r.key};
    } else {
      assert t'.entries.Keys == t.entries.Keys;
    }
    forall k ensures Folded(t, [r], t', k) {
      assert EntryFold(Lookup(t.entries, k), [r], k) == if k == r.key then EntryStep(Lookup(t.entries, k), r) else Lookup(t.entries, k);
    }
  }

  /** A single record applies exactly when it has the right dimension and its key fits. */
  lemma ApplyRecordSucceeds(t: Table, r: Record)
    requires KnownOp(r.op) && |t.entries| <= t.capacity
    ensures ApplyRecord(t, r).Some? <==> Replayable(t, [r])
  {
    assert AddKeys([r]) == if r.op == OP_ADD then {r.key} else {};
    assert |t.entries| == |t.entries.Keys|;
    assert AddsHaveDim([r], t.dim) <==> (r.op == OP_ADD ==> |r.vector| == t.dim) by {
      assert [r][0] == r && r in [r];
    }
    if r.op == OP_ADD && r.key in t.entries {
      assert t.entries.Keys + {r.key} == t.entries.Keys;
    } else if r.op != OP_ADD {
      assert t.entries.Keys + {} == t.entries.Keys;
    }
  }

  lemma {:induction false} FoldConcat(e: Option<Entry>, rs: seq<Record>, qs: seq<Record>, k: Key)
    ensures EntryFold(e, rs + qs, k) == EntryFold(EntryFold(e, rs, k), qs, k)
    decreases |rs|
  {
    if rs == [] {
      assert rs + qs == qs;
    } else {
      assert (rs + qs)[1..] == rs[1..] + qs;
      FoldConcat(if rs[0].key == k then EntryStep(e, rs[0]) else e, rs[1..], qs, k);
    }
  }

  lemma {:induction false} AddKeysConcat(rs: seq<Record>, qs: seq<Record>)
    ensures AddKeys(rs + qs) == AddKeys(rs) + AddKeys(qs)
    decreases |rs|
  {
    if rs == [] {
      assert rs + qs == qs;
    } else {
      assert (rs + qs)[1..] == rs[1..] + qs;
      AddKeysConcat(rs[1..], qs);
    }
  }

  lemma {:induction false} AddedKeyIsThere(rs: seq<Record>, r: Record)
    requires r in rs && r.op == OP_ADD
    ensures r.key in AddKeys(rs)
    decreases |rs|
  {
    if r != rs[0] {
      assert r in rs[1..];
      AddedKeyIsThere(rs[1..], r);
    }
  }

  lemma AddKeysAppend(rs: seq<Record>, r: Record)
    ensures AddKeys(rs + [r]) == AddKeys(rs) + if r.op == OP_ADD then {r.key} else {}
  {
    AddKeysConcat(rs, [r]);
    assert [r][1..] == [] && AddKeys([r]) == (if r.op == OP_ADD then {r.key} else {}) + AddKeys([]);
  }

  lemma ReplayedTransitive(t: Table, rs: seq<Record>, t1: Table, qs: seq<Record>, t2: Table)
    requires Replayed(t, rs, t1) && Replayed(t1, qs, t2)
    ensures Replayed(t, rs + qs, t2)
  {
    AddKeysConcat(rs, qs);
    forall k ensures Folded(t, rs + qs, t2, k) {
      assert Folded(t, rs, t1, k) && Folded(t1, qs, t2, k);
      FoldConcat(Lookup(t.entries, k), rs, qs, k);
    }
  }

  /** What has been replayed does not change what the rest needs. */
  lemma ReplayableSplit(t: Table, rs: seq<Record>, t1: Table, qs: seq<Record>)
    requires Replayed(t, rs, t1)
    ensures Replayable(t, rs + qs) <==> AddsHaveDim(rs, t.dim) && Replayable(t1, qs)
  {
    AddKeysConcat(rs, qs);
    assert t1.entries.Keys + AddKeys(qs) == t.entries.Keys + AddKeys(rs + qs);
    assert AddsHaveDim(rs + qs, t.dim) <==> AddsHaveDim(rs, t.dim) && AddsHaveDim(qs, t.dim) by {
      assert forall r :: r in rs + qs <==> r in rs || r in qs;
    }
  }

  lemma ReplayablePrefix(t: Table, rs: seq<Record>, qs: seq<Record>)
    requires Replayable(t, rs + qs)
    ensures Replayable(t, rs)
  {
    AddKeysConcat(rs, qs);
    SubsetSize(t.entries.Keys + AddKeys(rs), t.entries.Keys + AddKeys(rs + qs));
    assert forall r :: r in rs ==> r in rs + qs;
  }

  lemma FirstRecord(t: Table, rs: seq<Record>)
    requires rs != [] && OpsKnown(rs) && |t.entries| <= t.capacity
    ensures rs == [rs[0]] + rs[1..] && OpsKnown(rs[1..])
    ensures ApplyRecord(t, rs[0]).None? ==> !Replayable(t, rs)
    ensures ApplyRecord(t, rs[0]).Some? ==>
      var t1 := ApplyRecord(t, rs[0]).value;
      Replayed(t, [rs[0]], t1) && (Replayable(t, rs) <==> Replayable(t1, rs[1..]))
  {
    var first, rest := [rs[0]], rs[1..];
    assert rs == first + rest && rs[0] in rs;
    ApplyRecordSucceeds(t, rs[0]);
    if ApplyRecord(t, rs[0]).Some? {
      ApplyRecordEffect(t, rs[0]);
      ReplayableSplit(t, first, ApplyRecord(t, rs[0]).value, rest);
    } else if Replayable(t, rs) {
      ReplayablePrefix(t, first, rest);
    }
  }

  /** The reader returns only records of known ops. */
  lemma {:induction false} ReadOpsKnown(crc: Crc, s: seq<U8>)
    ensures OpsKnown(ReadAll(LogReader(crc), s).0)
    decreases |s|
  {
    ReadOpsAreKnown(crc, s);
    var first := ReadRecord(crc, s);
    assert LogReader(crc)(s) == first;
    if first.Some? {
      ReadOpsKnown(crc, s[first.value.1..]);
    }
  }

  lemma ReplayNothing(t: Table)
    requires |t.entries| <= t.capacity
    ensures Replayable(t, []) && Replayed(t, [], t)
  {
    assert t.entries.Keys + AddKeys([]) == t.entries.Keys && |t.entries| == |t.entries.Keys|;
  }

  /** Replay runs to the end precisely when the log is replayable over the table, and then
      its outcome is the fold of the log, key by key. */
  lemma {:induction false} ReplayMeaning(t: Table, rs: seq<Record>)
    requires OpsKnown(rs) && |t.entries| <= t.capacity
    ensures ApplyAll(t, rs).Some? <==> Replayable(t, rs)
    ensures ApplyAll(t, rs).Some? ==> Replayed(t, rs, ApplyAll(t, rs).value)
    decreases |rs|
  {
    if rs == [] {
      ReplayNothing(t);
    } else {
      FirstRecord(t, rs);
      if ApplyRecord(t, rs[0]).Some? {
        var t1 := ApplyRecord(t, rs[0]).value;
        ReplayMeaning(t1, rs[1..]);
        if ApplyAll(t1, rs[1..]).Some? {
          ReplayedTransitive(t, [rs[0]], t1, rs[1..], ApplyAll(t1, rs[1..]).value);
        }
      }
    }
  }

  /** The flag the last delete or undelete record of k sets. */
  function LastFlag(rs: seq<Record>, k: Key): Option<bool>
    decreases |rs|
  {
    if rs == [] then None
    else
      var later := LastFlag(rs[1..], k);
      if later.Some? || rs[0].key != k then later
      else if rs[0].op == OP_MARK_DELETED then Some(true)
      else if rs[0].op == OP_UNMARK_DELETED then Some(false)
      else None
  }

  /** Position of the first Add of k. */
  function FirstAdd(rs: seq<Record>, k: Key): (p: Option<nat>)
    ensures p.Some? ==> p.value < |rs| && rs[p.value].op == OP_ADD && rs[p.value].key == k
    ensures p.Some? <==> k in AddKeys(rs)
    decreases |rs|
  {
    if rs == [] then None
    else if rs[0].op == OP_ADD && rs[0].key == k then Some(0)
    else
      match FirstAdd(rs[1..], k)
      case None => None
      case Some(p) => Some(p + 1)
  }

  lemma {:induction false} FirstAddAppend(log: seq<Record>, r: Record, k: Key)
    ensures FirstAdd(log + [r], k)
         == if FirstAdd(log, k).Some? then FirstAdd(log, k)
            else if r.op == OP_ADD && r.key == k then Some(|log|) else None
    decreases |log|
  {
    if log == [] {
      assert log + [r] == [r] && [r][1..] == [];
    } else {
      assert (log + [r])[1..] == log[1..] + [r];
      FirstAddAppend(log[1..], r, k);
    }
  }

  function Default(flag: Option<bool>, otherwise: bool): bool {
    if flag.Some? then flag.value else otherwise
  }

  /** A key that is present keeps its vector; its tombstone is set by the last delete or undelete. */
  lemma {:induction false} FoldPresent(e: Entry, rs: seq<Record>, k: Key)
    ensures EntryFold(Some(e), rs, k) == Some(Entry(e.vector, Default(LastFlag(rs, k), e.deleted)))
    decreases |rs|
  {
    if rs != [] {
      var e1 := if rs[0].key == k then EntryStep(Some(e), rs[0]) else Some(e);
      FoldPresent(e1.value, rs[1..], k);
    }
  }

  /** A key that is absent comes in with its first Add, whatever was said about it before. */
  lemma {:induction false} FoldAbsent(rs: seq<Record>, k: Key)
    ensures EntryFold(None, rs, k)
         == match FirstAdd(rs, k) {
              case None => None
              case Some(p) => Some(Entry(rs[p].vector, Default(LastFlag(rs[p + 1..], k), false)))
            }
    decreases |rs|
  {
    if rs != [] {
      if rs[0].op == OP_ADD && rs[0].key == k {
        FoldPresent(Entry(rs[0].vector, false), rs[1..], k);
      } else {
        FoldAbsent(rs[1..], k);
        var later := FirstAdd(rs[1..], k);
        assert later.Some? ==> rs[1..][later.value + 1..] == rs[later.value + 2..];
      }
    }
  }

  lemma {:induction false} LastFlagSplit(rs: seq<Record>, i: nat, k: Key)
    requires i <= |rs|
    ensures LastFlag(rs, k) == if LastFlag(rs[i..], k).Some? then LastFlag(rs[i..], k) else LastFlag(rs[..i], k)
    decreases i
  {
    if i == 0 {
      assert rs[0..] == rs;
    } else {
      LastFlagSplit(rs[1..], i - 1, k);
      assert rs[1..][i - 1..] == rs[i..] && rs[1..][..i - 1] == rs[..i][1..];
    }
  }

  /** The key is absent, and its last delete or undelete record is a delete that comes before
      its first Add. */
  predicate LateTombstone(e: Option<Entry>, rs: seq<Record>, k: Key) {
    && e.None? && FirstAdd(rs, k).Some?
    && LastFlag(rs[FirstAdd(rs, k).value + 1..], k) == None
    && LastFlag(rs[..FirstAdd(rs, k).value], k) == Some(true)
  }

  /** Replaying the records of a key over what they already produced changes nothing, except
      exactly for a late tombstone. */
  lemma ReplayTwice(e: Option<Entry>, rs: seq<Record>, k: Key)
    ensures EntryFold(EntryFold(e, rs, k), rs, k) == EntryFold(e, rs, k) <==> !LateTombstone(e, rs, k)
  {
    if e.Some? {
      FoldPresent(e.value, rs, k);
      FoldPresent(EntryFold(e, rs, k).value, rs, k);
    } else {
      FoldAbsent(rs, k);
      if FirstAdd(rs, k).Some? {
        var p := FirstAdd(rs, k).value;
        FoldPresent(EntryFold(None, rs, k).value, rs, k);
        LastFlagSplit(rs, p + 1, k);
        LastFlagSplit(rs[..p + 1], p, k);
        assert rs[..p + 1][..p] == rs[..p] && rs[..p + 1][p..] == [rs[p]];
        assert LastFlag([rs[p]], k) == None;
      }
    }
  }

  /** The same for whole tables: over a table that a log has produced, the log replays to the
      end, and it reproduces the table exactly when no key has a late tombstone. */
  lemma ReplayOverlap(t: Table, rs: seq<Record>)
    requires OpsKnown(rs) && |t.entries| <= t.capacity && ApplyAll(t, rs).Some?
    ensures var t1 := ApplyAll(t, rs).value;
      && ApplyAll(t1, rs).Some?
      && (ApplyAll(t1, rs).value == t1 <==> forall k :: !LateTombstone(Lookup(t.entries, k), rs, k))
  {
    ReplayMeaning(t, rs);
    var t1 := ApplyAll(t, rs).value;
    assert t1.entries.Keys + AddKeys(rs) == t.entries.Keys + AddKeys(rs);
    ReplayMeaning(t1, rs);
    var t2 := ApplyAll(t1, rs).value;
    forall k ensures Lookup(t2.entries, k) == Lookup(t1.entries, k) <==> !LateTombstone(Lookup(t.entries, k), rs, k) {
      assert Folded(t, rs, t1, k) && Folded(t1, rs, t2, k);
      ReplayTwice(Lookup(t.entries, k), rs, k);
    }
    SameLookups(t1.entries, t2.entries);
  }

  lemma SameLookups(a: map<Key, Entry>, b: map<Key, Entry>)
    ensures a == b <==> forall k :: Lookup(b, k) == Lookup(a, k)
  {
    if forall k :: Lookup(b, k) == Lookup(a, k) {
      forall k ensures (k in a <==> k in b) && (k in a ==> a[k] == b[k]) {
        assert Lookup(b, k) == Lookup(a, k);
      }
    }
  }
}
