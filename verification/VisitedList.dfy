/** The version-stamped visited list of the beam search: clearing it costs one
    increment of a 16-bit stamp, except when the stamp wraps. */
module VisitedLists {
  import opened Bytes

  class VisitedList {
    const marks: array<U16>
    var cur: U16

    /** No slot carries a stamp from the future. Slots stamped with the current value
        are the members. */
    ghost predicate Valid()
      reads this, marks
    {
      forall i :: 0 <= i < marks.Length ==> marks[i] <= cur
    }

    ghost function Members(): (s: set<nat>)
      reads this, marks
      ensures forall i: nat :: i in s <==> i < marks.Length && marks[i] == cur
    {
      set i: nat | i < marks.Length && marks[i] == cur
    }

    /** A new list has stamp 0 in every slot and as its current stamp, so until the first
        Reset it behaves as if every slot had been visited. */
    constructor (n: nat)
      ensures Valid() && fresh(marks) && marks.Length == n
      ensures forall i: nat :: i in Members() <==> i < n
    {
      marks := new U16[n](_ => 0);
      cur := 0;
    }

    /** Whatever the stamp was, including just before a 16-bit wrap, the list is empty after. */
    method Reset()
      requires Valid()
      modifies this, marks
      ensures Valid() && Members() == {}
    {
      cur := (cur + 1) % TWO_16;
      if cur == 0 {
        forall i | 0 <= i < marks.Length {
          marks[i] := 0;
        }
        cur := 1;
      }
    }

    /** Reports whether i was a member and makes it one. */
    method TestAndSet(i: nat) returns (was: bool)
      requires Valid() && i < marks.Length
      modifies marks
      ensures Valid()
      ensures was == (i in old(Members()))
      ensures Members() == old(Members()) + {i}
    {
      if marks[i] == cur {
        return true;
      }
      marks[i] := cur;
      return false;
    }
  }

  datatype Op = Clear | Visit(slot: nat)

  /** What a plain set answers to a run of operations: each Visit reports membership and
      then inserts, each Clear empties. */
  function PlainSetAnswers(s: set<nat>, ops: seq<Op>): seq<bool>
    decreases |ops|
  {
    if ops == [] then []
    else match ops[0]
      case Clear => PlainSetAnswers({}, ops[1..])
      case Visit(i) => [i in s] + PlainSetAnswers(s + {i}, ops[1..])
  }

  function Slots(n: nat): (s: set<nat>)
    ensures forall i: nat :: i in s <==> i < n
  {
    if n == 0 then {} else Slots(n - 1) + {n - 1}
  }

  lemma AnswerMore(answers: seq<bool>, was: bool, later: seq<bool>)
    ensures answers + ([was] + later) == (answers + [was]) + later
  {
  }

  /** The stamped list answers every run, with any number of stamp wraps in it, as a
      plain set that starts with every slot present. */
  method RunStampedList(n: nat, ops: seq<Op>) returns (answers: seq<bool>)
    requires forall op | op in ops :: op.Visit? ==> op.slot < n
    ensures answers == PlainSetAnswers(Slots(n), ops)
  {
    var list := new VisitedList(n);
    assert list.Members() == Slots(n) && ops[0..] == ops;
    answers := [];
    for k := 0 to |ops|
      invariant list.Valid() && list.marks.Length == n && fresh(list) && fresh(list.marks)
      invariant answers + PlainSetAnswers(list.Members(), ops[k..]) == PlainSetAnswers(Slots(n), ops)
    {
      assert ops[k] in ops && ops[k..][0] == ops[k] && ops[k..][1..] == ops[k + 1..];
      ghost var members, later := list.Members(), ops[k + 1..];
      match ops[k] {
        case Clear =>
          list.Reset();
        case Visit(i) =>
          var was := list.TestAndSet(i);
          AnswerMore(answers, was, PlainSetAnswers(members + {i}, later));
          answers := answers + [was];
      }
    }
  }
}
