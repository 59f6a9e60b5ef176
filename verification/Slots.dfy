/** Searching a table of slots from the front, as every component with a fixed table does. */
module Slots {

  /** The first place whose slot has the property; the number of slots if none has. */
  function FirstWhere<T>(slots: seq<T>, has: T -> bool): nat {
    if slots == [] then 0 else if has(slots[0]) then 0 else 1 + FirstWhere(slots[1..], has)
  }

  lemma {:induction false} FirstWhereFound<T>(slots: seq<T>, has: T -> bool)
    ensures FirstWhere(slots, has) <= |slots|
    ensures FirstWhere(slots, has) < |slots| ==> has(slots[FirstWhere(slots, has)])
    ensures forall i :: 0 <= i < FirstWhere(slots, has) ==> !has(slots[i])
  {
    if slots != [] && !has(slots[0]) {
      FirstWhereFound(slots[1..], has);
      forall i | 0 <= i < FirstWhere(slots, has)
        ensures !has(slots[i])
      {
        if i > 0 { assert slots[i] == slots[1..][i - 1]; }
      }
    }
  }
}
