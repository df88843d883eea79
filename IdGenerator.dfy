/**
 * The process-wide id counter. Java keeps it in a static field; here it is
 * one object that every builder is handed.
 */
module Ids {
  import opened JavaText

  /** `++` on a Java long: one more, except that LONG_MAX wraps to LONG_MIN. */
  function Increment(n: int): (r: int)
    requires IsLong(n)
    ensures IsLong(r)
    ensures n < LONG_MAX ==> r == n + 1
    ensures n == LONG_MAX ==> r == LONG_MIN
  {
    if n == LONG_MAX then LONG_MIN else n + 1
  }

  /** The counter after k calls of generateID since the last reset. */
  function CounterAfter(k: nat): (c: int)
    ensures IsLong(c)
    ensures k <= LONG_MAX ==> c == k
  {
    if k == 0 then 0 else Increment(CounterAfter(k - 1))
  }

  /** The ids that the first k calls after a reset return, in call order. */
  function IssuedIds(k: nat): (ids: seq<int>)
    ensures |ids| == k
    ensures forall i :: 0 <= i < k ==> ids[i] == CounterAfter(i + 1)
  {
    if k == 0 then [] else IssuedIds(k - 1) + [CounterAfter(k)]
  }

  class IdGenerator {
    var currentId: int
    /** The ids handed out since the last reset. */
    ghost var issued: seq<int>

    ghost predicate Valid()
      reads this
    {
      currentId == CounterAfter(|issued|) && issued == IssuedIds(|issued|)
    }

    /** The static initialiser: the counter starts at 0. */
    constructor ()
      ensures Valid() && currentId == 0 && issued == []
    {
      currentId := 0;
      issued := [];
    }

    /** generateID(): increments the counter and returns the new value. */
    method GenerateId() returns (id: int)
      requires Valid()
      modifies this
      ensures Valid()
      ensures id == Increment(old(currentId)) && currentId == id
      ensures issued == old(issued) + [id]
    {
      currentId := Increment(currentId);
      id := currentId;
      issued := issued + [id];
    }

    /** reset(): the counter goes back to 0, whatever it was. */
    method Reset()
      modifies this
      ensures Valid() && currentId == 0 && issued == []
    {
      currentId := 0;
      issued := [];
    }
  }

  /** n calls after a reset return 1, 2, ..., n, as long as the counter does not wrap. */
  lemma IssuedIdsCount(n: nat)
    requires n <= LONG_MAX
    ensures forall i :: 0 <= i < n ==> IssuedIds(n)[i] == i + 1
  {
  }

  /** Each id is greater than every id returned before it since the last reset. */
  lemma {:induction false} IssuedIdsIncrease(n: nat)
    requires n <= LONG_MAX
    ensures forall i, j :: 0 <= i < j < n ==> IssuedIds(n)[i] < IssuedIds(n)[j]
  {
    var ids := IssuedIds(n);
    forall i, j | 0 <= i < j < n
      ensures ids[i] < ids[j]
    {
      assert ids[i] == CounterAfter(i + 1) == i + 1;
      assert ids[j] == CounterAfter(j + 1) == j + 1;
    }
  }

  /** The 2^63-th call after a reset would return LONG_MIN. */
  lemma CounterWraps()
    ensures CounterAfter(LONG_MAX + 1) == LONG_MIN
  {
  }

  /** A client: three calls after a reset return 1, 2 and 3. */
  method ThreeIdsAfterReset(gen: IdGenerator) returns (a: int, b: int, c: int)
    modifies gen
    ensures a == 1 && b == 2 && c == 3
  {
    gen.Reset();
    a := gen.GenerateId();
    b := gen.GenerateId();
    c := gen.GenerateId();
  }
}
