/**
 The shared `Counter` class: one private Kotlin `Int`, starting at 0, moved
 by `increment` and `decrement` and read by `getCount`.

 The class mutates a field in place; here a counter is an immutable value
 and each mutating method is a function from the old counter to the new one.
 */
module CounterModel {
  import opened Int32

  datatype Counter = Counter(count: int32)

  /** A mutating call on a counter. */
  datatype Op = Inc | Dec

  /** `Counter()`: the field starts at 0. */
  function Fresh(): (c: Counter)
    ensures GetCount(c) == 0
  {
    Counter(0)
  }

  /** `increment()`: the 32-bit successor, so `Int.MAX_VALUE` wraps to
      `Int.MIN_VALUE`. */
  function Increment(c: Counter): (r: Counter)
    ensures GetCount(r) == Wrap(GetCount(c) + 1)
    ensures GetCount(c) == MAX ==> GetCount(r) == MIN
  {
    Counter(Succ(c.count))
  }

  /** `decrement()`: the 32-bit predecessor; there is no floor at zero, and
      `Int.MIN_VALUE` wraps to `Int.MAX_VALUE`. */
  function Decrement(c: Counter): (r: Counter)
    ensures GetCount(r) == Wrap(GetCount(c) - 1)
    ensures GetCount(c) == 0 ==> GetCount(r) == -1
    ensures GetCount(c) == MIN ==> GetCount(r) == MAX
  {
    Counter(Pred(c.count))
  }

  /** `getCount()`: a read of the field. */
  function GetCount(c: Counter): (r: int32)
    ensures Counter(r) == c
  {
    c.count
  }

  function Apply(c: Counter, op: Op): Counter
  {
    match op
    case Inc => Increment(c)
    case Dec => Decrement(c)
  }

  /** The counter after the calls `ops`, in order. */
  function Run(c: Counter, ops: seq<Op>): Counter
    decreases |ops|
  {
    if ops == [] then c else Run(Apply(c, ops[0]), ops[1..])
  }

  /** The number of increments minus the number of decrements in `ops`. */
  function Net(ops: seq<Op>): int
    decreases |ops|
  {
    if ops == [] then 0
    else (if ops[0] == Inc then 1 else -1) + Net(ops[1..])
  }

  /** `increment` then `decrement`, and the other way round, restore the
      counter from every starting value. */
  lemma IncrementDecrementInverse(c: Counter)
    ensures Decrement(Increment(c)) == c
    ensures Increment(Decrement(c)) == c
  {
  }

  /** After any calls, the count is the starting count plus the net number
      of increments, reduced modulo 2^32 into the signed range. */
  lemma {:induction false} RunCount(c: Counter, ops: seq<Op>)
    ensures GetCount(Run(c, ops)) == Wrap(GetCount(c) + Net(ops))
    decreases |ops|
  {
    if ops != [] {
      var c' := Apply(c, ops[0]);
      RunCount(c', ops[1..]);
      var step := if ops[0] == Inc then 1 else -1;
      assert GetCount(c') == Wrap(GetCount(c) + step);
      WrapAddLeft(GetCount(c) + step, Net(ops[1..]));
    }
  }

  /** From a fresh counter, `getCount` equals (#increments - #decrements)
      reduced modulo 2^32 into the signed range. */
  lemma FreshRunCount(ops: seq<Op>)
    ensures GetCount(Run(Fresh(), ops)) == Wrap(Net(ops))
  {
    RunCount(Fresh(), ops);
  }

  /** Three increments and one decrement from a fresh counter read 2. */
  lemma ThreeUpOneDown()
    ensures GetCount(Run(Fresh(), [Inc, Inc, Inc, Dec])) == 2
  {
  }
}
