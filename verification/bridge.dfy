/**
 The iOS `CounterBridge`: one wrapped `Counter` and one nullable callback
 slot `onCountChanged`. Each `increment`/`decrement` mutates the counter and
 then, when the slot holds a handler, invokes it once with the new count.

 Handlers are foreign closures; here each is an opaque identifier, and a
 call to it is recorded as a `Notification` in the trace an operation
 returns. A handler is taken never to call back into the bridge.
 */
module BridgeModel {
  import opened Int32
  import opened Wrappers
  import CounterModel

  /** The identity of a closure assigned to `onCountChanged`. */
  datatype HandlerId = HandlerId(id: nat)

  /** One invocation of a handler with a count. */
  datatype Notification = Notification(handler: HandlerId, value: int32)

  datatype Bridge = Bridge(counter: CounterModel.Counter, onCountChanged: Option<HandlerId>)

  /** The bridge after an operation, and the handler invocations it made. */
  datatype Outcome = Outcome(bridge: Bridge, emitted: seq<Notification>)

  /** A call a client makes on the bridge: the three methods, and an
      assignment to the `onCountChanged` property. */
  datatype Call = Increment | Decrement | Read | Assign(handler: Option<HandlerId>)

  /** `CounterBridge()`: a fresh counter and an empty slot. */
  function Fresh(): (b: Bridge)
    ensures GetCount(b) == 0
    ensures b.onCountChanged == None
  {
    Bridge(CounterModel.Fresh(), None)
  }

  /** `getCount()`: the wrapped counter's value. */
  function GetCount(b: Bridge): (r: int32)
    ensures CounterModel.Counter(r) == b.counter
  {
    CounterModel.GetCount(b.counter)
  }

  /** `onCountChanged?.invoke(...)`: one notification when the slot is set,
      none when it is null. */
  function Notify(slot: Option<HandlerId>, value: int32): (ns: seq<Notification>)
    ensures |ns| == (if slot.Some? then 1 else 0)
    ensures forall n :: n in ns ==> slot == Some(n.handler) && n.value == value
  {
    match slot
    case None => []
    case Some(h) => [Notification(h, value)]
  }

  /** `increment()`: the counter steps exactly as `Counter.increment` does;
      the slot, if set, hears once of the count `getCount` now returns. */
  function BridgeIncrement(b: Bridge): (o: Outcome)
    ensures o.bridge.counter == CounterModel.Increment(b.counter)
    ensures o.bridge.onCountChanged == b.onCountChanged
    ensures b.onCountChanged == None ==> o.emitted == []
    ensures b.onCountChanged.Some? ==>
              o.emitted == [Notification(b.onCountChanged.value, GetCount(o.bridge))]
  {
    var b' := b.(counter := CounterModel.Increment(b.counter));
    Outcome(b', Notify(b.onCountChanged, GetCount(b')))
  }

  /** `decrement()`: as `increment()`, with `Counter.decrement`. */
  function BridgeDecrement(b: Bridge): (o: Outcome)
    ensures o.bridge.counter == CounterModel.Decrement(b.counter)
    ensures o.bridge.onCountChanged == b.onCountChanged
    ensures b.onCountChanged == None ==> o.emitted == []
    ensures b.onCountChanged.Some? ==>
              o.emitted == [Notification(b.onCountChanged.value, GetCount(o.bridge))]
  {
    var b' := b.(counter := CounterModel.Decrement(b.counter));
    Outcome(b', Notify(b.onCountChanged, GetCount(b')))
  }

  /** One call on the bridge. Reading and assigning the slot notify no one
      and leave the count alone; an assignment replaces the earlier handler. */
  function Step(b: Bridge, call: Call): (o: Outcome)
    ensures GetCount(o.bridge) == CounterModel.GetCount(CounterModel.Run(b.counter, Mutations([call])))
    ensures (call.Increment? || call.Decrement?) ==>
              o.emitted == Notify(b.onCountChanged, GetCount(o.bridge))
    ensures call.Read? ==> o == Outcome(b, [])
    ensures call.Assign? ==> o.emitted == [] && o.bridge.onCountChanged == call.handler
    ensures !call.Assign? ==> o.bridge.onCountChanged == b.onCountChanged
  {
    match call
    case Increment => BridgeIncrement(b)
    case Decrement => BridgeDecrement(b)
    case Read => Outcome(b, [])
    case Assign(h) => Outcome(b.(onCountChanged := h), [])
  }

  /** The bridge after the calls `calls`, in order, with every notification
      they made, in order. */
  function Run(b: Bridge, calls: seq<Call>): Outcome
    decreases |calls|
  {
    if calls == [] then Outcome(b, [])
    else
      var first := Step(b, calls[0]);
      var rest := Run(first.bridge, calls[1..]);
      Outcome(rest.bridge, first.emitted + rest.emitted)
  }

  // Reference definitions the runs are compared with.

  /** The counter operations among `calls`, in order. */
  function Mutations(calls: seq<Call>): seq<CounterModel.Op>
    decreases |calls|
  {
    if calls == [] then []
    else
      match calls[0]
      case Increment => [CounterModel.Inc] + Mutations(calls[1..])
      case Decrement => [CounterModel.Dec] + Mutations(calls[1..])
      case _ => Mutations(calls[1..])
  }

  /** The slot after `calls`: the last assignment among them, else `slot`. */
  function SlotAfter(slot: Option<HandlerId>, calls: seq<Call>): Option<HandlerId>
    decreases |calls|
  {
    if calls == [] then slot
    else SlotAfter(if calls[0].Assign? then calls[0].handler else slot, calls[1..])
  }

  /** How many of `calls` are increments or decrements made while a handler
      was assigned, starting from `slot`. */
  function NotifyingCalls(slot: Option<HandlerId>, calls: seq<Call>): nat
    decreases |calls|
  {
    if calls == [] then 0
    else if calls[0].Assign? then NotifyingCalls(calls[0].handler, calls[1..])
    else if calls[0].Read? || slot.None? then NotifyingCalls(slot, calls[1..])
    else 1 + NotifyingCalls(slot, calls[1..])
  }

  predicate NoAssign(calls: seq<Call>)
  {
    forall i :: 0 <= i < |calls| ==> !calls[i].Assign?
  }

  // Properties of runs.

  /** Driving the bridge moves its counter exactly as driving a plain
      `Counter` with the same increments and decrements; the slot ends as
      the last assignment left it. */
  lemma {:induction false} RunAgreesWithCounter(b: Bridge, calls: seq<Call>)
    ensures Run(b, calls).bridge.counter == CounterModel.Run(b.counter, Mutations(calls))
    ensures Run(b, calls).bridge.onCountChanged == SlotAfter(b.onCountChanged, calls)
    decreases |calls|
  {
    if calls != [] {
      var first := Step(b, calls[0]);
      RunAgreesWithCounter(first.bridge, calls[1..]);
      match calls[0]
      case Increment =>
        assert Mutations(calls) == [CounterModel.Inc] + Mutations(calls[1..]);
        assert ([CounterModel.Inc] + Mutations(calls[1..]))[1..] == Mutations(calls[1..]);
      case Decrement =>
        assert Mutations(calls) == [CounterModel.Dec] + Mutations(calls[1..]);
        assert ([CounterModel.Dec] + Mutations(calls[1..]))[1..] == Mutations(calls[1..]);
      case Read =>
      case Assign(h) =>
    }
  }

  /** A fresh bridge driven by any calls reads the net number of increments,
      reduced modulo 2^32 into the signed range. */
  lemma FreshRunCount(calls: seq<Call>)
    ensures GetCount(Run(Fresh(), calls).bridge) == Wrap(CounterModel.Net(Mutations(calls)))
  {
    RunAgreesWithCounter(Fresh(), calls);
    CounterModel.FreshRunCount(Mutations(calls));
  }

  /** One notification per increment or decrement made while a handler
      was assigned, and no others. */
  lemma {:induction false} RunNotificationCount(b: Bridge, calls: seq<Call>)
    ensures |Run(b, calls).emitted| == NotifyingCalls(b.onCountChanged, calls)
    decreases |calls|
  {
    if calls != [] {
      RunNotificationCount(Step(b, calls[0]).bridge, calls[1..]);
    }
  }

  /** Running `xs` then `ys` is running `xs + ys`. */
  lemma {:induction false} RunAppend(b: Bridge, xs: seq<Call>, ys: seq<Call>)
    ensures Run(b, xs + ys).bridge == Run(Run(b, xs).bridge, ys).bridge
    ensures Run(b, xs + ys).emitted == Run(b, xs).emitted + Run(Run(b, xs).bridge, ys).emitted
    decreases |xs|
  {
    if xs == [] {
      assert xs + ys == ys;
    } else {
      assert (xs + ys)[0] == xs[0];
      assert (xs + ys)[1..] == xs[1..] + ys;
      RunAppend(Step(b, xs[0]).bridge, xs[1..], ys);
    }
  }

  /** Without an assignment, every notification goes to the handler already
      in the slot, and there are none when the slot is null. */
  lemma {:induction false} OnlyAssignedHandlerNotified(b: Bridge, calls: seq<Call>)
    requires NoAssign(calls)
    ensures forall n :: n in Run(b, calls).emitted ==> b.onCountChanged == Some(n.handler)
    ensures b.onCountChanged == None ==> Run(b, calls).emitted == []
    decreases |calls|
  {
    if calls != [] {
      var first := Step(b, calls[0]);
      assert NoAssign(calls[1..]) by {
        forall i | 0 <= i < |calls[1..]| ensures !calls[1..][i].Assign? {
          assert calls[1..][i] == calls[i + 1];
        }
      }
      OnlyAssignedHandlerNotified(first.bridge, calls[1..]);
    }
  }

  /** An assignment followed by calls without one: every notification goes
      to the assigned handler, and there are none if it is null. */
  lemma AssignThenRun(b: Bridge, h: Option<HandlerId>, after: seq<Call>)
    requires NoAssign(after)
    ensures forall n :: n in Run(b, [Assign(h)] + after).emitted ==> h == Some(n.handler)
    ensures h == None ==> Run(b, [Assign(h)] + after).emitted == []
  {
    var slotSet := b.(onCountChanged := h);
    assert ([Assign(h)] + after)[0] == Assign(h);
    assert ([Assign(h)] + after)[1..] == after;
    assert Run(b, [Assign(h)] + after) == Run(slotSet, after);
    OnlyAssignedHandlerNotified(slotSet, after);
  }

  /** Assigning `onCountChanged` replaces the earlier handler: every
      notification after the assignment (and until the next one) goes to
      the new handler, and none at all when it assigns null. Notifications
      made before the assignment are unchanged. */
  lemma LatestHandlerOnly(b: Bridge, before: seq<Call>, h: Option<HandlerId>, after: seq<Call>)
    requires NoAssign(after)
    ensures var all := Run(b, before + [Assign(h)] + after).emitted;
            var earlier := Run(b, before).emitted;
            && earlier <= all
            && (forall i :: |earlier| <= i < |all| ==> h == Some(all[i].handler))
            && (h == None ==> all == earlier)
  {
    var rest := [Assign(h)] + after;
    assert before + [Assign(h)] + after == before + rest;
    RunAppend(b, before, rest);
    var mid := Run(b, before).bridge;
    AssignThenRun(mid, h, after);
    var earlier := Run(b, before).emitted;
    var tail := Run(mid, rest).emitted;
    var all := Run(b, before + rest).emitted;
    assert all == earlier + tail;
    forall i | |earlier| <= i < |all|
      ensures h == Some(all[i].handler)
    {
      assert all[i] == tail[i - |earlier|];
    }
  }

  /** Without an assignment the slot keeps its handler. */
  lemma {:induction false} SlotAfterNoAssign(slot: Option<HandlerId>, calls: seq<Call>)
    requires NoAssign(calls)
    ensures SlotAfter(slot, calls) == slot
    decreases |calls|
  {
    if calls != [] {
      assert NoAssign(calls[1..]) by {
        forall i | 0 <= i < |calls[1..]| ensures !calls[1..][i].Assign? {
          assert calls[1..][i] == calls[i + 1];
        }
      }
      SlotAfterNoAssign(slot, calls[1..]);
    }
  }

  /** In a run without assignments, mixing increments, decrements and reads
      in any order, each call adds to the trace exactly what it makes: a read
      nothing, an increment or decrement one notification to the slot's
      handler (none when the slot is null) carrying what `getCount` returns
      right after that call. */
  lemma NotificationCarriesCount(b: Bridge, prefix: seq<Call>, call: Call)
    requires NoAssign(prefix)
    requires !call.Assign?
    ensures Run(b, prefix + [call]).emitted
            == Run(b, prefix).emitted
               + (if call.Read? then []
                  else Notify(b.onCountChanged, GetCount(Run(b, prefix + [call]).bridge)))
  {
    RunAppend(b, prefix, [call]);
    RunAgreesWithCounter(b, prefix);
    SlotAfterNoAssign(b.onCountChanged, prefix);
    var mid := Run(b, prefix).bridge;
    assert [call][1..] == [];
    var last := Step(mid, call);
    assert Run(mid, [call]) == Outcome(last.bridge, last.emitted);
  }

  /** With a handler assigned on a fresh bridge, `increment()` notifies it
      with 1 and a following `decrement()` with 0. */
  lemma IncrementThenDecrementNotifies(h: HandlerId)
    ensures Run(Fresh(), [Assign(Some(h)), Increment, Decrement]).emitted
            == [Notification(h, 1), Notification(h, 0)]
  {
    var calls := [Assign(Some(h)), Increment, Decrement];
    var s1 := Step(Fresh(), calls[0]);
    var s2 := Step(s1.bridge, Increment);
    var s3 := Step(s2.bridge, Decrement);
    assert s2.emitted == [Notification(h, 1)];
    assert s3.emitted == [Notification(h, 0)];
    assert calls[1..] == [Increment, Decrement];
    assert calls[1..][1..] == [Decrement];
    assert calls[1..][1..][1..] == [];
    assert Run(s2.bridge, [Decrement]).emitted == s3.emitted;
    assert Run(s1.bridge, [Increment, Decrement]).emitted == s2.emitted + s3.emitted;
  }
}
