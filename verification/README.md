# Counter and CounterBridge

A model of the logic of a small Kotlin Multiplatform counter app. The logic has two layers:

- `Counter` is a shared class. It holds one Kotlin `Int`, starting at 0. `increment` and `decrement` move it by one, and `getCount` reads it.
- `CounterBridge` is the iOS-facing wrapper. It owns one `Counter` and one nullable callback property, `onCountChanged`. Every `increment`/`decrement` first mutates the counter. Then, if a callback is assigned, it invokes that callback once with the new count.

The model is functional:

- `Int32` gives Kotlin's `Int` semantics. `Wrap` is the reference reduction of an unbounded integer modulo 2^32 into the signed range. `Succ`/`Pred` are `x++`/`x--`, which wrap at `Int.MAX_VALUE`/`Int.MIN_VALUE`.
- `CounterModel` makes the counter an immutable value. Each method becomes a function from the old counter to the new one. `Run` drives a counter with a sequence of calls.
- `BridgeModel` makes the bridge a record `(counter, onCountChanged)`. Each call returns an `Outcome`: the new bridge plus the trace of handler invocations the call made. Handlers are opaque identifiers (`HandlerId`), and one invocation is a `Notification(handler, value)`. `Step` covers one call: increment, decrement, a read, or an assignment to `onCountChanged`. `Run` covers a sequence of calls.
- `Wrappers.Option` stands for a Kotlin nullable reference.

Kotlin `Int` arithmetic wraps in two's complement, so `count++` at `Int.MAX_VALUE` gives `Int.MIN_VALUE`; the model does the same.

## Model

| member | source | states |
|---|---|---|
| Int32.Wrap | composeApp/src/commonMain/kotlin/Counter.kt:2 | a Kotlin `Int` stays in [-2^31, 2^31-1]; the wrapped value is congruent to the exact value modulo 2^32 and equals it when already in range |
| Int32.Succ | composeApp/src/commonMain/kotlin/Counter.kt:4-6 | `x++` is the 32-bit two's-complement successor, i.e. `Wrap(x + 1)`, and is exactly `x + 1` below `Int.MAX_VALUE` |
| Int32.Pred | composeApp/src/commonMain/kotlin/Counter.kt:8-10 | `x--` is the 32-bit predecessor, i.e. `Wrap(x - 1)`, and is exactly `x - 1` above `Int.MIN_VALUE` |
| Int32.SuccPredInverse | composeApp/src/commonMain/kotlin/Counter.kt:4-10 | the 32-bit successor and predecessor undo each other for every value, extremes included |
| CounterModel.Fresh | composeApp/src/commonMain/kotlin/Counter.kt:2 | a freshly constructed counter reports 0 |
| CounterModel.GetCount | composeApp/src/commonMain/kotlin/Counter.kt:12-14 | `getCount` returns the counter's whole state: the counter is exactly the value read, so a read loses nothing and, being a function of the state, changes nothing |
| CounterModel.Increment | composeApp/src/commonMain/kotlin/Counter.kt:4-6 | `increment` makes `getCount` return the wrapped successor; `Int.MAX_VALUE` becomes `Int.MIN_VALUE` |
| CounterModel.Decrement | composeApp/src/commonMain/kotlin/Counter.kt:8-10 | `decrement` makes `getCount` return the wrapped predecessor; there is no floor (0 goes to -1), and `Int.MIN_VALUE` becomes `Int.MAX_VALUE` |
| CounterModel.IncrementDecrementInverse | composeApp/src/commonMain/kotlin/Counter.kt:4-10 | increment then decrement, and decrement then increment, restore every counter |
| CounterModel.RunCount | composeApp/src/commonMain/kotlin/Counter.kt:1-15 | after any sequence of calls, `getCount` is the starting value plus (#increments - #decrements), reduced modulo 2^32 into the signed range |
| CounterModel.FreshRunCount | composeApp/src/commonMain/kotlin/Counter.kt:1-15 | from a fresh counter, `getCount` is (#increments - #decrements) reduced modulo 2^32 into the signed range |
| CounterModel.ThreeUpOneDown | composeApp/src/commonMain/kotlin/Counter.kt:1-15 | three increments and one decrement from a fresh counter read 2 |
| BridgeModel.Fresh | composeApp/src/iosMain/kotlin/CounterBridge.kt:7-10 | a fresh bridge reads 0 and its callback slot is null |
| BridgeModel.GetCount | composeApp/src/iosMain/kotlin/CounterBridge.kt:22-24 | the bridge's `getCount` is the wrapped counter's value (boxing taken as identity); that a read changes nothing and notifies no one is stated by `BridgeModel.Step` for a `Read` call, whose outcome is the unchanged bridge and an empty trace |
| BridgeModel.Notify | composeApp/src/iosMain/kotlin/CounterBridge.kt:14-19 | `onCountChanged?.invoke(...)` makes one notification when the slot holds a handler and none when it is null, and any notification goes to that handler with the given value |
| BridgeModel.BridgeIncrement | composeApp/src/iosMain/kotlin/CounterBridge.kt:12-15 | `increment` steps the wrapped counter exactly as `Counter.increment` and keeps the slot; with the slot null it notifies no one; otherwise it notifies the slot's handler exactly once, with the value `getCount` now returns |
| BridgeModel.BridgeDecrement | composeApp/src/iosMain/kotlin/CounterBridge.kt:17-20 | the same for `decrement`, using `Counter.decrement` |
| BridgeModel.Step | composeApp/src/iosMain/kotlin/CounterBridge.kt:9-24 | each call changes the count as the counter operations it contains would; an increment or decrement notifies the slot (via `Notify`) with the new count; `getCount` leaves the bridge unchanged and notifies no one; assigning `onCountChanged` replaces the slot and notifies no one; no other call touches the slot |
| BridgeModel.RunAgreesWithCounter | composeApp/src/iosMain/kotlin/CounterBridge.kt:7-20 | for any sequence of calls, the bridge's counter equals a plain `Counter` driven by the same increments and decrements, and the slot holds the last handler assigned |
| BridgeModel.FreshRunCount | composeApp/src/iosMain/kotlin/CounterBridge.kt:7-24 | a fresh bridge driven by any calls reads (#increments - #decrements) reduced modulo 2^32 into the signed range |
| BridgeModel.RunNotificationCount | composeApp/src/iosMain/kotlin/CounterBridge.kt:10-20 | the number of notifications equals the number of increments and decrements made while a handler was assigned |
| BridgeModel.OnlyAssignedHandlerNotified | composeApp/src/iosMain/kotlin/CounterBridge.kt:10-20 | with no assignment in between, every notification goes to the handler in the slot, and none is made when the slot is null |
| BridgeModel.AssignThenRun | composeApp/src/iosMain/kotlin/CounterBridge.kt:9-20 | after an assignment to `onCountChanged`, and with no further assignment, every notification goes to the assigned handler, and none is made if it is null |
| BridgeModel.LatestHandlerOnly | composeApp/src/iosMain/kotlin/CounterBridge.kt:9-20 | after an assignment to `onCountChanged`, notifications go only to the newly assigned handler (none if it is null), never to an earlier one; earlier notifications are unaffected |
| BridgeModel.NotificationCarriesCount | composeApp/src/iosMain/kotlin/CounterBridge.kt:12-24 | in any run without an assignment, mixing increments, decrements and `getCount` reads in any order, each further call extends the trace by exactly what it makes: a read adds nothing to the trace and each increment/decrement adds exactly one notification to the slot's handler (none when the slot is null), carrying what `getCount` returns right after that call |
| BridgeModel.IncrementThenDecrementNotifies | composeApp/src/iosMain/kotlin/CounterBridge.kt:12-20 | on a fresh bridge with a handler assigned, `increment` notifies it with 1 and a following `decrement` notifies it with 0 |

## Left out

- `CounterViewModel` (`composeApp/src/commonMain/kotlin/presentation/CounterViewModel.kt`) is not part of this model. It is a thin wrapper over a coroutine `MutableStateFlow`, whose subscription, conflation and delivery semantics belong to a library outside the repository. Its own logic (start at 0, add 1) is the same as `Counter`'s.
- The Compose `CountUp` widget and the SwiftUI `ContentView` are not part of this model. They are UI layout and state binding.
- `NSNumber` boxing is treated as the identity on the integer. The `@ObjCName` annotations only rename for Objective-C and have no behaviour.
- Callback bodies are foreign closures. A handler is an opaque identifier, and it is assumed never to call back into the bridge, so re-entrancy is not modelled.
- Threading is not modelled. The bridge has no synchronisation, and every call is taken to run to completion before the next one.
- Object identity is not modelled. The counter and bridge are values, so "the same instance" means the value threaded through `Run`. `getCount` is a plain function of that value, so two reads with no call between them agree by construction.
