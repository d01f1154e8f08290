# Messaging101 inventory aggregate in Dafny

A model of the event-sourced `InventoryBucket` aggregate of Messaging101 and of
the command pipeline around it.

- `Events.dfy` (module `Events`). It holds the closed event family
  (`ItemCheckedIn`, `ItemCheckedOut`, `InventoryBucketCreated`), the
  `CheckItemOut` command, and the three exceptions the aggregate throws, as the
  `Error` datatype. It also holds the pure fold that replays a history into a
  quantity on hand. Quantities are C# `uint` values (`UInt32`). The source adds
  and subtracts them unchecked, so the fold wraps modulo 2^32 (`WrapAdd`,
  `WrapSub`). `NetCount` is the reference meaning in unbounded integers: the
  checked-in total minus the checked-out total.
- `Inventory.dfy` (module `Inventory`). The aggregate is a class with the source's
  two fields, `quantityOnHand` and `producedEvents`. A ghost field `history`
  holds the events the bucket was replayed from plus every event already
  drained. The object invariant `Valid()` says that the count is the fold of
  `history + producedEvents`. The methods are the replaying constructor (`Load`),
  `Apply`, `RaiseEvent`, `CheckItemIn`, `CheckItemOut` and `GetProducedEvents`.
  Thrown exceptions become an `Outcome` (`Pass` or `Fail(error)`). A constructor
  that throws becomes a `Result` that carries no bucket.
- `Handlers.dfy` (module `Handlers`). `CheckItemOutHandler` owns the in-memory
  event store, a `history` field that starts as `[ItemCheckedIn(100),
  ItemCheckedOut(50)]`. Its `Handle` rebuilds the bucket, checks the item out and
  appends what was produced. `LoggingHandler` is the decorator: it delegates the
  command unchanged and records its console lines as a trace. The demonstration
  run is split into three methods, and `ReplayRoundTrip` states its round trip
  for every sequence of calls.

Two consequences of the source's arithmetic and types:

- Quantities may be 0. The event constructors (Messaging101/Messaging101.cs:165-178)
  accept 0 and replay applies such events, so `UInt32` includes 0.
- The count is a `uint`. The unchecked `-=` in `Apply` (line 133) wraps when
  replay meets an overdrawn history (`Events.ReplayOverdrawnWraps`). The
  unchecked `+=` (line 131) wraps past 2^32 - 1. The public operations never
  overdraw (`Events.CheckOutKeepsNeverOverdrawn`, `Handlers.ReplayRoundTrip`).

## Model

| member | source | states |
|---|---|---|
| `Events.ReplayFailsIffUnrecognized` | Messaging101/Messaging101.cs:107-136 | Replaying a history fails exactly when it holds an event kind `Apply` has no rule for, and then the error is "Event type not matched." |
| `Events.ReplayIsNetCountModulo` | Messaging101/Messaging101.cs:128-133 | Fold correctness: replaying a recognised history yields the checked-in total minus the checked-out total, reduced modulo 2^32 as unchecked `uint` arithmetic does |
| `Events.ReplayIsNetCount` | Messaging101/Messaging101.cs:128-133 | When the net total of a recognised history fits in a `uint`, replay yields exactly that total |
| `Events.ReplayOverdrawnWraps` | Messaging101/Messaging101.cs:132-133 | Replaying an overdrawn history (in 5, out 6) wraps to 2^32 - 1 instead of going negative |
| `Events.CheckOutKeepsNeverOverdrawn` | Messaging101/Messaging101.cs:146-154 | Appending a checkout the aggregate accepts (quantity at most the replayed count) keeps every prefix of a never-overdrawn history at a non-negative net count |
| `Events.CheckInKeepsNeverOverdrawn` | Messaging101/Messaging101.cs:138-144 | Appending a check-in keeps a never-overdrawn history never overdrawn |
| `Events.NeverOverdrawnPrefixes` | Messaging101/Messaging101.cs:150-153 | In a never-overdrawn history, every prefix has a non-negative net count |
| `Events.PrefixesNeverOverdrawn` | Messaging101/Messaging101.cs:150-153 | Conversely, a history none of whose prefixes has a negative net count is never overdrawn |
| `Inventory.AcceptedCheckOutIsExact` | Messaging101/Messaging101.cs:146-154 | An accepted checkout subtracts without wrapping, and checking out the whole stock leaves 0 |
| `Inventory.CheckOutRule` | Messaging101/Messaging101.cs:146-153 | A checkout is accepted exactly when the quantity is positive and at most the stock, so a non-empty stock can be taken out in full. A zero quantity is rejected as "quantity is 0" before a positive quantity above the stock is rejected as insufficient stock |
| `Inventory.InventoryBucket.constructor` | Messaging101/Messaging101.cs:113-115 | The parameterless constructor gives count 0, no produced events and an empty history |
| `Inventory.InventoryBucket.Load` | Messaging101/Messaging101.cs:107-111 | Replaying constructor: it succeeds exactly when every event is recognised, and then the bucket is valid, has no produced events and holds the fold of the history. Otherwise it fails with "Event type not matched." and no bucket exists |
| `Inventory.InventoryBucket.Apply` | Messaging101/Messaging101.cs:128-136 | Succeeds exactly on the two known kinds and then moves the count by one fold step; on an unknown kind it throws and the count is unchanged |
| `Inventory.InventoryBucket.RaiseEvent` | Messaging101/Messaging101.cs:122-126 | Appends the event to the produced buffer, applies it, and keeps the count equal to the fold of everything applied |
| `Inventory.InventoryBucket.CheckItemIn` | Messaging101/Messaging101.cs:138-144 | Fails on 0 with nothing changed. Otherwise it appends exactly `ItemCheckedIn(q)` and adds `q` modulo 2^32 (exactly, when no overflow). The invariant is kept |
| `Inventory.InventoryBucket.CheckItemOut` | Messaging101/Messaging101.cs:146-154 | Fails on 0, then on a quantity above the stock, with nothing changed. Otherwise it appends exactly `ItemCheckedOut(q)` and subtracts `q` with no wrap. The invariant is kept |
| `Inventory.InventoryBucket.GetProducedEvents` | Messaging101/Messaging101.cs:100-105 | Returns the produced events in raise order and empties the buffer; the drained events join the history, which replays to the unchanged count |
| `Handlers.HandleAppendsOnly` | Messaging101/Messaging101.cs:52-63 | The store is append-only: the old history stays a prefix, at most one event is added, a rejected command adds nothing, and an accepted one lowers the replayed count by its quantity |
| `Handlers.CheckItemOutHandler.constructor` | Messaging101/Messaging101.cs:46-50 | The store starts as `[ItemCheckedIn(100), ItemCheckedOut(50)]` |
| `Handlers.CheckItemOutHandler.Handle` | Messaging101/Messaging101.cs:52-70 | Load, decide and append: the outcome is the rebuilt bucket's checkout decision. On failure the history is unchanged; on success it is the old history plus `[ItemCheckedOut(q)]` |
| `Handlers.LoggingHandler.constructor` | Messaging101/Messaging101.cs:31-34 | The decorator wraps the given handler and has written nothing yet |
| `Handlers.LoggingHandler.Handle` | Messaging101/Messaging101.cs:36-41 | Forwards the command unchanged and reflects the inner outcome and store update. It writes the start marker always and the finish marker only when the inner handler did not throw |
| `Handlers.PipelineDemo` | Messaging101/Messaging101.cs:74-79 | Checking out 10 through the logged pipeline stores `[in 100, out 50, out 10]` and logs start then finish |
| `Handlers.BucketDemo` | Messaging101/Messaging101.cs:81-87 | In 100, out 10, out 10, in 100 on an empty bucket gives 180. Draining yields the four events in issue order, and they replay to 180 |
| `Handlers.RebuildDemo` | Messaging101/Messaging101.cs:87-90 | A bucket rebuilt from the drained events holds 180 and has produced nothing |
| `Handlers.ReplayRoundTrip` | Messaging101/Messaging101.cs:81-90 | For any sequence of check-in and check-out calls on an empty bucket, the drained events replay to the bucket's count, and a bucket rebuilt from them holds the same count. The drained history is never overdrawn and has at most one event per call |

## Left out

- Console output: the "Produced:" lines of the handler and `ToString` are console I/O and are not modelled. The decorator's two lines are kept only as a trace of markers.
- The generic `IHandle<T>` interface and `LoggingHndler<T>`: the decorator is modelled only around `CheckItemOutHandler`, the one handler the program builds. The `ICommand` and `IEvent` marker interfaces become the `Command` and `Event` datatypes.
- The `static` history list: each `CheckItemOutHandler` owns its store, whereas the C# list is shared by every instance in the process. Concurrent use of the store is not modelled.
- Exception types: the three `ArgumentException`s become the `Error` constructors; their message texts appear only as comments.
- `Inventory.InventoryBucket.RaiseEvent`: it requires a recognised event. The source's only callers raise the two known kinds. If an unknown kind were raised, the C# code would leave it in the buffer before `Apply` threw; that path is not modelled.
- `Inventory.InventoryBucket.CheckItemIn` and `Inventory.InventoryBucket.CheckItemOut`: the method contracts do not restate the never-overdrawn property. The property is proved on the history itself, by `Events.CheckInKeepsNeverOverdrawn` and `Events.CheckOutKeepsNeverOverdrawn`.
