/** The command pipeline: the application service that loads the aggregate from the
    stored history, decides, and appends what was produced; the logging decorator
    around it; and the demonstration run. */
module Handlers {
  import opened Events
  import opened Inventory

  /** What handling CheckItemOut(quantity) against a stored history decides: a
      history that cannot be replayed fails construction, otherwise the rebuilt
      bucket's checkout decision stands. */
  function HandleOutcome(stored: seq<Event>, quantity: UInt32): (r: Outcome) {
    match Replay(stored)
    case Err(e) => Fail(e)
    case Ok(count) => CheckOutOutcome(count, quantity)
  }

  /** The history a handled checkout leaves in the store. */
  function StoredAfter(stored: seq<Event>, quantity: UInt32): (after: seq<Event>) {
    if HandleOutcome(stored, quantity).Pass? then stored + [ItemCheckedOut(quantity)] else stored
  }

  /** The store is append-only: handling a command keeps the old history as a
      prefix and adds at most the one checkout event, and an accepted checkout
      lowers the replayed count by exactly its quantity. */
  lemma HandleAppendsOnly(stored: seq<Event>, quantity: UInt32)
    ensures |StoredAfter(stored, quantity)| <= |stored| + 1
    ensures StoredAfter(stored, quantity)[..|stored|] == stored
    ensures HandleOutcome(stored, quantity).Pass? ==>
              Replay(stored).Ok? && Replay(StoredAfter(stored, quantity)) == Ok(Replay(stored).value - quantity)
    ensures HandleOutcome(stored, quantity).Fail? ==> StoredAfter(stored, quantity) == stored
  {
  }

  /** The history the handler starts from. */
  function InitialHistory(): (h: seq<Event>) {
    [ItemCheckedIn(100), ItemCheckedOut(50)]
  }

  /** The in-memory event store and the service that handles CheckItemOut with it. */
  class CheckItemOutHandler {
    var history: seq<Event>

    constructor ()
      ensures history == InitialHistory()
    {
      history := InitialHistory();
    }

    /** Load the bucket from the history, check the item out, and append the
        produced events; a failure anywhere leaves the history untouched. */
    method Handle(message: Command) returns (r: Outcome)
      modifies this
      ensures r == HandleOutcome(old(history), message.quantity)
      ensures history == StoredAfter(old(history), message.quantity)
      ensures r.Fail? ==> history == old(history)
      ensures r.Pass? ==> history == old(history) + [ItemCheckedOut(message.quantity)]
    {
      var loaded := InventoryBucket.Load(history);
      if loaded.Err? {
        return Fail(loaded.error);
      }
      var obj := loaded.value;
      r := obj.CheckItemOut(message.quantity);
      if r.Fail? {
        return;
      }
      var producedEvents := obj.GetProducedEvents();
      if |producedEvents| > 0 {
        history := history + producedEvents;
      }
    }
  }

  /** The console lines the decorator writes, one per marker. */
  datatype LogLine = AboutToDo(command: string) | FinishedDoing(command: string)

  /** The runtime type name the decorator prints for the command. */
  const CHECK_ITEM_OUT_TYPE: string := "Messaging101.Program+CheckItemOut"

  /** The logging decorator: writes a start marker, delegates the command
      unchanged, and writes a finish marker only when the inner handler did not
      throw. The console is the `output` field. */
  class LoggingHandler {
    const next: CheckItemOutHandler
    var output: seq<LogLine>

    constructor (next: CheckItemOutHandler)
      ensures this.next == next && output == []
    {
      this.next := next;
      output := [];
    }

    method Handle(message: Command) returns (r: Outcome)
      modifies this, next
      ensures r == HandleOutcome(old(next.history), message.quantity)
      ensures next.history == StoredAfter(old(next.history), message.quantity)
      ensures output == old(output) + [AboutToDo(CHECK_ITEM_OUT_TYPE)] +
                        (if r.Pass? then [FinishedDoing(CHECK_ITEM_OUT_TYPE)] else [])
    {
      output := output + [AboutToDo(CHECK_ITEM_OUT_TYPE)];
      r := next.Handle(message);
      if r.Pass? {
        output := output + [FinishedDoing(CHECK_ITEM_OUT_TYPE)];
      }
    }
  }

  /** The first half of the demonstration run: one checkout of 10 through the
      logged pipeline over the initial history. */
  method PipelineDemo() returns (stored: seq<Event>, log: seq<LogLine>)
    ensures stored == [ItemCheckedIn(100), ItemCheckedOut(50), ItemCheckedOut(10)]
    ensures log == [AboutToDo(CHECK_ITEM_OUT_TYPE), FinishedDoing(CHECK_ITEM_OUT_TYPE)]
  {
    var handler := new CheckItemOutHandler();
    var pipeline := new LoggingHandler(handler);
    assert Replay(InitialHistory()) == Ok(50) by {
      assert InitialHistory()[..1] == [ItemCheckedIn(100)];
    }
    var _ := pipeline.Handle(CheckItemOut(10));
    stored := handler.history;
    log := pipeline.output;
  }

  /** The second half of the demonstration run: a bucket built from nothing checks
      in 100, out 10, out 10 and in 100; draining it yields the four events in issue
      order, and they replay to the bucket's count of 180. */
  method BucketDemo() returns (drained: seq<Event>, counted: UInt32)
    ensures drained == [ItemCheckedIn(100), ItemCheckedOut(10), ItemCheckedOut(10), ItemCheckedIn(100)]
    ensures counted == 180
    ensures Replay(drained) == Ok(counted)
  {
    var bucket := new InventoryBucket();
    var _ := bucket.CheckItemIn(100);
    assert bucket.quantityOnHand == 100 && bucket.producedEvents == [ItemCheckedIn(100)];
    var _ := bucket.CheckItemOut(10);
    assert bucket.quantityOnHand == 90;
    var _ := bucket.CheckItemOut(10);
    assert bucket.quantityOnHand == 80;
    var _ := bucket.CheckItemIn(100);
    counted := bucket.quantityOnHand;
    drained := bucket.GetProducedEvents();
    assert bucket.history == drained;
  }

  /** The end of the demonstration run: a fresh bucket rebuilt from the drained
      events holds 180 and has produced nothing. */
  method RebuildDemo() returns (rebuilt: UInt32, leftover: seq<Event>)
    ensures rebuilt == 180 && leftover == []
  {
    var drained, counted := BucketDemo();
    ReplayFailsIffUnrecognized(drained);
    var item := InventoryBucket.Load(drained);
    rebuilt := item.value.quantityOnHand;
    leftover := item.value.GetProducedEvents();
  }

  /** A call a client makes on a bucket. */
  datatype Request = CheckIn(quantity: UInt32) | CheckOut(quantity: UInt32)

  /** The round trip for every sequence of calls: a bucket built from nothing runs
      `requests` (rejected ones change nothing), is drained, and is rebuilt from the
      drained events. The rebuilt bucket holds the same count and has produced
      nothing, and the drained history is never overdrawn. */
  method ReplayRoundTrip(requests: seq<Request>) returns (counted: UInt32, drained: seq<Event>, rebuilt: UInt32)
    ensures rebuilt == counted
    ensures Replay(drained) == Ok(counted)
    ensures |drained| <= |requests|
    ensures NeverOverdrawn(drained)
  {
    var bucket := new InventoryBucket();
    var i := 0;
    while i < |requests|
      invariant 0 <= i <= |requests|
      invariant bucket.Valid() && bucket.history == []
      invariant |bucket.producedEvents| <= i
      invariant NeverOverdrawn(bucket.producedEvents)
    {
      ghost var before := bucket.producedEvents;
      match requests[i] {
        case CheckIn(q) =>
          var _ := bucket.CheckItemIn(q);
          CheckInKeepsNeverOverdrawn(before, q);
        case CheckOut(q) =>
          assert [] + before == before;
          ReplayFailsIffUnrecognized(before);
          var accepted := bucket.CheckItemOut(q);
          if accepted.Pass? {
            CheckOutKeepsNeverOverdrawn(before, q);
          }
      }
      i := i + 1;
    }
    counted := bucket.quantityOnHand;
    drained := bucket.GetProducedEvents();
    assert bucket.history == drained;
    ReplayFailsIffUnrecognized(drained);
    var item := InventoryBucket.Load(drained);
    rebuilt := item.value.quantityOnHand;
  }
}
