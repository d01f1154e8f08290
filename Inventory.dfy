/** The event-sourced inventory aggregate: a quantity on hand derived from events,
    two operations that validate and then raise one event each, and a destructive
    drain of the events raised so far. */
module Inventory {
  import opened Events

  /** What CheckItemOut decides for a bucket holding `count`: it rejects a zero
      quantity first, then a quantity larger than the stock. */
  function CheckOutOutcome(count: UInt32, quantity: UInt32): (r: Outcome) {
    if quantity == 0 then Fail(QuantityIsZero)
    else if count < quantity then Fail(InsufficientStock)
    else Pass
  }

  /** What CheckItemIn decides: only a zero quantity is rejected. */
  function CheckInOutcome(quantity: UInt32): (r: Outcome) {
    if quantity == 0 then Fail(QuantityIsZero) else Pass
  }

  /** An accepted checkout subtracts without wrapping, so the count never goes below
      zero, and checking out the whole stock leaves exactly zero. */
  lemma AcceptedCheckOutIsExact(count: UInt32, quantity: UInt32)
    requires CheckOutOutcome(count, quantity) == Pass
    ensures Step(count, ItemCheckedOut(quantity)) == Ok(count - quantity)
    ensures quantity == count ==> Step(count, ItemCheckedOut(quantity)) == Ok(0)
  {
  }

  /** The checkout decision rule read as a whole: a checkout is accepted exactly
      when the quantity is positive and at most the stock (so a non-empty stock
      can be taken out in full); otherwise zero is reported before a shortfall. */
  lemma CheckOutRule(count: UInt32, quantity: UInt32)
    ensures CheckOutOutcome(count, quantity) == Pass <==> 0 < quantity <= count
    ensures quantity == 0 ==> CheckOutOutcome(count, quantity) == Fail(QuantityIsZero)
    ensures 0 < quantity && count < quantity ==> CheckOutOutcome(count, quantity) == Fail(InsufficientStock)
  {
  }

  class InventoryBucket {
    /** Events raised since construction or since the last drain. */
    var producedEvents: seq<Event>
    var quantityOnHand: UInt32

    /** The events this bucket was replayed from, followed by every event already
        drained: together with producedEvents, everything ever applied to it. */
    ghost var history: seq<Event>

    /** The count is the fold of everything applied, in order. */
    ghost predicate Valid()
      reads this
    {
      Replay(history + producedEvents) == Ok(quantityOnHand)
    }

    /** The parameterless constructor: an empty bucket. */
    constructor ()
      ensures Valid()
      ensures quantityOnHand == 0 && producedEvents == [] && history == []
    {
      producedEvents := [];
      quantityOnHand := 0;
      history := [];
      new;
      assert history + producedEvents == [];
    }

    /** The constructor that replays `events` through Apply. An event kind Apply has
        no rule for aborts construction, so no bucket is produced. Replay raises
        nothing: the new bucket has no produced events. */
    static method Load(events: seq<Event>) returns (r: Result<InventoryBucket>)
      ensures r.Ok? <==> AllRecognized(events)
      ensures r.Err? ==> r.error == EventTypeNotMatched && Replay(events) == Err(EventTypeNotMatched)
      ensures r.Ok? ==> fresh(r.value) && r.value.Valid()
      ensures r.Ok? ==> r.value.producedEvents == [] && r.value.history == events
      ensures r.Ok? ==> Replay(events) == Ok(r.value.quantityOnHand)
    {
      var b := new InventoryBucket();
      var i := 0;
      while i < |events|
        invariant 0 <= i <= |events|
        invariant b.producedEvents == [] && b.history == events[..i]
        invariant Replay(events[..i]) == Ok(b.quantityOnHand)
        invariant forall j :: 0 <= j < i ==> events[j].Recognized()
      {
        var applied := b.Apply(events[i]);
        if applied.Fail? {
          ReplayFailsIffUnrecognized(events);
          return Err(applied.error);
        }
        ReplaySnoc(events[..i], events[i]);
        assert events[..i + 1] == events[..i] + [events[i]];
        b.history := b.history + [events[i]];
        i := i + 1;
      }
      assert events[..i] == events;
      assert b.history + b.producedEvents == events;
      return Ok(b);
    }

    /** Apply: folds one event into the count with the source's unchecked `uint`
        arithmetic; an event kind without a rule throws and changes nothing. */
    method Apply(e: Event) returns (r: Outcome)
      modifies this`quantityOnHand
      ensures r.Pass? <==> e.Recognized()
      ensures r.Fail? ==> r.error == EventTypeNotMatched && quantityOnHand == old(quantityOnHand)
      ensures r.Pass? ==> Step(old(quantityOnHand), e) == Ok(quantityOnHand)
    {
      match e {
        case ItemCheckedIn(q) =>
          quantityOnHand := WrapAdd(quantityOnHand, q);
          r := Pass;
        case ItemCheckedOut(q) =>
          quantityOnHand := WrapSub(quantityOnHand, q);
          r := Pass;
        case InventoryBucketCreated(_, _) =>
          r := Fail(EventTypeNotMatched);
      }
    }

    /** RaiseEvent: records `e` as produced, then applies it. Its callers only raise
        the two kinds Apply has a rule for. */
    method RaiseEvent(e: Event)
      requires Valid() && e.Recognized()
      modifies this`producedEvents, this`quantityOnHand
      ensures Valid() && history == old(history)
      ensures producedEvents == old(producedEvents) + [e]
      ensures Step(old(quantityOnHand), e) == Ok(quantityOnHand)
    {
      ghost var applied := history + producedEvents;
      producedEvents := producedEvents + [e];
      var _ := Apply(e);
      ReplaySnoc(applied, e);
      assert history + producedEvents == applied + [e];
    }

    /** CheckItemIn: rejects a zero quantity with no change; otherwise raises exactly
        one ItemCheckedIn carrying the quantity, which adds it to the count (modulo
        2^32, as the source's unchecked addition does). */
    method CheckItemIn(quantity: UInt32) returns (r: Outcome)
      requires Valid()
      modifies this`producedEvents, this`quantityOnHand
      ensures Valid() && history == old(history)
      ensures r == CheckInOutcome(quantity)
      ensures r.Fail? ==> producedEvents == old(producedEvents) && quantityOnHand == old(quantityOnHand)
      ensures r.Pass? ==> producedEvents == old(producedEvents) + [ItemCheckedIn(quantity)]
      ensures r.Pass? ==> quantityOnHand == WrapAdd(old(quantityOnHand), quantity)
      ensures r.Pass? && old(quantityOnHand) + quantity < UINT32_MODULUS ==>
                quantityOnHand == old(quantityOnHand) + quantity
    {
      if quantity == 0 {
        return Fail(QuantityIsZero);
      }
      RaiseEvent(ItemCheckedIn(quantity));
      r := Pass;
    }

    /** CheckItemOut: rejects a zero quantity, then a quantity above the stock, in
        both cases with no change; otherwise raises exactly one ItemCheckedOut
        carrying the quantity, which subtracts it from the count without wrapping. */
    method CheckItemOut(quantity: UInt32) returns (r: Outcome)
      requires Valid()
      modifies this`producedEvents, this`quantityOnHand
      ensures Valid() && history == old(history)
      ensures r == CheckOutOutcome(old(quantityOnHand), quantity)
      ensures r.Fail? ==> producedEvents == old(producedEvents) && quantityOnHand == old(quantityOnHand)
      ensures r.Pass? ==> producedEvents == old(producedEvents) + [ItemCheckedOut(quantity)]
      ensures r.Pass? ==> quantityOnHand == old(quantityOnHand) - quantity
    {
      if quantity == 0 {
        return Fail(QuantityIsZero);
      }
      if quantityOnHand < quantity {
        return Fail(InsufficientStock);
      }
      RaiseEvent(ItemCheckedOut(quantity));
      r := Pass;
    }

    /** GetProducedEvents: hands over the raised events in raise order and empties
        the buffer, so each event is delivered once; the drained events join the
        history and still replay to the current count. */
    method GetProducedEvents() returns (drained: seq<Event>)
      requires Valid()
      modifies this`producedEvents, this`history
      ensures Valid()
      ensures drained == old(producedEvents) && producedEvents == []
      ensures history == old(history) + drained
      ensures history + producedEvents == old(history + producedEvents)
      ensures quantityOnHand == old(quantityOnHand)
      ensures Replay(history) == Ok(quantityOnHand)
    {
      drained := producedEvents;
      producedEvents := [];
      history := history + drained;
      assert history + producedEvents == history;
    }
  }
}
