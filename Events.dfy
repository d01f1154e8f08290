/** Events, commands and errors of the inventory aggregate, and the pure fold that
    replays a history of events into a quantity on hand.

    Every quantity is a C# `uint`; the aggregate adds and subtracts with unchecked
    arithmetic, so the fold wraps modulo 2^32 exactly as the C# code does. */
module Events {

  /** 2^32: the number of values of a C# `uint`. */
  const UINT32_MODULUS: int := 0x1_0000_0000

  /** A C# `uint`. */
  type UInt32 = x: int | 0 <= x < UINT32_MODULUS

  /** The closed family of facts the aggregate knows about. */
  datatype Event =
    | ItemCheckedIn(quantity: UInt32)
    | ItemCheckedOut(quantity: UInt32)
    | InventoryBucketCreated(itemName: string, openingCount: UInt32)
  {
    /** The event kinds Apply has a rule for. */
    predicate Recognized() {
      ItemCheckedIn? || ItemCheckedOut?
    }
  }

  /** The one command routed through a handler pipeline. */
  datatype Command = CheckItemOut(quantity: UInt32)

  /** The exceptions the aggregate throws, one constructor per message. */
  datatype Error =
    | QuantityIsZero        // "quantity is 0"
    | InsufficientStock     // "The quantity on hand is less than the quantity requested."
    | EventTypeNotMatched   // "Event type not matched."

  datatype Result<+T> = Ok(value: T) | Err(error: Error)

  /** The result of an operation that returns nothing but may throw. */
  datatype Outcome = Pass | Fail(error: Error)

  /** `a + b` on `uint` in an unchecked context. */
  function WrapAdd(a: UInt32, b: UInt32): (r: UInt32) {
    (a + b) % UINT32_MODULUS
  }

  /** `a - b` on `uint` in an unchecked context. */
  function WrapSub(a: UInt32, b: UInt32): (r: UInt32) {
    (a - b) % UINT32_MODULUS
  }

  /** The state-update rule of Apply: one event folded into a count. */
  function Step(count: UInt32, e: Event): (r: Result<UInt32>) {
    match e
    case ItemCheckedIn(q) => Ok(WrapAdd(count, q))
    case ItemCheckedOut(q) => Ok(WrapSub(count, q))
    case InventoryBucketCreated(_, _) => Err(EventTypeNotMatched)
  }

  /** Continues a replay that has reached `prior` with one more event. */
  function Then(prior: Result<UInt32>, e: Event): (r: Result<UInt32>) {
    match prior
    case Err(err) => Err(err)
    case Ok(count) => Step(count, e)
  }

  /** The count a freshly constructed bucket reaches by applying `events` in order,
      starting from zero, or the error that aborts construction. */
  function Replay(events: seq<Event>): (r: Result<UInt32>) {
    if events == [] then Ok(0)
    else Then(Replay(events[..|events| - 1]), events[|events| - 1])
  }

  /** Every event of `events` has an Apply rule. */
  predicate AllRecognized(events: seq<Event>) {
    forall i :: 0 <= i < |events| ==> events[i].Recognized()
  }

  /** Reference definition of the quantity on hand, in unbounded integers: the sum of
      the checked-in quantities minus the sum of the checked-out quantities. */
  function NetCount(events: seq<Event>): (n: int) {
    if events == [] then 0
    else
      var last := events[|events| - 1];
      NetCount(events[..|events| - 1]) +
        match last
        case ItemCheckedIn(q) => q
        case ItemCheckedOut(q) => -(q as int)
        case InventoryBucketCreated(_, _) => 0
  }

  /** No prefix of `events` takes out more than it has taken in. */
  predicate NeverOverdrawn(events: seq<Event>) {
    NetCount(events) >= 0 &&
    (events == [] || NeverOverdrawn(events[..|events| - 1]))
  }

  lemma ReplaySnoc(events: seq<Event>, e: Event)
    ensures Replay(events + [e]) == Then(Replay(events), e)
  {
  }

  /** Unchecked arithmetic can reduce modulo 2^32 after every step or once at the end. */
  lemma ModAddLeft(a: int, b: int)
    ensures (a % UINT32_MODULUS + b) % UINT32_MODULUS == (a + b) % UINT32_MODULUS
  {
  }

  /** Replay fails exactly when the history holds an event kind Apply has no rule
      for, and the failure is then "Event type not matched.". */
  lemma {:induction false} ReplayFailsIffUnrecognized(events: seq<Event>)
    ensures Replay(events).Err? <==> !AllRecognized(events)
    ensures Replay(events).Err? ==> Replay(events).error == EventTypeNotMatched
  {
    if events != [] {
      var init := events[..|events| - 1];
      ReplayFailsIffUnrecognized(init);
      assert events == init + [events[|events| - 1]];
      if !AllRecognized(init) {
        var i :| 0 <= i < |init| && !init[i].Recognized();
        assert !events[i].Recognized();
      }
    }
  }

  /** Fold correctness: replaying a recognised history yields the checked-in total
      minus the checked-out total, reduced modulo 2^32 by the unchecked arithmetic. */
  lemma {:induction false} ReplayIsNetCountModulo(events: seq<Event>)
    requires AllRecognized(events)
    ensures Replay(events) == Ok(NetCount(events) % UINT32_MODULUS)
  {
    if events != [] {
      var init := events[..|events| - 1];
      var last := events[|events| - 1];
      assert AllRecognized(init) by {
        forall i | 0 <= i < |init| ensures init[i].Recognized() {
          assert init[i] == events[i];
        }
      }
      ReplayIsNetCountModulo(init);
      assert last.Recognized();
      match last
      case ItemCheckedIn(q) =>
        ModAddLeft(NetCount(init), q);
      case ItemCheckedOut(q) =>
        ModAddLeft(NetCount(init), -(q as int));
    }
  }

  /** When the net count of a recognised history fits in a `uint`, replay yields it
      exactly: no wrap-around is observable in the final count. */
  lemma ReplayIsNetCount(events: seq<Event>)
    requires AllRecognized(events)
    requires 0 <= NetCount(events) < UINT32_MODULUS
    ensures Replay(events) == Ok(NetCount(events))
  {
    ReplayIsNetCountModulo(events);
  }

  /** Replaying a history that goes overdrawn wraps below zero to a large count. */
  lemma ReplayOverdrawnWraps()
    ensures Replay([ItemCheckedIn(5), ItemCheckedOut(6)]) == Ok(UINT32_MODULUS - 1)
  {
  }

  /** Appending a checkout that the aggregate accepts (the quantity does not exceed
      the replayed count) keeps a never-overdrawn history never overdrawn. */
  lemma CheckOutKeepsNeverOverdrawn(events: seq<Event>, q: UInt32)
    requires AllRecognized(events) && NeverOverdrawn(events)
    requires Replay(events).Ok? && q <= Replay(events).value
    ensures NeverOverdrawn(events + [ItemCheckedOut(q)])
  {
    var ext := events + [ItemCheckedOut(q)];
    ReplayIsNetCountModulo(events);
    var n := NetCount(events);
    assert n % UINT32_MODULUS <= n;
    assert ext[..|ext| - 1] == events;
  }

  /** Appending a check-in never makes a history overdrawn. */
  lemma CheckInKeepsNeverOverdrawn(events: seq<Event>, q: UInt32)
    requires NeverOverdrawn(events)
    ensures NeverOverdrawn(events + [ItemCheckedIn(q)])
  {
  }

  /** A never-overdrawn history has no prefix whose net count is negative. */
  lemma {:induction false} NeverOverdrawnPrefixes(events: seq<Event>, k: nat)
    requires NeverOverdrawn(events) && k <= |events|
    ensures NetCount(events[..k]) >= 0
  {
    if k < |events| {
      var init := events[..|events| - 1];
      NeverOverdrawnPrefixes(init, k);
      assert init[..k] == events[..k];
    } else {
      assert events[..k] == events;
    }
  }

  /** Conversely, a history none of whose prefixes has a negative net count is
      never overdrawn: the recursive predicate means exactly "no prefix takes out
      more than it has taken in". */
  lemma {:induction false} PrefixesNeverOverdrawn(events: seq<Event>)
    requires forall k :: 0 <= k <= |events| ==> NetCount(events[..k]) >= 0
    ensures NeverOverdrawn(events)
  {
    assert events[..|events|] == events;
    if events != [] {
      var init := events[..|events| - 1];
      forall k | 0 <= k <= |init| ensures NetCount(init[..k]) >= 0 {
        assert init[..k] == events[..k];
      }
      PrefixesNeverOverdrawn(init);
    }
  }
}
