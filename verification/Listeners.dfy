/** `Listener` and `GuardCondition`: the sources a wait set can watch.  Each method is what the
    source does while it holds the object's internal mutex; how these critical sections
    interleave is the subject of `WaitProtocol`. */
module Listeners {
  import opened Wrappers
  import opened Cbor

  /** A copied publication; its UUID may be missing. */
  datatype Publication = Publication(uuid: Option<seq<byte>>, sequenceNumber: nat)

  datatype Delivery = Delivery(publication: Publication, payload: seq<byte>)

  /** Which wait set's mutex and condition variable a source holds. */
  type WaitSet = nat

  class Listener {
    var data: seq<Delivery>
    var condition: Option<WaitSet>

    constructor ()
      ensures data == [] && condition == None
    {
      data, condition := [], None;
    }

    /** `onPublication` and `onAcknowledgement`; the result is the wait set it notifies. */
    method Push(d: Delivery) returns (notified: Option<WaitSet>)
      modifies this`data
      ensures data == old(data) + [d] && notified == condition
    {
      if condition.Some? {
        data := data + [d];
        notified := condition;
      } else {
        data := data + [d];
        notified := None;
      }
    }

    method AttachCondition(waitSet: WaitSet)
      modifies this`condition
      ensures condition == Some(waitSet)
    {
      condition := Some(waitSet);
    }

    method DetachCondition()
      modifies this`condition
      ensures condition == None
    {
      condition := None;
    }

    method HasData() returns (r: bool)
      ensures r <==> data != []
    {
      return |data| > 0;
    }

    /** The front of the queue moves out; an empty queue stays as it is. */
    method TakeNextData() returns (next: Option<Delivery>)
      modifies this`data
      ensures old(data) == (if next.Some? then [next.value] else []) + data
      ensures next.None? ==> data == []
    {
      if data == [] {
        return None;
      }
      next := Some(data[0]);
      data := data[1..];
    }
  }

  class GuardCondition {
    var hasTriggered: bool
    var condition: Option<WaitSet>

    constructor ()
      ensures !hasTriggered && condition == None
    {
      hasTriggered, condition := false, None;
    }

    method Trigger() returns (notified: Option<WaitSet>)
      modifies this`hasTriggered
      ensures hasTriggered && notified == condition
    {
      if condition.Some? {
        hasTriggered := true;
        notified := condition;
      } else {
        hasTriggered := true;
        notified := None;
      }
    }

    method AttachCondition(waitSet: WaitSet)
      modifies this`condition
      ensures condition == Some(waitSet)
    {
      condition := Some(waitSet);
    }

    method DetachCondition()
      modifies this`condition
      ensures condition == None
    {
      condition := None;
    }

    /** `hasTriggered_.exchange(false)`. */
    method GetHasTriggered() returns (was: bool)
      modifies this`hasTriggered
      ensures was == old(hasTriggered) && !hasTriggered
    {
      was := hasTriggered;
      hasTriggered := false;
    }
  }
}
