/** The requests of a service: delivered to its listener, taken, recorded, answered.  First the
    machine and its runs, then the service object that does its steps in place. */
module Ledger {
  import opened Wrappers
  import opened Cbor
  import opened Messages
  import opened Wire
  import opened Streams
  import opened TypeSupport
  import opened Listeners

  /** `rmw_request_id_t`. */
  datatype RequestId = RequestId(writer: seq<byte>, sequenceNumber: nat)

  const NO_WRITER: seq<byte> := [0, 0, 0, 0, 0, 0, 0, 0, 0, 0, 0, 0, 0, 0, 0, 0]

  function HeaderOf(p: Publication): RequestId {
    RequestId(if p.uuid.Some? then p.uuid.value else NO_WRITER, p.sequenceNumber)
  }

  /** The id is made of the publication's UUID, or sixteen zeros if it has none, and its number. */
  predicate IsHeaderOf(id: RequestId, p: Publication) {
    && id.sequenceNumber == p.sequenceNumber
    && (p.uuid.Some? ==> id.writer == p.uuid.value)
    && (p.uuid.None? ==> |id.writer| == 16 && forall i :: 0 <= i < 16 ==> id.writer[i] == 0)
  }

  lemma HeaderIsExact(id: RequestId, p: Publication)
    ensures IsHeaderOf(id, p) <==> id == HeaderOf(p)
  {
    if IsHeaderOf(id, p) && p.uuid.None? {
      assert id.writer == NO_WRITER;
    }
  }

  /** Requests of different clients, or with different numbers, have different ids. */
  lemma HeadersTellApart(p: Publication, q: Publication)
    requires p.uuid.Some? && q.uuid.Some?
    ensures HeaderOf(p) == HeaderOf(q) <==> p.uuid == q.uuid && p.sequenceNumber == q.sequenceNumber
  {
    HeaderIsExact(HeaderOf(p), p);
    HeaderIsExact(HeaderOf(p), q);
  }

  /** What serializing and acknowledging a response comes to. */
  datatype Reply = Throws | Fails | Sends(bytes: seq<byte>)

  datatype Action = Deliver(delivery: Delivery)
                  | Take(decodes: bool)
                  | Respond(id: RequestId, reply: Reply)

  /** A request without a publication is one whose publication was moved out. */
  datatype Service = Service(queue: seq<Delivery>, requests: map<RequestId, Option<Publication>>)

  datatype Effect = Nothing
                  | Lost(delivery: Delivery)
                  | Taken(delivery: Delivery, recorded: bool)
                  | Acked(publication: Option<Publication>, bytes: seq<byte>)
                  | Dropped(publication: Option<Publication>)

  /** `emplace` does not overwrite a request that is still recorded, and an exception leaves the
      request recorded after its publication was moved out. */
  function Step(s: Service, a: Action): (Service, Effect) {
    match a
    case Deliver(d) => (s.(queue := s.queue + [d]), Nothing)
    case Take(decodes) =>
      if s.queue == [] then (s, Nothing) else
        var d, rest := s.queue[0], s.(queue := s.queue[1..]);
        var id := HeaderOf(d.publication);
        if !decodes then (rest, Lost(d))
        else if id in s.requests then (rest, Taken(d, false))
        else (rest.(requests := s.requests[id := Some(d.publication)]), Taken(d, true))
    case Respond(id, reply) =>
      if id !in s.requests then (s, Nothing) else
        match reply
        case Throws => (s.(requests := s.requests[id := None]), Dropped(s.requests[id]))
        case Fails => (s.(requests := s.requests - {id}), Dropped(s.requests[id]))
        case Sends(bytes) => (s.(requests := s.requests - {id}), Acked(s.requests[id], bytes))
  }

  function Run(actions: seq<Action>): Service {
    if actions == [] then Service([], map[]) else
      Step(Run(actions[..|actions| - 1]), actions[|actions| - 1]).0
  }

  function EffectAt(actions: seq<Action>, i: nat): Effect
    requires i < |actions|
  {
    Step(Run(actions[..i]), actions[i]).1
  }

  lemma EffectInPrefix(actions: seq<Action>, i: nat)
    requires i < |actions| - 1
    ensures EffectAt(actions[..|actions| - 1], i) == EffectAt(actions, i)
  {
    assert actions[..|actions| - 1][..i] == actions[..i];
  }

  // ---------- delivery order ----------

  function Arrival(a: Action): seq<Delivery> {
    if a.Deliver? then [a.delivery] else []
  }

  function Departure(e: Effect): seq<Delivery> {
    if e.Lost? || e.Taken? then [e.delivery] else []
  }

  function Delivered(actions: seq<Action>): seq<Delivery> {
    if actions == [] then [] else Delivered(actions[..|actions| - 1]) + Arrival(actions[|actions| - 1])
  }

  /** The messages taken from the queue, decoded or not. */
  function Dequeued(actions: seq<Action>): seq<Delivery> {
    if actions == [] then [] else Dequeued(actions[..|actions| - 1]) + Departure(EffectAt(actions, |actions| - 1))
  }

  lemma StepMovesOne(s: Service, a: Action)
    ensures s.queue + Arrival(a) == Departure(Step(s, a).1) + Step(s, a).0.queue
  {
    if s.queue != [] {
      assert s.queue == [s.queue[0]] + s.queue[1..];
    }
  }

  /** Messages are taken in the order of their delivery, and none is lost or repeated. */
  lemma {:induction false} DeliveredIsTakenThenQueued(actions: seq<Action>)
    ensures Delivered(actions) == Dequeued(actions) + Run(actions).queue
  {
    hide Step, Arrival, Departure;
    if actions != [] {
      var before, last := actions[..|actions| - 1], actions[|actions| - 1];
      DeliveredIsTakenThenQueued(before);
      StepMovesOne(Run(before), last);
      Regroup(Dequeued(before), Run(before).queue, Arrival(last));
      Regroup(Dequeued(before), Departure(EffectAt(actions, |actions| - 1)), Run(actions).queue);
    }
  }

  lemma Regroup(a: seq<Delivery>, b: seq<Delivery>, c: seq<Delivery>)
    ensures a + b + c == a + (b + c)
  {
  }

  /** How many messages were taken: each take has one if more were delivered than taken. */
  function TakenSoFar(actions: seq<Action>): nat {
    if actions == [] then 0 else
      var before := actions[..|actions| - 1];
      TakenSoFar(before)
      + if actions[|actions| - 1].Take? && TakenSoFar(before) < |Delivered(before)| then 1 else 0
  }

  /** The queue is what was delivered and not taken. */
  lemma {:induction false} QueueIsTheRest(actions: seq<Action>)
    ensures TakenSoFar(actions) <= |Delivered(actions)|
    ensures Run(actions).queue == Delivered(actions)[TakenSoFar(actions)..]
  {
    if actions != [] {
      hide Step;
      var before, last := actions[..|actions| - 1], actions[|actions| - 1];
      QueueIsTheRest(before);
      QueueAfter(Run(before), last);
      var delivered, n := Delivered(before), TakenSoFar(before);
      if last.Deliver? {
        assert (delivered + [last.delivery])[n..] == delivered[n..] + [last.delivery];
      } else {
        assert delivered + [] == delivered;
        assert n < |delivered| ==> delivered[n..][1..] == delivered[n + 1..];
      }
    }
  }

  lemma QueueAfter(s: Service, a: Action)
    ensures Step(s, a).0.queue == if a.Deliver? then s.queue + [a.delivery]
                                  else if a.Take? && s.queue != [] then s.queue[1..] else s.queue
  {
  }

  /** What action `i` takes, if it is a take and something is there: the first message not taken. */
  function TakenDelivery(actions: seq<Action>, i: nat): Option<Delivery>
    requires i < |actions|
  {
    var before := actions[..i];
    if !actions[i].Take? || TakenSoFar(before) >= |Delivered(before)| then None
    else Some(Delivered(before)[TakenSoFar(before)])
  }

  // ---------- pending requests ----------

  /** Action `i` takes and decodes a message whose publication has this id. */
  predicate TakenAt(actions: seq<Action>, i: nat, id: RequestId) {
    && i < |actions| && actions[i] == Take(true)
    && TakenDelivery(actions, i).Some? && IsHeaderOf(id, TakenDelivery(actions, i).value.publication)
  }

  lemma TakenIsEffect(actions: seq<Action>, i: nat, id: RequestId)
    requires i < |actions|
    ensures TakenAt(actions, i, id) <==> Takes(EffectAt(actions, i), id)
    ensures EffectAt(actions, i).Taken? ==> TakenDelivery(actions, i) == Some(EffectAt(actions, i).delivery)
  {
    QueueIsTheRest(actions[..i]);
    if TakenDelivery(actions, i).Some? {
      HeaderIsExact(id, TakenDelivery(actions, i).value.publication);
    }
    hide HeaderOf, IsHeaderOf;
  }

  predicate Takes(e: Effect, id: RequestId) {
    e.Taken? && HeaderOf(e.delivery.publication) == id
  }

  /** A response attempt that ends, whether or not anything was sent. */
  predicate AnsweredAt(actions: seq<Action>, i: nat, id: RequestId) {
    i < |actions| && actions[i].Respond? && actions[i].id == id && !actions[i].reply.Throws?
  }

  predicate NotAnsweredSince(actions: seq<Action>, i: nat, id: RequestId) {
    forall j :: i < j < |actions| ==> !AnsweredAt(actions, j, id)
  }

  ghost predicate Pending(actions: seq<Action>, id: RequestId) {
    exists i: nat :: TakenAt(actions, i, id) && NotAnsweredSince(actions, i, id)
  }

  lemma NotAnsweredStep(actions: seq<Action>, i: nat, id: RequestId)
    requires i < |actions| - 1
    ensures TakenAt(actions, i, id) <==> TakenAt(actions[..|actions| - 1], i, id)
    ensures NotAnsweredSince(actions, i, id) <==>
            NotAnsweredSince(actions[..|actions| - 1], i, id) && !AnsweredAt(actions, |actions| - 1, id)
  {
    var before := actions[..|actions| - 1];
    assert before[..i] == actions[..i];
    assert forall j: nat :: j < |before| ==> AnsweredAt(before, j, id) == AnsweredAt(actions, j, id);
  }

  lemma PendingStep(actions: seq<Action>, id: RequestId)
    requires actions != []
    ensures var last := |actions| - 1;
            Pending(actions, id) <==>
                TakenAt(actions, last, id) || (Pending(actions[..last], id) && !AnsweredAt(actions, last, id))
  {
    hide TakenAt, AnsweredAt;
    var before, last := actions[..|actions| - 1], |actions| - 1;
    if TakenAt(actions, last, id) {
      assert NotAnsweredSince(actions, last, id);
    } else if Pending(before, id) && !AnsweredAt(actions, last, id) {
      var i: nat :| TakenAt(before, i, id) && NotAnsweredSince(before, i, id);
      TakenIsEarlier(before, i, id);
      NotAnsweredStep(actions, i, id);
      assert TakenAt(actions, i, id);
    } else if i: nat :| TakenAt(actions, i, id) && NotAnsweredSince(actions, i, id) {
      TakenIsEarlier(actions, i, id);
      NotAnsweredStep(actions, i, id);
    }
  }

  lemma TakenIsEarlier(actions: seq<Action>, i: nat, id: RequestId)
    requires TakenAt(actions, i, id)
    ensures i < |actions|
  {
  }

  /** The pending requests are exactly those taken and not answered since. */
  lemma {:induction false} RequestsArePending(actions: seq<Action>, id: RequestId)
    ensures id in Run(actions).requests <==> Pending(actions, id)
  {
    hide HeaderOf;
    if actions != [] {
      RequestsArePending(actions[..|actions| - 1], id);
      PendingStep(actions, id);
      TakenIsEffect(actions, |actions| - 1, id);
      hide Pending, TakenAt, TakenDelivery;
    }
  }

  /** The take that recorded a request: it was not pending then, and was not answered since. */
  ghost predicate Opened(actions: seq<Action>, i: nat, id: RequestId) {
    TakenAt(actions, i, id) && !Pending(actions[..i], id) && NotAnsweredSince(actions, i, id)
  }

  predicate ThrewSince(actions: seq<Action>, i: nat, id: RequestId) {
    exists j :: i < j < |actions| && actions[j] == Respond(id, Throws)
  }

  lemma ThrewSinceStep(actions: seq<Action>, i: nat, id: RequestId)
    requires i < |actions| - 1
    ensures ThrewSince(actions, i, id) <==>
            ThrewSince(actions[..|actions| - 1], i, id) || actions[|actions| - 1] == Respond(id, Throws)
  {
    var before := actions[..|actions| - 1];
    assert forall j: nat :: j < |before| ==> before[j] == actions[j];
  }

  /** A pending request holds the publication of the take that opened it, whatever was taken under
      the same id afterwards, and an exception while answering it has lost it for good. */
  lemma {:induction false} OpenRequestHolds(actions: seq<Action>, i: nat, id: RequestId)
    requires Opened(actions, i, id)
    ensures id in Run(actions).requests
    ensures Run(actions).requests[id]
         == if ThrewSince(actions, i, id) then None else Some(TakenDelivery(actions, i).value.publication)
  {
    hide Pending, NotAnsweredSince, HeaderOf, IsHeaderOf;
    var before, last := actions[..|actions| - 1], |actions| - 1;
    assert before == actions[..last];
    if i == last {
      RequestsArePending(before, id);
      TakenIsEffect(actions, i, id);
    } else {
      NotAnsweredStep(actions, i, id);
      assert before[..i] == actions[..i];
      OpenRequestHolds(before, i, id);
      ThrewSinceStep(actions, i, id);
      LastIsNoAnswer(actions, i, id);
    }
  }

  lemma LastIsNoAnswer(actions: seq<Action>, i: nat, id: RequestId)
    requires i < |actions| - 1 && NotAnsweredSince(actions, i, id)
    ensures !AnsweredAt(actions, |actions| - 1, id)
  {
  }

  /** The next response that ends is for that publication, and the request is not pending after. */
  lemma ResponseReachesItsRequest(actions: seq<Action>, i: nat, id: RequestId, bytes: seq<byte>)
    requires Opened(actions, i, id) && !ThrewSince(actions, i, id)
    ensures var (s, effect) := Step(Run(actions), Respond(id, Sends(bytes)));
            && effect == Acked(Some(TakenDelivery(actions, i).value.publication), bytes)
            && IsHeaderOf(id, effect.publication.value) && id !in s.requests
  {
    OpenRequestHolds(actions, i, id);
  }

  /** A request is dropped on taking it only if one with the same id was taken before and not
      answered; so, of two requests with UUIDs, only if UUID and number are the same. */
  lemma OnlyTheSameIdIsDropped(actions: seq<Action>, i: nat) returns (j: nat)
    requires i < |actions| && EffectAt(actions, i).Taken? && !EffectAt(actions, i).recorded
    ensures j < i && TakenDelivery(actions, j).Some? && TakenDelivery(actions, i).Some?
    ensures var p, q := TakenDelivery(actions, j).value.publication, TakenDelivery(actions, i).value.publication;
            && (p.uuid.Some? && q.uuid.Some? ==> p.uuid == q.uuid && p.sequenceNumber == q.sequenceNumber)
            && NotAnsweredSince(actions[..i], j, HeaderOf(q))
  {
    var before, q := actions[..i], EffectAt(actions, i).delivery.publication;
    TakenIsEffect(actions, i, HeaderOf(q));
    RequestsArePending(before, HeaderOf(q));
    j :| TakenAt(before, j, HeaderOf(q)) && NotAnsweredSince(before, j, HeaderOf(q));
    assert before[..j] == actions[..j];
    var p := TakenDelivery(actions, j).value.publication;
    HeaderIsExact(HeaderOf(q), p);
    if p.uuid.Some? && q.uuid.Some? {
      HeadersTellApart(p, q);
    }
  }

  // ---------- conservation ----------

  /** What can become of a request. */
  datatype Fate = WasTaken | WasAcked | WasDropped

  /** Action `i` takes the request, acknowledges its publication, or destroys that without an
      acknowledgement. */
  predicate Meets(fate: Fate, actions: seq<Action>, i: nat, id: RequestId) {
    i < |actions| &&
    var a, e := actions[i], EffectAt(actions, i);
    match fate
    case WasTaken => TakenAt(actions, i, id)
    case WasAcked => a.Respond? && a.id == id && e.Acked? && e.publication.Some?
    case WasDropped =>
      || (a.Respond? && a.id == id && e.Dropped? && e.publication.Some?)
      || (TakenAt(actions, i, id) && e.Taken? && !e.recorded)
  }

  /** All actions at which the request meets a fate. */
  function Times(fate: Fate, actions: seq<Action>, id: RequestId): set<nat> {
    set i: nat | i < |actions| && Meets(fate, actions, i, id)
  }

  lemma MeetsInPrefix(fate: Fate, actions: seq<Action>, i: nat, id: RequestId)
    requires i < |actions| - 1
    ensures Meets(fate, actions[..|actions| - 1], i, id) == Meets(fate, actions, i, id)
  {
    EffectInPrefix(actions, i);
    assert actions[..|actions| - 1][..i] == actions[..i];
    hide EffectAt, IsHeaderOf, Delivered, TakenSoFar;
  }

  function One(b: bool): nat {
    if b then 1 else 0
  }

  lemma TimesLast(fate: Fate, actions: seq<Action>, id: RequestId)
    requires actions != []
    ensures |Times(fate, actions, id)|
         == |Times(fate, actions[..|actions| - 1], id)| + One(Meets(fate, actions, |actions| - 1, id))
  {
    hide Meets;
    var last := |actions| - 1;
    var now: set<nat> := if Meets(fate, actions, last, id) then {last} else {};
    forall i: nat
      ensures i in Times(fate, actions, id) <==> i in Times(fate, actions[..last], id) + now
    {
      if i < last {
        MeetsInPrefix(fate, actions, i, id);
      }
    }
    assert Times(fate, actions, id) == Times(fate, actions[..last], id) + now;
  }

  predicate Holds(s: Service, id: RequestId) {
    id in s.requests && s.requests[id].Some?
  }

  predicate Acks(a: Action, e: Effect, id: RequestId) {
    a.Respond? && a.id == id && e.Acked? && e.publication.Some?
  }

  predicate Drops(a: Action, e: Effect, id: RequestId) {
    (a.Respond? && a.id == id && e.Dropped? && e.publication.Some?) || (Takes(e, id) && !e.recorded)
  }

  lemma StepBalances(s: Service, a: Action, id: RequestId)
    ensures var (s', e) := Step(s, a);
            One(Holds(s, id)) + One(Takes(e, id)) == One(Acks(a, e, id)) + One(Drops(a, e, id)) + One(Holds(s', id))
  {
    hide HeaderOf;
  }

  lemma MeetsIsEffect(actions: seq<Action>, i: nat, id: RequestId)
    requires i < |actions|
    ensures var a, e := actions[i], EffectAt(actions, i);
            && Meets(WasTaken, actions, i, id) == Takes(e, id)
            && Meets(WasAcked, actions, i, id) == Acks(a, e, id)
            && Meets(WasDropped, actions, i, id) == Drops(a, e, id)
  {
    TakenIsEffect(actions, i, id);
    hide EffectAt, TakenAt, HeaderOf;
  }

  /** Every request taken is acknowledged once, dropped once, or still held; so acknowledgements
      for an id never exceed the takes of it. */
  lemma {:induction false} TakesAreAccountedFor(actions: seq<Action>, id: RequestId)
    ensures |Times(WasTaken, actions, id)|
         == |Times(WasAcked, actions, id)| + |Times(WasDropped, actions, id)| + One(Holds(Run(actions), id))
    ensures |Times(WasAcked, actions, id)| <= |Times(WasTaken, actions, id)|
  {
    if actions == [] {
      assert forall fate :: Times(fate, actions, id) == {};
    } else {
      hide Step, Holds, Meets, Times, Takes, Acks, Drops, One;
      TakesAreAccountedFor(actions[..|actions| - 1], id);
      TimesLast(WasTaken, actions, id);
      TimesLast(WasAcked, actions, id);
      TimesLast(WasDropped, actions, id);
      MeetsIsEffect(actions, |actions| - 1, id);
      StepBalances(Run(actions[..|actions| - 1]), actions[|actions| - 1], id);
    }
  }

  // ---------- the service object ----------

  class ServiceInfo {
    const listener: Listener
    const binding: Binding
    const requestMembers: seq<Member>
    const responseMembers: seq<Member>
    var requests: map<RequestId, Option<Publication>>

    constructor (binding: Binding, requestMembers: seq<Member>, responseMembers: seq<Member>)
      ensures fresh(listener) && State() == Service([], map[])
      ensures this.binding == binding && this.requestMembers == requestMembers
           && this.responseMembers == responseMembers
    {
      this.binding, this.requestMembers, this.responseMembers := binding, requestMembers, responseMembers;
      requests := map[];
      listener := new Listener();
    }

    ghost function State(): Service
      reads this, listener
    {
      Service(listener.data, requests)
    }

    /** `rmw_take_request`: the header and the message, or nothing.  Where decoding throws, the
        message has left the queue. */
    method TakeRequest() returns (threw: bool, taken: Option<(RequestId, Value)>)
      modifies this`requests, listener`data
      ensures var message := if old(listener.data) == [] then Fail
                             else ReadTop(binding, requestMembers, old(listener.data[0].payload));
              && State() == Step(old(State()), Take(message.Got?)).0
              && threw == (old(listener.data) != [] && message.Fail?)
              && taken.Some? == message.Got?
              && (taken.Some? ==>
                    && IsHeaderOf(taken.value.0, old(listener.data[0].publication)) && taken.value.1 == message.value
                    && taken.value.0 in requests)
    {
      var next := listener.TakeNextData();
      if next.None? {
        return false, None;
      }
      assert old(listener.data)[0] == next.value && old(listener.data)[1..] == listener.data;
      var buffer := new RxStream(next.value.payload);
      var request := Deserialize(binding, buffer, requestMembers);
      if request.None? {
        return true, None;
      }
      var header := HeaderOf(next.value.publication);
      HeaderIsExact(header, next.value.publication);
      if header !in requests {
        requests := requests[header := Some(next.value.publication)];
      }
      return false, Some((header, request.value));
    }

    /** What the codec makes of a response. */
    ghost function ReplyOf(response: Value): Reply
      requires HasKind(Message(responseMembers), response)
    {
      if Accepted(binding, Message(responseMembers), response)
      then Sends(Encoding(binding, responseMembers, response)) else Throws
    }

    /** `rmw_send_response`.  `accepted` is the library's answer to the acknowledgement; `acked` is
        what the library was given. */
    method SendResponse(id: RequestId, response: Value, accepted: bool)
      returns (threw: bool, ok: bool, acked: Option<(Option<Publication>, seq<byte>)>)
      requires HasKind(Message(responseMembers), response)
      modifies this`requests
      ensures var (s, effect) := Step(old(State()), Respond(id, ReplyOf(response)));
              && State() == s
              && threw == effect.Dropped?
              && ok == (effect.Acked? && accepted)
              && acked == if effect.Acked? then Some((effect.publication, effect.bytes)) else None
    {
      if id !in requests {
        return false, false, None;
      }
      var publication := requests[id];
      requests := requests[id := None];
      var ser := new TxStream(1024);
      var thrown, serialized := Serialize(binding, ser, responseMembers, response);
      if thrown {
        return true, false, None;
      }
      threw, ok, acked := false, false, None;
      if serialized {
        acked := Some((publication, ser.buffer[..ser.txPos]));
        ok := accepted;
      }
      requests := requests - {id};
    }
  }
}
