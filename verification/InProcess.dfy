/** The in-process runtime loop: a pending-reply table, bounded queues on both sides, and a drain at
    shutdown. A run is a sequence of steps of the loop and of the tasks around it, in any order. */
module InProcess {
  import opened Wrappers

  datatype RequestId = Integer(n: int) | Text(s: string)

  /** One client request's reply channel. Each request brings its own. */
  type Ticket = nat
  type Payload = nat

  const INVALID_REQUEST := -32600
  const INTERNAL := -32603
  const OVERLOADED := -32001

  datatype Reply = Success(payload: Payload) | Failure(code: int, payload: Payload)
  datatype Sent = Sent(ticket: Ticket, reply: Reply)

  const DUPLICATE := Failure(INVALID_REQUEST, 0)
  const QUEUE_FULL := Failure(OVERLOADED, 1)
  const PROCESSOR_CLOSED := Failure(INTERNAL, 2)
  const SHUTTING_DOWN := Failure(INTERNAL, 3)

  datatype Command = Forward(ticket: Ticket, id: RequestId) | Notify

  datatype Event =
    | ServerRequest(id: RequestId)
    | TurnCompleted(payload: Payload)
    | OtherNotification(payload: Payload)
    | Legacy(eventMethod: string)

  function StripPrefix(s: string, p: string): string {
    if p <= s then s[|p|..] else s
  }

  /** `server_notification_requires_delivery` and `legacy_notification_requires_delivery`. */
  predicate RequiresDelivery(e: Event) {
    match e
    case TurnCompleted(_) => true
    case Legacy(m) => StripPrefix(m, "codex/event/") in {"task_complete", "turn_aborted", "shutdown_complete"}
    case _ => false
  }

  /** What became of an event, with the queue length and the consumer's state when it was decided. */
  datatype Fate =
    | Queued(event: Event)
    | Dropped(event: Event, queued: nat, open: bool)
    | FailedBack(event: Event, code: int, queued: nat, open: bool)

  /** The request side; `commands` are queued for the processor. `processed`, `taken`, `replies`, `forwarded`
      and `answered` record the run so far. */
  datatype Requests = Requests(
    pending: map<RequestId, Ticket>,
    commands: seq<Command>,
    processorOpen: bool,
    processed: seq<Command>,
    taken: set<Ticket>,
    replies: seq<Sent>,
    forwarded: map<Ticket, RequestId>,
    answered: set<Ticket>)

  /** The event side. `delivered`, `produced` and `fates` record the run so far; `parked` is the event
      a blocking send is holding. */
  datatype Stream = Stream(
    events: seq<Event>,
    consumerOpen: bool,
    parked: Option<Event>,
    delivered: seq<Event>,
    produced: seq<Event>,
    fates: seq<Fate>)

  datatype Runtime = Runtime(capacity: nat, running: bool, drained: bool, requests: Requests, stream: Stream)

  function Start(channelCapacity: nat): Runtime {
    Runtime(if channelCapacity > 1 then channelCapacity else 1, true, false,
            Requests(map[], [], true, [], {}, [], map[], {}),
            Stream([], true, None, [], [], []))
  }

  // ---- The request side ----

  function TakeRequest(q: Requests, capacity: nat, id: RequestId, ticket: Ticket): Requests {
    var q' := q.(taken := q.taken + {ticket});
    if id in q.pending then q'.(replies := q.replies + [Sent(ticket, DUPLICATE)])
    else if !q.processorOpen then q'.(replies := q.replies + [Sent(ticket, PROCESSOR_CLOSED)])
    else if |q.commands| >= capacity then q'.(replies := q.replies + [Sent(ticket, QUEUE_FULL)])
    else q'.(pending := q.pending[id := ticket],
             commands := q.commands + [Forward(ticket, id)],
             forwarded := q.forwarded[ticket := id])
  }

  /** A response or an error for `id`, sent by the processor on behalf of `cause`. */
  function TakeAnswer(q: Requests, id: RequestId, reply: Reply, cause: Ticket): Requests {
    var q' := q.(answered := q.answered + {cause});
    if id in q.pending then q'.(pending := q.pending - {id}, replies := q.replies + [Sent(q.pending[id], reply)])
    else q'
  }

  predicate Distinct<T(==)>(s: seq<T>) {
    forall i, j :: 0 <= i < j < |s| ==> s[i] != s[j]
  }

  /** The pending requests named in `order` are told that the runtime is shutting down, one by one. */
  function DrainAll(q: Requests, order: seq<RequestId>): (r: Requests)
    requires Distinct(order) && forall id :: id in order ==> id in q.pending
    ensures r.pending == q.pending - (set id | id in order)
    ensures r.taken == q.taken
    decreases |order|
  {
    if |order| == 0 then q
    else
      var head, last := order[..|order| - 1], order[|order| - 1];
      assert order == head + [last];
      var r := DrainAll(q, head);
      assert last !in head;
      r.(pending := r.pending - {last}, replies := r.replies + [Sent(r.pending[last], SHUTTING_DOWN)])
  }

  // ---- The event side ----

  /** The event is decided: it joins the queue, or it does not. */
  function Decide(t: Stream, fate: Fate): Stream {
    t.(fates := t.fates + [fate], events := if fate.Queued? then t.events + [fate.event] else t.events)
  }

  function TakeEvent(t: Stream, capacity: nat, e: Event): Stream {
    var t' := t.(produced := t.produced + [e]);
    if !t.consumerOpen then
      Decide(t', if e.ServerRequest? then FailedBack(e, INTERNAL, |t.events|, false) else Dropped(e, |t.events|, false))
    else if |t.events| < capacity then Decide(t', Queued(e))
    else if RequiresDelivery(e) then t'.(parked := Some(e))
    else Decide(t', if e.ServerRequest? then FailedBack(e, OVERLOADED, |t.events|, true)
                    else Dropped(e, |t.events|, true))
  }

  // ---- Steps ----

  datatype Step =
    | Request(id: RequestId, ticket: Ticket)
    | ClientNotification
    | ServerRequestReply(id: RequestId)
    | Shutdown
    | ClientGone
    | Answer(id: RequestId, reply: Reply, cause: Ticket)
    | Outgoing(event: Event)
    | WriterGone
    | ProcessorTakes
    | ProcessorCloses
    | ConsumerTakes
    | ConsumerCloses
    | Unpark
    | Drain(order: seq<RequestId>)

  /** The loop takes a message only while it runs and is not blocked in a send. */
  predicate Taking(s: Runtime) {
    s.running && s.stream.parked.None?
  }

  predicate Enabled(s: Runtime, step: Step) {
    match step
    case Request(_, ticket) => Taking(s) && ticket !in s.requests.taken
    case ClientNotification => Taking(s)
    case ServerRequestReply(_) => Taking(s)
    case Shutdown => Taking(s)
    case ClientGone => Taking(s)
    case Answer(_, _, _) => Taking(s)
    case Outgoing(_) => Taking(s)
    case WriterGone => Taking(s)
    case ProcessorTakes => |s.requests.commands| > 0
    case ProcessorCloses => true
    case ConsumerTakes => |s.stream.events| > 0 && s.stream.consumerOpen
    case ConsumerCloses => true
    case Unpark => s.running && s.stream.parked.Some? && (|s.stream.events| < s.capacity || !s.stream.consumerOpen)
    case Drain(order) =>
      !s.running && !s.drained && Distinct(order) && (set id | id in order) == s.requests.pending.Keys
  }

  function Apply(s: Runtime, step: Step): Runtime
    requires Enabled(s, step)
  {
    var q, t := s.requests, s.stream;
    match step
    case Request(id, ticket) =>
      s.(requests := TakeRequest(q, s.capacity, id, ticket), running := id in q.pending || q.processorOpen)
    case ClientNotification =>
      s.(running := q.processorOpen,
         requests := if q.processorOpen && |q.commands| < s.capacity then q.(commands := q.commands + [Notify]) else q)
    case ServerRequestReply(_) => s
    case Shutdown => s.(running := false)
    case ClientGone => s.(running := false)
    case Answer(id, reply, cause) => s.(requests := TakeAnswer(q, id, reply, cause))
    case Outgoing(e) => s.(stream := TakeEvent(t, s.capacity, e), running := t.consumerOpen || e.ServerRequest?)
    case WriterGone => s.(running := false)
    case ProcessorTakes =>
      s.(requests := q.(commands := q.commands[1..], processed := q.processed + [q.commands[0]]))
    case ProcessorCloses => s.(requests := q.(processorOpen := false))
    case ConsumerTakes => s.(stream := t.(events := t.events[1..], delivered := t.delivered + [t.events[0]]))
    case ConsumerCloses => s.(stream := t.(consumerOpen := false))
    case Unpark =>
      var e, t' := t.parked.value, t.(parked := None);
      if t.consumerOpen then s.(stream := Decide(t', Queued(e)))
      else s.(stream := Decide(t', Dropped(e, |t.events|, false)), running := false)
    case Drain(order) =>
      s.(drained := true, requests := DrainAll(q, order))
  }

  /** The state after a run, if every step was enabled when it was taken. */
  function After(capacity: nat, steps: seq<Step>): Option<Runtime> {
    if |steps| == 0 then Some(Start(capacity))
    else match After(capacity, steps[..|steps| - 1])
      case None => None
      case Some(s) => if Enabled(s, steps[|steps| - 1]) then Some(Apply(s, steps[|steps| - 1])) else None
  }

  // ---- Exactly one reply ----

  function Count(replies: seq<Sent>, t: Ticket): nat {
    if |replies| == 0 then 0
    else Count(replies[..|replies| - 1], t) + (if replies[|replies| - 1].ticket == t then 1 else 0)
  }

  /** Every taken request has had its one reply or is waiting for it under one id. */
  ghost predicate Accounted(q: Requests) {
    && (forall i, j :: i in q.pending && j in q.pending && i != j ==> q.pending[i] != q.pending[j])
    && (forall i :: i in q.pending ==> q.pending[i] in q.taken && Count(q.replies, q.pending[i]) == 0)
    && (forall t :: t !in q.taken ==> Count(q.replies, t) == 0)
    && (forall t :: t in q.taken ==> Count(q.replies, t) == 1 || (Count(q.replies, t) == 0 && t in q.pending.Values))
  }

  lemma CountPush(replies: seq<Sent>, r: Sent, t: Ticket)
    ensures Count(replies + [r], t) == Count(replies, t) + (if r.ticket == t then 1 else 0)
  {
    assert (replies + [r])[..|replies|] == replies;
  }

  /** A new request answered at once. */
  lemma RefusalAccounted(q: Requests, q': Requests, r: Sent)
    requires Accounted(q) && r.ticket !in q.taken
    requires q'.taken == q.taken + {r.ticket} && q'.pending == q.pending && q'.replies == q.replies + [r]
    ensures Accounted(q')
  {
    forall t ensures Count(q'.replies, t) == Count(q.replies, t) + (if r.ticket == t then 1 else 0) {
      CountPush(q.replies, r, t);
    }
  }

  /** A new request that waits. */
  lemma WaitAccounted(q: Requests, q': Requests, id: RequestId, ticket: Ticket)
    requires Accounted(q) && ticket !in q.taken && id !in q.pending
    requires q'.taken == q.taken + {ticket} && q'.pending == q.pending[id := ticket] && q'.replies == q.replies
    ensures Accounted(q')
  {
    forall t | t in q.pending.Values ensures t in q'.pending.Values {
      var i :| i in q.pending && q.pending[i] == t;
      assert q'.pending[i] == t;
    }
    assert id in q'.pending && q'.pending[id] == ticket;
  }

  lemma TakeRequestAccounted(q: Requests, capacity: nat, id: RequestId, ticket: Ticket)
    requires Accounted(q) && ticket !in q.taken
    ensures Accounted(TakeRequest(q, capacity, id, ticket))
  {
    var q' := TakeRequest(q, capacity, id, ticket);
    if id in q.pending {
      RefusalAccounted(q, q', Sent(ticket, DUPLICATE));
    } else if !q.processorOpen {
      RefusalAccounted(q, q', Sent(ticket, PROCESSOR_CLOSED));
    } else if |q.commands| >= capacity {
      RefusalAccounted(q, q', Sent(ticket, QUEUE_FULL));
    } else {
      WaitAccounted(q, q', id, ticket);
    }
  }

  lemma ReplyAccounted(q: Requests, q': Requests, id: RequestId, reply: Reply)
    requires Accounted(q) && id in q.pending && q'.taken == q.taken
    requires q'.pending == q.pending - {id} && q'.replies == q.replies + [Sent(q.pending[id], reply)]
    ensures Accounted(q')
  {
    var ticket := q.pending[id];
    forall t ensures Count(q'.replies, t) == Count(q.replies, t) + (if ticket == t then 1 else 0) {
      CountPush(q.replies, Sent(ticket, reply), t);
    }
    forall t | t in q.pending.Values && t != ticket ensures t in q'.pending.Values {
      var i :| i in q.pending && q.pending[i] == t;
      assert q'.pending[i] == t;
    }
  }

  /** Replying to pending requests, in any order, keeps the account. */
  lemma {:induction false} DrainAccounted(q: Requests, order: seq<RequestId>)
    requires Accounted(q) && Distinct(order) && forall id :: id in order ==> id in q.pending
    ensures Accounted(DrainAll(q, order))
    decreases |order|
  {
    if |order| > 0 {
      var head, last := order[..|order| - 1], order[|order| - 1];
      assert order == head + [last];
      DrainAccounted(q, head);
      assert last !in head;
      ReplyAccounted(DrainAll(q, head), DrainAll(q, order), last, SHUTTING_DOWN);
    }
  }

  lemma ApplyAccounted(s: Runtime, step: Step)
    requires Enabled(s, step) && Accounted(s.requests)
    ensures Accounted(Apply(s, step).requests)
  {
    match step {
      case Request(id, ticket) =>
        TakeRequestAccounted(s.requests, s.capacity, id, ticket);
      case Answer(id, reply, cause) =>
        if id in s.requests.pending {
          ReplyAccounted(s.requests, Apply(s, step).requests, id, reply);
        }
      case Drain(order) =>
        DrainAccounted(s.requests, order);
      case _ =>
    }
  }

  /** In every run each client request the loop took has had at most one reply, and once the loop has
      drained, exactly one; nobody else ever gets a reply. */
  lemma {:induction false} ExactlyOneReply(capacity: nat, steps: seq<Step>)
    requires After(capacity, steps).Some?
    ensures var s := After(capacity, steps).value;
      && Accounted(s.requests)
      && (s.drained ==> s.requests.pending == map[] && !s.running)
      && (forall t :: Count(s.requests.replies, t) <= 1)
      && (s.drained ==> forall t :: Count(s.requests.replies, t) == if t in s.requests.taken then 1 else 0)
  {
    if |steps| > 0 {
      ExactlyOneReply(capacity, steps[..|steps| - 1]);
      ApplyAccounted(After(capacity, steps[..|steps| - 1]).value, steps[|steps| - 1]);
    }
  }

  /** The request behind `t` was refused as a duplicate: told so, and never forwarded. */
  predicate TurnedAway(q: Requests, t: Ticket) {
    t in q.taken && t !in q.forwarded && Sent(t, DUPLICATE) in q.replies
  }

  /** A step that can settle the request waiting under `id`. */
  predicate Touches(step: Step, id: RequestId) {
    step.Drain? || (step.Answer? && step.id == id)
  }

  lemma StillWaiting(s: Runtime, step: Step, id: RequestId)
    requires Enabled(s, step) && id in s.requests.pending && !Touches(step, id)
    ensures var q := Apply(s, step).requests;
      && id in q.pending && q.pending[id] == s.requests.pending[id]
      && (step.Request? && step.id == id && step.ticket !in s.requests.forwarded ==> TurnedAway(q, step.ticket))
  {
    if step.Request? && step.id == id {
      assert Apply(s, step).requests.replies[|s.requests.replies|] == Sent(step.ticket, DUPLICATE);
    }
  }

  lemma StaysAway(s: Runtime, step: Step, t: Ticket)
    requires Enabled(s, step) && !step.Drain? && TurnedAway(s.requests, t)
    ensures TurnedAway(Apply(s, step).requests, t)
  {
    assert s.requests.replies <= Apply(s, step).requests.replies;
  }

  lemma {:induction false} ForwardedWereTaken(capacity: nat, steps: seq<Step>)
    requires After(capacity, steps).Some?
    ensures After(capacity, steps).value.requests.forwarded.Keys <= After(capacity, steps).value.requests.taken
  {
    if |steps| > 0 {
      ForwardedWereTaken(capacity, steps[..|steps| - 1]);
      var s, step := After(capacity, steps[..|steps| - 1]).value, steps[|steps| - 1];
      if step.Drain? {
        DrainForwarded(s.requests, step.order);
      }
    }
  }

  lemma {:induction false} DrainForwarded(q: Requests, order: seq<RequestId>)
    requires Distinct(order) && forall id :: id in order ==> id in q.pending
    ensures DrainAll(q, order).forwarded == q.forwarded
    decreases |order|
  {
    if |order| > 0 {
      var head := order[..|order| - 1];
      assert order == head + [order[|order| - 1]];
      DrainForwarded(q, head);
    }
  }

  lemma AfterPush(capacity: nat, steps: seq<Step>, step: Step)
    ensures After(capacity, steps + [step]) ==
            match After(capacity, steps)
            case None => None
            case Some(s) => if Enabled(s, step) then Some(Apply(s, step)) else None
  {
    assert (steps + [step])[..|steps|] == steps;
  }

  ghost predicate DuplicatesTurnedAway(q: Requests, during: seq<Step>, id: RequestId) {
    forall i :: 0 <= i < |during| && during[i].Request? && during[i].id == id ==> TurnedAway(q, during[i].ticket)
  }

  lemma DuplicatesStayAway(s: Runtime, init: seq<Step>, last: Step, id: RequestId)
    requires Enabled(s, last) && id in s.requests.pending && !Touches(last, id)
    requires s.requests.forwarded.Keys <= s.requests.taken && DuplicatesTurnedAway(s.requests, init, id)
    ensures DuplicatesTurnedAway(Apply(s, last).requests, init + [last], id)
  {
    var during := init + [last];
    forall i | 0 <= i < |during| && during[i].Request? && during[i].id == id
      ensures TurnedAway(Apply(s, last).requests, during[i].ticket)
    {
      if i < |init| {
        StaysAway(s, last, init[i].ticket);
      } else {
        StillWaiting(s, last, id);
      }
    }
  }

  /** From when a request waits under an id until an answer for that id or the drain, whatever else
      happens it goes on waiting, and every other request with that id is refused as a duplicate and
      never forwarded. */
  lemma {:induction false} PendingUndisturbed(capacity: nat, before: seq<Step>, during: seq<Step>, id: RequestId)
    requires After(capacity, before).Some? && id in After(capacity, before).value.requests.pending
    requires After(capacity, before + during).Some? && forall i :: 0 <= i < |during| ==> !Touches(during[i], id)
    ensures var q, q' := After(capacity, before).value.requests, After(capacity, before + during).value.requests;
      && id in q'.pending && q'.pending[id] == q.pending[id]
      && DuplicatesTurnedAway(q', during, id)
    decreases |during|
  {
    if |during| == 0 {
      assert before + during == before;
    } else {
      var init, last := during[..|during| - 1], during[|during| - 1];
      assert during == init + [last];
      assert before + during == (before + init) + [last];
      AfterPush(capacity, before + init, last);
      PendingUndisturbed(capacity, before, init, id);
      var s := After(capacity, before + init).value;
      ForwardedWereTaken(capacity, before + init);
      StillWaiting(s, last, id);
      DuplicatesStayAway(s, init, last, id);
    }
  }

  // ---- What the processor gets ----

  /** The loop puts this on the processor's queue when it takes the step. */
  function Accepts(s: Runtime, step: Step): seq<Command> {
    var q := s.requests;
    if !q.processorOpen || |q.commands| >= s.capacity then []
    else match step
      case Request(id, ticket) => if id in q.pending then [] else [Forward(ticket, id)]
      case ClientNotification => [Notify]
      case _ => []
  }

  /** All that was accepted in a run, in order. */
  function Accepted(capacity: nat, steps: seq<Step>): seq<Command> {
    if |steps| == 0 then []
    else
      var before := steps[..|steps| - 1];
      match After(capacity, before)
      case None => []
      case Some(s) => Accepted(capacity, before) + Accepts(s, steps[|steps| - 1])
  }

  ghost predicate ForwardedExactly(q: Requests, accepted: seq<Command>) {
    forall t, id :: (t in q.forwarded && q.forwarded[t] == id) <==> Forward(t, id) in accepted
  }

  lemma {:induction false} DrainQueue(q: Requests, order: seq<RequestId>)
    requires Distinct(order) && forall id :: id in order ==> id in q.pending
    ensures DrainAll(q, order).commands == q.commands && DrainAll(q, order).processed == q.processed
    decreases |order|
  {
    if |order| > 0 {
      var head := order[..|order| - 1];
      assert order == head + [order[|order| - 1]];
      DrainQueue(q, head);
    }
  }

  lemma QueueStep(s: Runtime, step: Step, accepted: seq<Command>)
    requires Enabled(s, step) && s.requests.processed + s.requests.commands == accepted
    requires |s.requests.commands| <= s.capacity
    ensures var q := Apply(s, step).requests;
      q.processed + q.commands == accepted + Accepts(s, step) && |q.commands| <= s.capacity
  {
    var q := s.requests;
    match step {
      case Drain(order) =>
        DrainQueue(q, order);
      case ProcessorTakes =>
        assert q.processed + [q.commands[0]] + q.commands[1..] == q.processed + q.commands;
      case _ =>
        var q' := Apply(s, step).requests;
        assert q'.processed == q.processed && q'.commands == q.commands + Accepts(s, step);
        assert q.processed + (q.commands + Accepts(s, step)) == q.processed + q.commands + Accepts(s, step);
    }
  }

  lemma ForwardedStep(s: Runtime, step: Step, accepted: seq<Command>)
    requires Enabled(s, step) && ForwardedExactly(s.requests, accepted)
    requires s.requests.forwarded.Keys <= s.requests.taken
    ensures ForwardedExactly(Apply(s, step).requests, accepted + Accepts(s, step))
  {
    if step.Drain? {
      DrainForwarded(s.requests, step.order);
    }
  }

  /** In every run the commands the processor took and those still queued are, in order, exactly one for
      each request and notification that was accepted; the queue stays within its capacity; and the
      requests counted as forwarded are exactly those. */
  lemma {:induction false} ProcessorGetsAccepted(capacity: nat, steps: seq<Step>)
    requires After(capacity, steps).Some?
    ensures var s, accepted := After(capacity, steps).value, Accepted(capacity, steps);
      && s.requests.processed + s.requests.commands == accepted
      && |s.requests.commands| <= s.capacity
      && ForwardedExactly(s.requests, accepted)
  {
    if |steps| > 0 {
      var before, step := steps[..|steps| - 1], steps[|steps| - 1];
      ProcessorGetsAccepted(capacity, before);
      ForwardedWereTaken(capacity, before);
      var s := After(capacity, before).value;
      QueueStep(s, step, Accepted(capacity, before));
      ForwardedStep(s, step, Accepted(capacity, before));
    }
  }

  /** What taking a request does, by the state before: a pending id is refused as a duplicate, else a
      closed processor refuses it and ends the loop, else a full queue refuses it, else it is queued and
      waits. A refused request gets its one reply and changes nothing else. */
  lemma RequestDecided(s: Runtime, id: RequestId, ticket: Ticket)
    requires Enabled(s, Request(id, ticket))
    ensures var q, s' := s.requests, Apply(s, Request(id, ticket));
      var q' := s'.requests;
      var added := q'.replies[|q.replies|..];
      && q'.replies[..|q.replies|] == q.replies && s'.stream == s.stream
      && q'.taken == q.taken + {ticket} && q'.processed == q.processed && q'.processorOpen == q.processorOpen
      && (added == [] <==> id !in q.pending && q.processorOpen && |q.commands| < s.capacity)
      && (added == [] ==> q'.pending == q.pending[id := ticket] && q'.commands == q.commands + [Forward(ticket, id)])
      && (added != [] ==> q'.pending == q.pending && q'.commands == q.commands)
      && (added != [] ==> |added| == 1 && added[0].ticket == ticket && added[0].reply.Failure?)
      && (added != [] && id in q.pending ==> added[0].reply.code == -32600)
      && (added != [] && id !in q.pending ==> added[0].reply.code == if q.processorOpen then -32001 else -32603)
      && (s'.running <==> id in q.pending || q.processorOpen)
  {
  }

  // ---- Answers reach the request that caused them ----

  /** The processor answers only requests forwarded to it, under their own id, and each at most once. */
  predicate Honest(s: Runtime, step: Step) {
    step.Answer? ==>
      && step.cause in s.requests.forwarded
      && s.requests.forwarded[step.cause] == step.id
      && step.cause !in s.requests.answered
  }

  predicate HonestRun(capacity: nat, steps: seq<Step>) {
    |steps| > 0 ==>
      && HonestRun(capacity, steps[..|steps| - 1])
      && After(capacity, steps[..|steps| - 1]).Some?
      && Honest(After(capacity, steps[..|steps| - 1]).value, steps[|steps| - 1])
  }

  /** The pending table is exactly the forwarded requests without an answer. */
  ghost predicate Matched(q: Requests) {
    && q.forwarded.Keys <= q.taken && q.answered <= q.forwarded.Keys
    && (forall id :: id in q.pending ==>
          q.pending[id] in q.forwarded && q.forwarded[q.pending[id]] == id && q.pending[id] !in q.answered)
    && (forall t :: t in q.forwarded && t !in q.answered ==>
          q.forwarded[t] in q.pending && q.pending[q.forwarded[t]] == t)
  }

  lemma TakeRequestMatched(q: Requests, capacity: nat, id: RequestId, ticket: Ticket)
    requires Matched(q) && ticket !in q.taken
    ensures Matched(TakeRequest(q, capacity, id, ticket))
  {
  }

  lemma TakeAnswerMatched(q: Requests, id: RequestId, reply: Reply, cause: Ticket)
    requires Matched(q) && cause in q.forwarded && q.forwarded[cause] == id && cause !in q.answered
    ensures Matched(TakeAnswer(q, id, reply, cause))
  {
  }

  lemma ApplyMatched(s: Runtime, step: Step)
    requires Enabled(s, step) && Honest(s, step) && Matched(s.requests) && !step.Drain?
    ensures Matched(Apply(s, step).requests)
  {
    match step {
      case Request(id, ticket) => TakeRequestMatched(s.requests, s.capacity, id, ticket);
      case Answer(id, reply, cause) => TakeAnswerMatched(s.requests, id, reply, cause);
      case _ =>
    }
  }

  lemma {:induction false} HonestRunMatched(capacity: nat, steps: seq<Step>)
    requires HonestRun(capacity, steps) && After(capacity, steps).Some?
    ensures var s := After(capacity, steps).value;
      (s.drained ==> !s.running) && (!s.drained ==> Matched(s.requests))
  {
    if |steps| > 0 {
      HonestRunMatched(capacity, steps[..|steps| - 1]);
      var s, step := After(capacity, steps[..|steps| - 1]).value, steps[|steps| - 1];
      if !s.drained && !step.Drain? {
        ApplyMatched(s, step);
      }
    }
  }

  /** As long as the processor has answered each forwarded request at most once and under its own id,
      an answer goes to the very request that caused it, however ids are reused, exactly when it too
      keeps to that. */
  lemma AnswerReachesItsCause(capacity: nat, steps: seq<Step>, answer: Step)
    requires HonestRun(capacity, steps) && After(capacity, steps).Some? && answer.Answer?
    requires Enabled(After(capacity, steps).value, answer)
    ensures var s := After(capacity, steps).value;
      Apply(s, answer).requests.replies == s.requests.replies + [Sent(answer.cause, answer.reply)]
      <==> Honest(s, answer)
  {
    HonestRunMatched(capacity, steps);
    var s := After(capacity, steps).value;
    var was, now := s.requests.replies, Apply(s, answer).requests.replies;
    if now == was + [Sent(answer.cause, answer.reply)] {
      assert now[|was|] == Sent(answer.cause, answer.reply);
    }
  }

  /** Without that promise a second answer to an old request goes to a new one that reuses its id. */
  lemma SecondAnswerMisdelivered()
    ensures var id := Integer(7);
      var steps := [Request(id, 1), Answer(id, Success(10), 1), Request(id, 2), Answer(id, Success(11), 1)];
      After(2, steps).Some? && Sent(2, Success(11)) in After(2, steps).value.requests.replies
  {
    var id := Integer(7);
    var steps := [Request(id, 1), Answer(id, Success(10), 1), Request(id, 2), Answer(id, Success(11), 1)];
    assert steps[..1] == [Request(id, 1)] && steps[..1][..0] == [];
    assert steps[..2][..1] == steps[..1] && steps[..3][..2] == steps[..2];
    assert After(2, steps[..1]).Some?;
    assert After(2, steps[..2]).Some?;
    var third := After(2, steps[..3]);
    assert third.Some? && third.value.requests.pending[id] == 2 && Taking(third.value);
    var replies := After(2, steps).value.requests.replies;
    assert replies[|replies| - 1] == Sent(2, Success(11));
  }

  // ---- The drain and the end of the loop ----

  function Farewells(q: Requests, order: seq<RequestId>): seq<Sent>
    requires forall id :: id in order ==> id in q.pending
  {
    seq(|order|, i requires 0 <= i < |order| => Sent(q.pending[order[i]], Failure(-32603, 3)))
  }

  /** The drain sends every pending request one internal error, in the order of the table. */
  lemma {:induction false} DrainTells(q: Requests, order: seq<RequestId>)
    requires Distinct(order) && forall id :: id in order ==> id in q.pending
    ensures DrainAll(q, order).replies == q.replies + Farewells(q, order)
    decreases |order|
  {
    if |order| > 0 {
      var head, last := order[..|order| - 1], order[|order| - 1];
      assert order == head + [last];
      DrainTells(q, head);
      assert last !in head;
      assert Farewells(q, order) == Farewells(q, head) + [Sent(q.pending[last], SHUTTING_DOWN)];
    }
  }

  /** What ends the loop: shutdown, a client or a writer that is gone, a processor that is closed when
      something is to be forwarded, or a consumer that is gone when a notification is to be sent. */
  predicate Ends(s: Runtime, step: Step) {
    match step
    case Shutdown => true
    case ClientGone => true
    case WriterGone => true
    case Request(id, _) => id !in s.requests.pending && !s.requests.processorOpen
    case ClientNotification => !s.requests.processorOpen
    case Outgoing(e) => !s.stream.consumerOpen && !e.ServerRequest?
    case Unpark => !s.stream.consumerOpen
    case _ => false
  }

  lemma StepEnds(s: Runtime, step: Step)
    requires Enabled(s, step)
    ensures Apply(s, step).running <==> s.running && !Ends(s, step)
  {
  }

  predicate EndsAt(capacity: nat, steps: seq<Step>, i: nat)
    requires i < |steps|
  {
    match After(capacity, steps[..i]) case Some(s) => Ends(s, steps[i]) case None => false
  }

  ghost predicate NothingEnds(capacity: nat, steps: seq<Step>) {
    forall i :: 0 <= i < |steps| ==> !EndsAt(capacity, steps, i)
  }

  lemma NothingEndsPush(capacity: nat, steps: seq<Step>, init: seq<Step>)
    requires |steps| > 0 && init == steps[..|steps| - 1]
    ensures NothingEnds(capacity, steps) <==> NothingEnds(capacity, init) && !EndsAt(capacity, steps, |init|)
  {
    forall i | 0 <= i < |init| ensures EndsAt(capacity, steps, i) <==> EndsAt(capacity, init, i) {
      assert steps[..i] == init[..i];
    }
    if NothingEnds(capacity, steps) {
      forall i | 0 <= i < |init| ensures !EndsAt(capacity, init, i) {
        assert !EndsAt(capacity, steps, i);
      }
    }
  }

  /** In every run the loop runs until the first step that ends it. */
  lemma {:induction false} LoopEndsExactly(capacity: nat, steps: seq<Step>)
    requires After(capacity, steps).Some?
    ensures After(capacity, steps).value.running <==> NothingEnds(capacity, steps)
  {
    if |steps| > 0 {
      var init := steps[..|steps| - 1];
      LoopEndsExactly(capacity, init);
      NothingEndsPush(capacity, steps, init);
      StepEnds(After(capacity, init).value, steps[|init|]);
    }
  }

  // ---- The event stream ----

  function EventsOf(fates: seq<Fate>): seq<Event> {
    if |fates| == 0 then [] else EventsOf(fates[..|fates| - 1]) + [fates[|fates| - 1].event]
  }

  function QueuedOf(fates: seq<Fate>): seq<Event> {
    if |fates| == 0 then []
    else QueuedOf(fates[..|fates| - 1]) + (if fates[|fates| - 1].Queued? then [fates[|fates| - 1].event] else [])
  }

  function ParkedOf(t: Stream): seq<Event> {
    match t.parked case None => [] case Some(e) => [e]
  }

  /** Events that must not be dropped: the end of a turn, and three legacy events, prefixed or not. */
  predicate MustArrive(e: Event) {
    match e
    case TurnCompleted(_) => true
    case Legacy(m) =>
      m in {"task_complete", "turn_aborted", "shutdown_complete",
            "codex/event/task_complete", "codex/event/turn_aborted", "codex/event/shutdown_complete"}
    case _ => false
  }

  lemma StripsTo(m: string, p: string, x: string)
    requires |p| > 0 && |x| > 0 && x[0] != p[0]
    ensures StripPrefix(m, p) == x <==> m == x || m == p + x
  {
    if p <= m {
      assert m == p + m[|p|..];
    }
  }

  lemma PrefixedNames(p: string)
    requires p == "codex/event/"
    ensures p + "task_complete" == "codex/event/task_complete"
    ensures p + "turn_aborted" == "codex/event/turn_aborted"
    ensures p + "shutdown_complete" == "codex/event/shutdown_complete"
  {
  }

  lemma MustArriveExactly(e: Event)
    ensures RequiresDelivery(e) <==> MustArrive(e)
  {
    if e.Legacy? {
      var p := "codex/event/";
      StripsTo(e.eventMethod, p, "task_complete");
      StripsTo(e.eventMethod, p, "turn_aborted");
      StripsTo(e.eventMethod, p, "shutdown_complete");
      PrefixedNames(p);
    }
  }

  /** An event missed the queue only because it was full, or because its consumer was gone; an event
      that must be delivered, only for the latter; a server request was then failed back. */
  predicate Justified(f: Fate, capacity: nat) {
    match f
    case Queued(_) => true
    case Dropped(e, queued, open) => !e.ServerRequest? && (open ==> queued == capacity && !MustArrive(e))
    case FailedBack(e, code, queued, open) =>
      e.ServerRequest? && code == (if open then -32001 else -32603) && (open ==> queued == capacity)
  }

  ghost predicate StreamSafe(t: Stream, capacity: nat) {
    && |t.events| <= capacity
    && t.delivered + t.events == QueuedOf(t.fates)
    && EventsOf(t.fates) + ParkedOf(t) == t.produced
    && (forall i :: 0 <= i < |t.fates| ==> Justified(t.fates[i], capacity))
    && (t.parked.Some? ==> MustArrive(t.parked.value))
  }

  lemma DecideSafe(t: Stream, fate: Fate, capacity: nat, produced: seq<Event>)
    requires StreamSafe(t, capacity) && t.parked.None? && Justified(fate, capacity)
    requires fate.Queued? ==> |t.events| < capacity
    requires produced == t.produced + [fate.event]
    ensures StreamSafe(Decide(t.(produced := produced), fate), capacity)
  {
    var t' := Decide(t.(produced := produced), fate);
    assert t'.fates[..|t.fates|] == t.fates;
    assert EventsOf(t'.fates) == EventsOf(t.fates) + [fate.event];
    assert t.produced == EventsOf(t.fates) + [] == EventsOf(t.fates);
    if fate.Queued? {
      assert t'.delivered + t'.events == (t.delivered + t.events) + [fate.event];
    }
  }

  lemma TakeEventSafe(t: Stream, capacity: nat, e: Event)
    requires StreamSafe(t, capacity) && t.parked.None?
    ensures StreamSafe(TakeEvent(t, capacity, e), capacity)
  {
    var produced := t.produced + [e];
    MustArriveExactly(e);
    if !t.consumerOpen {
      DecideSafe(t, if e.ServerRequest? then FailedBack(e, INTERNAL, |t.events|, false)
                    else Dropped(e, |t.events|, false),
                 capacity, produced);
    } else if |t.events| < capacity {
      DecideSafe(t, Queued(e), capacity, produced);
    } else if RequiresDelivery(e) {
      assert EventsOf(t.fates) + [] == t.produced;
    } else {
      DecideSafe(t, if e.ServerRequest? then FailedBack(e, OVERLOADED, |t.events|, true)
                    else Dropped(e, |t.events|, true),
                 capacity, produced);
    }
  }

  lemma UnparkSafe(t: Stream, capacity: nat)
    requires StreamSafe(t, capacity) && t.parked.Some? && (|t.events| < capacity || !t.consumerOpen)
    ensures StreamSafe(Decide(t.(parked := None),
                              if t.consumerOpen then Queued(t.parked.value)
                              else Dropped(t.parked.value, |t.events|, false)),
                       capacity)
  {
    var e := t.parked.value;
    var before := t.(parked := None, produced := EventsOf(t.fates));
    assert EventsOf(before.fates) + [] == before.produced;
    DecideSafe(before, if t.consumerOpen then Queued(e) else Dropped(e, |t.events|, false), capacity, t.produced);
  }

  lemma ApplyStreamSafe(s: Runtime, step: Step)
    requires Enabled(s, step) && StreamSafe(s.stream, s.capacity)
    ensures StreamSafe(Apply(s, step).stream, s.capacity) && Apply(s, step).capacity == s.capacity
  {
    match step {
      case Outgoing(e) =>
        TakeEventSafe(s.stream, s.capacity, e);
      case Unpark =>
        UnparkSafe(s.stream, s.capacity);
      case ConsumerTakes =>
        var t := s.stream;
        assert t.delivered + [t.events[0]] + t.events[1..] == t.delivered + t.events;
      case _ =>
    }
  }

  /** `a` is `b` with some elements left out. */
  ghost predicate Subsequence(a: seq<Event>, b: seq<Event>)
    decreases |b|
  {
    if |b| == 0 then |a| == 0
    else
      || Subsequence(a, b[..|b| - 1])
      || (|a| > 0 && a[|a| - 1] == b[|b| - 1] && Subsequence(a[..|a| - 1], b[..|b| - 1]))
  }

  lemma {:induction false} QueuedIsSubsequence(fates: seq<Fate>)
    ensures Subsequence(QueuedOf(fates), EventsOf(fates))
  {
    if |fates| > 0 {
      var rest, last := fates[..|fates| - 1], fates[|fates| - 1];
      QueuedIsSubsequence(rest);
      var a, b := QueuedOf(fates), EventsOf(fates);
      assert b[..|b| - 1] == EventsOf(rest) && b[|b| - 1] == last.event;
      if last.Queued? {
        assert a[..|a| - 1] == QueuedOf(rest);
      } else {
        assert a == QueuedOf(rest);
      }
    }
  }

  /** In every run: the client's queue stays within its capacity; what the client received and what is
      queued is, in order, a subsequence of the events produced; and every event that is not there
      was left out for a stated reason, never a must-deliver event while the consumer was open. */
  lemma {:induction false} EventStreamSafe(capacity: nat, steps: seq<Step>)
    requires After(capacity, steps).Some?
    ensures var s := After(capacity, steps).value;
      && s.capacity == (if capacity > 1 then capacity else 1)
      && StreamSafe(s.stream, s.capacity)
      && Subsequence(s.stream.delivered + s.stream.events, s.stream.produced)
  {
    if |steps| > 0 {
      EventStreamSafe(capacity, steps[..|steps| - 1]);
      ApplyStreamSafe(After(capacity, steps[..|steps| - 1]).value, steps[|steps| - 1]);
    }
    var t := After(capacity, steps).value.stream;
    QueuedIsSubsequence(t.fates);
    if t.parked.Some? {
      assert t.produced[..|t.produced| - 1] == EventsOf(t.fates);
    } else {
      assert t.produced == EventsOf(t.fates);
    }
  }

  /** What becomes of an event, by the state before: it joins the queue if there is room and a consumer;
      one that must arrive waits for room; otherwise a server request is failed back and anything else is
      dropped. */
  lemma EventDecided(s: Runtime, e: Event)
    requires Enabled(s, Outgoing(e))
    ensures var t, t' := s.stream, Apply(s, Outgoing(e)).stream;
      var room := |t.events| < s.capacity;
      && t'.produced == t.produced + [e] && t'.delivered == t.delivered && t'.consumerOpen == t.consumerOpen
      && t'.events == (if t.consumerOpen && room then t.events + [e] else t.events)
      && t'.parked == (if t.consumerOpen && !room && MustArrive(e) then Some(e) else None)
      && match t'.parked
         case Some(_) => t'.fates == t.fates
         case None =>
           && |t'.fates| == |t.fates| + 1 && t'.fates[..|t.fates|] == t.fates && t'.fates[|t.fates|].event == e
           && (t'.fates[|t.fates|].Queued? <==> t.consumerOpen && room)
           && (t'.fates[|t.fates|].FailedBack? <==> e.ServerRequest? && !(t.consumerOpen && room))
  {
    MustArriveExactly(e);
  }

  /** An event that waited joins the queue once there is room, and is dropped when its consumer is gone. */
  lemma UnparkDecided(s: Runtime)
    requires Enabled(s, Unpark)
    ensures var t, t' := s.stream, Apply(s, Unpark).stream;
      && t'.parked == None && t'.produced == t.produced && t'.delivered == t.delivered
      && t'.events == (if t.consumerOpen then t.events + [t.parked.value] else t.events)
      && |t'.fates| == |t.fates| + 1 && t'.fates[..|t.fates|] == t.fates
      && t'.fates[|t.fates|].event == t.parked.value
      && (t'.fates[|t.fates|].Queued? <==> t.consumerOpen)
  {
  }

  // ---- When a step can come ----

  ghost predicate Used(steps: seq<Step>, ticket: Ticket) {
    exists i :: 0 <= i < |steps| && steps[i].Request? && steps[i].ticket == ticket
  }

  ghost predicate Drained(steps: seq<Step>) {
    exists i :: 0 <= i < |steps| && steps[i].Drain?
  }

  lemma HistoryPush(steps: seq<Step>, step: Step, ticket: Ticket)
    ensures Used(steps + [step], ticket) <==> Used(steps, ticket) || (step.Request? && step.ticket == ticket)
    ensures Drained(steps + [step]) <==> Drained(steps) || step.Drain?
  {
    var all := steps + [step];
    assert all[|steps|] == step;
    assert forall i :: 0 <= i < |steps| ==> all[i] == steps[i];
  }

  lemma StepHistory(s: Runtime, step: Step)
    requires Enabled(s, step)
    ensures var s' := Apply(s, step);
      && s'.requests.taken == s.requests.taken + (if step.Request? then {step.ticket} else {})
      && (s'.drained <==> s.drained || step.Drain?)
      && (s'.requests.processorOpen <==> s.requests.processorOpen && step != ProcessorCloses)
      && (s'.stream.consumerOpen <==> s.stream.consumerOpen && step != ConsumerCloses)
  {
    if step.Drain? {
      DrainOpen(s.requests, step.order);
    }
  }

  lemma {:induction false} DrainOpen(q: Requests, order: seq<RequestId>)
    requires Distinct(order) && forall id :: id in order ==> id in q.pending
    ensures DrainAll(q, order).processorOpen == q.processorOpen
    decreases |order|
  {
    if |order| > 0 {
      var head := order[..|order| - 1];
      assert order == head + [order[|order| - 1]];
      DrainOpen(q, head);
    }
  }

  lemma {:induction false} StateTracksHistory(capacity: nat, steps: seq<Step>, ticket: Ticket)
    requires After(capacity, steps).Some?
    ensures var s := After(capacity, steps).value;
      && (ticket in s.requests.taken <==> Used(steps, ticket)) && (s.drained <==> Drained(steps))
      && (s.requests.processorOpen <==> ProcessorCloses !in steps)
      && (s.stream.consumerOpen <==> ConsumerCloses !in steps)
  {
    if |steps| > 0 {
      var rest, step := steps[..|steps| - 1], steps[|steps| - 1];
      assert steps == rest + [step];
      StateTracksHistory(capacity, rest, ticket);
      HistoryPush(rest, step, ticket);
      StepHistory(After(capacity, rest).value, step);
    }
  }

  ghost predicate InTurn(capacity: nat, steps: seq<Step>, s: Runtime, step: Step) {
    match step
    case Request(_, ticket) => NothingEnds(capacity, steps) && s.stream.parked == None && !Used(steps, ticket)
    case ProcessorTakes => s.requests.commands != []
    case ProcessorCloses => true
    case ConsumerTakes => s.stream.events != [] && ConsumerCloses !in steps
    case ConsumerCloses => true
    case Unpark =>
      && NothingEnds(capacity, steps) && s.stream.parked != None
      && (|s.stream.events| < s.capacity || ConsumerCloses in steps)
    case Drain(order) => !NothingEnds(capacity, steps) && !Drained(steps) && ListsOnce(order, s.requests.pending.Keys)
    case _ => NothingEnds(capacity, steps) && s.stream.parked == None
  }

  predicate ListsOnce(order: seq<RequestId>, ids: set<RequestId>) {
    && (forall id :: id in order ==> id in ids) && (forall id :: id in ids ==> id in order)
    && (forall i, j :: 0 <= i < j < |order| ==> order[i] != order[j])
  }

  /** In every run: the loop takes messages until a step ends it, unless it is held in a send; every request
      brings its own ticket; the processor and the consumer take what is queued; a held send goes on when
      there is room or the consumer is gone; and after the end there is one drain, of each pending request
      once. */
  lemma StepPossible(capacity: nat, steps: seq<Step>, step: Step)
    requires After(capacity, steps).Some?
    ensures Enabled(After(capacity, steps).value, step) <==> InTurn(capacity, steps, After(capacity, steps).value, step)
  {
    LoopEndsExactly(capacity, steps);
    StateTracksHistory(capacity, steps, if step.Request? then step.ticket else 0);
    if step.Drain? {
      var ids := After(capacity, steps).value.requests.pending.Keys;
      assert (set id | id in step.order) == ids
        <==> (forall id :: id in step.order ==> id in ids) && (forall id :: id in ids ==> id in step.order);
    }
  }

  // ---- The loop itself ----

  /** The runtime's own variables, changed message by message; `View` adds the record of the run. */
  class Loop {
    const capacity: nat
    var running: bool
    var drained: bool
    var pending: map<RequestId, Ticket>
    var commands: seq<Command>
    var processorOpen: bool
    var events: seq<Event>
    var consumerOpen: bool
    var parked: Option<Event>
    var replies: seq<Sent>
    ghost var processed: seq<Command>
    ghost var taken: set<Ticket>
    ghost var forwarded: map<Ticket, RequestId>
    ghost var answered: set<Ticket>
    ghost var delivered: seq<Event>
    ghost var produced: seq<Event>
    ghost var fates: seq<Fate>

    ghost function View(): Runtime
      reads this
    {
      Runtime(capacity, running, drained,
              Requests(pending, commands, processorOpen, processed, taken, replies, forwarded, answered),
              Stream(events, consumerOpen, parked, delivered, produced, fates))
    }

    constructor (channelCapacity: nat)
      ensures View() == Start(channelCapacity)
    {
      capacity := if channelCapacity > 1 then channelCapacity else 1;
      running, drained := true, false;
      pending, commands, processorOpen, replies := map[], [], true, [];
      events, consumerOpen, parked := [], true, None;
      processed, taken, forwarded, answered := [], {}, map[], {};
      delivered, produced, fates := [], [], [];
    }

    /** A client request: duplicate ids are refused, then the request is forwarded if there is room. */
    method OnRequest(id: RequestId, ticket: Ticket)
      requires Enabled(View(), Request(id, ticket))
      modifies this
      ensures View() == Apply(old(View()), Request(id, ticket))
    {
      if id in pending {
        taken := taken + {ticket};
        replies := replies + [Sent(ticket, DUPLICATE)];
        return;
      }
      Forwarded(id, ticket);
    }

    /** A request under a free id waits and is sent on, or stops waiting and is told why not. */
    method Forwarded(id: RequestId, ticket: Ticket)
      requires id !in pending
      modifies this`pending, this`commands, this`replies, this`running, this`taken, this`forwarded
      ensures View().requests == TakeRequest(old(View()).requests, capacity, id, ticket)
      ensures running == (old(running) && processorOpen)
    {
      PutAndTaken(pending, id, ticket);
      taken := taken + {ticket};
      pending := pending[id := ticket];
      if !processorOpen {
        replies := replies + [Sent(pending[id], PROCESSOR_CLOSED)];
        pending := pending - {id};
        running := false;
      } else if |commands| >= capacity {
        replies := replies + [Sent(pending[id], QUEUE_FULL)];
        pending := pending - {id};
      } else {
        commands := commands + [Forward(ticket, id)];
        forwarded := forwarded[ticket := id];
      }
    }

    method OnClientNotification()
      requires Enabled(View(), ClientNotification)
      modifies this
      ensures View() == Apply(old(View()), ClientNotification)
    {
      if !processorOpen {
        running := false;
      } else if |commands| < capacity {
        commands := commands + [Notify];
      }
    }

    /** A response or error from the processor: unmatched ones are dropped. */
    method OnAnswer(id: RequestId, reply: Reply, ghost cause: Ticket)
      requires Enabled(View(), Answer(id, reply, cause))
      modifies this
      ensures View() == Apply(old(View()), Answer(id, reply, cause))
    {
      answered := answered + {cause};
      if id in pending {
        replies := replies + [Sent(pending[id], reply)];
        pending := pending - {id};
      }
    }

    /** An event for the client: sent if there is room, waited for if it must arrive, else let go. */
    method OnOutgoing(e: Event) returns (failed: Option<int>)
      requires Enabled(View(), Outgoing(e))
      modifies this
      ensures View() == Apply(old(View()), Outgoing(e))
      ensures failed.Some? <==> |fates| > |old(fates)| && fates[|fates| - 1].FailedBack?
      ensures failed.Some? ==> fates[|fates| - 1].code == failed.value
    {
      failed := None;
      produced := produced + [e];
      if !consumerOpen {
        if e.ServerRequest? {
          failed := Some(INTERNAL);
          fates := fates + [FailedBack(e, INTERNAL, |events|, false)];
        } else {
          fates := fates + [Dropped(e, |events|, false)];
          running := false;
        }
      } else if |events| < capacity {
        fates := fates + [Queued(e)];
        events := events + [e];
      } else if RequiresDelivery(e) {
        parked := Some(e);
      } else if e.ServerRequest? {
        failed := Some(OVERLOADED);
        fates := fates + [FailedBack(e, OVERLOADED, |events|, true)];
      } else {
        fates := fates + [Dropped(e, |events|, true)];
      }
    }

    /** After the loop: every request still pending is told of the shutdown. `order` is the order in
        which the table gives up its entries. */
    method DrainPending(order: seq<RequestId>)
      requires Enabled(View(), Drain(order))
      modifies this
      ensures View() == Apply(old(View()), Drain(order))
    {
      pending, replies := SendShutdown(View().requests, pending, replies, order);
      drained := true;
    }
  }

  lemma PutAndTaken(m: map<RequestId, Ticket>, id: RequestId, ticket: Ticket)
    requires id !in m
    ensures m[id := ticket] - {id} == m
  {
  }

  method SendShutdown(ghost q: Requests, pending: map<RequestId, Ticket>, replies: seq<Sent>, order: seq<RequestId>)
    returns (left: map<RequestId, Ticket>, sent: seq<Sent>)
    requires q.pending == pending && q.replies == replies
    requires Distinct(order) && forall id :: id in order ==> id in pending
    ensures q.(pending := left, replies := sent) == DrainAll(q, order)
  {
    left, sent := pending, replies;
    for i := 0 to |order|
      invariant Distinct(order[..i])
      invariant q.(pending := left, replies := sent) == DrainAll(q, order[..i])
    {
      DrainStep(q, order, i);
      sent := sent + [Sent(left[order[i]], SHUTTING_DOWN)];
      left := left - {order[i]};
    }
    assert order[..|order|] == order;
  }

  lemma DrainStep(q: Requests, order: seq<RequestId>, i: nat)
    requires Distinct(order) && i < |order| && forall id :: id in order ==> id in q.pending
    ensures var r := DrainAll(q, order[..i]);
      && order[i] in r.pending
      && DrainAll(q, order[..i + 1])
         == r.(pending := r.pending - {order[i]}, replies := r.replies + [Sent(r.pending[order[i]], SHUTTING_DOWN)])
  {
    var upto := order[..i + 1];
    assert upto[..i] == order[..i] && upto[i] == order[i];
    assert order[i] !in order[..i];
  }
}
