/**
 Runs of one RabbitMQ client against a broker that may drop the channel at any
 moment (src/clients/rabbitmq_client.py, src/worker/worker.py).

 A delivery tag means something only on the channel that issued it (the
 channel-local rule of the delivery-tag domain in AMQP 0-9-1).  The client keeps a
 count of unsettled tags and declines to reconnect while it is not zero; this module
 proves what that buys, and what it does not buy a caller that settles a tag twice.
 */
module ChannelSessions {
  import opened Common
  import opened Delivery

  datatype Verdict = Ack | Requeue | Reject

  /**
   `alive` is the broker's side of the channel and `open` the client's belief.
   `pending`, `sanctioned` and `misdirected` are bookkeeping: the tags handed to the
   caller and not settled, the messages acked through their own tag, and the number
   of settlements sent on a channel other than the one that issued the tag.
   */
  datatype Session = Session(
    broker: Broker,
    alive: bool,
    nextEpoch: nat,
    channel: Option<nat>,
    open: bool,
    outstanding: nat,
    cursor: nat,
    pending: map<Tag, Held>,
    sanctioned: seq<Held>,
    misdirected: nat)

  datatype Fetch = Raised | Absent | Got(delivered: Delivered)

  /** A client that has just connected to a broker holding `queues`. */
  function Connected(queues: map<string, seq<Body>>): Session {
    Session(Broker(queues, [], [], map[], 1), true, 1, Some(0), true, 0, 0, map[], [], 0)
  }

  /** A client that has not connected yet. */
  function Unconnected(queues: map<string, seq<Body>>): Session {
    Session(Broker(queues, [], [], map[], 1), false, 0, None, false, 0, 0, map[], [], 0)
  }

  // ------------------------------------------------------------ broker reactions

  function PushFront(queues: map<string, seq<Body>>, held: Held): map<string, seq<Body>> {
    queues[held.queue := [held.body] + (if held.queue in queues then queues[held.queue] else [])]
  }

  /** Put every unacked message back at the head of its queue, oldest tag first. */
  function RequeueBelow(queues: map<string, seq<Body>>, unacked: map<nat, Held>, n: nat): map<string, seq<Body>>
    decreases n
  {
    if n == 0 then
      queues
    else
      RequeueBelow(if n - 1 in unacked then PushFront(queues, unacked[n - 1]) else queues, unacked, n - 1)
  }

  /** The broker loses the channel and requeues what was unacked on it. */
  function Drop(s: Session): Session {
    if !s.alive then
      s
    else
      s.(alive := false,
         broker := s.broker.(queues := RequeueBelow(s.broker.queues, s.broker.unacked, s.broker.nextTag),
                             unacked := map[]))
  }

  /** The broker settles tag number `n` of the current channel. */
  function Retire(b: Broker, n: nat, verdict: Verdict): Broker
    requires n in b.unacked
  {
    var held := b.unacked[n];
    var rest := b.(unacked := b.unacked - {n});
    match verdict
    case Ack => rest.(acked := b.acked + [held])
    case Requeue => rest.(queues := PushFront(b.queues, held))
    case Reject => rest.(dead := b.dead + [held])
  }

  // -------------------------------------------------------------- client actions

  function PollStep(s: Session, strict: seq<string>, light: seq<string>): (Session, Fetch) {
    if s.channel.None? || !s.open then
      (s, Raised)
    else if strict + light == [] then
      (s, Absent)
    else if !s.alive then
      (s.(open := false), Raised)
    else
      var (got, broker, cursor) := Poll(s.broker, s.channel.value, s.cursor, strict, light);
      var polled := s.(broker := broker, cursor := cursor);
      match got
      case None => (polled, Absent)
      case Some(d) =>
        (polled.(outstanding := s.outstanding + 1, pending := s.pending[d.tag := d.held]), Got(d))
  }

  /**
   ack and nack: retire one from the counter, then forward the bare tag number to
   whatever channel is current.  On a channel the broker has lost, the send raises
   when the client notices and vanishes otherwise; an unknown number is a channel
   error.  The second component says whether the call raised.
   */
  function SettleStep(s: Session, tag: Tag, verdict: Verdict, noticed: bool): (Session, bool) {
    var counted := s.(outstanding := if s.outstanding == 0 then 0 else s.outstanding - 1,
                      pending := s.pending - {tag});
    if s.channel.None? || !s.open then
      (counted, false)
    else
      var sent := counted.(misdirected := s.misdirected + if s.channel.value == tag.epoch then 0 else 1);
      if !s.alive then
        (sent.(open := !noticed), noticed)
      else if tag.number !in s.broker.unacked then
        (Drop(sent), false)
      else
        (sent.(broker := Retire(s.broker, tag.number, verdict),
               sanctioned := s.sanctioned + if verdict.Ack? && tag in s.pending then [s.pending[tag]] else []),
         false)
  }

  /** _discard_connection. */
  function Discard(s: Session): Session {
    Drop(s).(channel := None, open := false, outstanding := 0)
  }

  /** _ensure_channel: the second component says whether a channel came back. */
  function EnsureStep(s: Session, reachable: bool): (Session, bool) {
    if s.channel.Some? && s.open then
      (s, true)
    else if s.outstanding > 0 then
      (s, false)
    else if !reachable then
      (Discard(s), false)
    else
      var cleared := Discard(s);
      (cleared.(channel := Some(s.nextEpoch), nextEpoch := s.nextEpoch + 1, open := true, alive := true,
              broker := cleared.broker.(nextTag := 1)),
       true)
  }

  function Enqueue(b: Broker, queue: string, body: Body): Broker {
    b.(queues := b.queues[queue := Waiting(b, queue) + [body]])
  }

  /**
   publish: through _ensure_channel, then a send.  On a channel the broker has lost the
   send raises when the client notices and vanishes otherwise.  The second component
   says whether the call returned normally.
   */
  function PublishStep(s: Session, queue: string, body: Body, reachable: bool, noticed: bool): (Session, bool) {
    var (ready, ok) := EnsureStep(s, reachable);
    if !ok then
      (ready, false)
    else if !ready.alive then
      (ready.(open := !noticed), !noticed)
    else
      (ready.(broker := Enqueue(ready.broker, queue, body)), true)
  }

  /** get_queue_size is a round trip, so it always notices a dead channel. */
  function MeasureStep(s: Session, reachable: bool): (Session, bool) {
    var (ready, ok) := EnsureStep(s, reachable);
    if ok && !ready.alive then (ready.(open := false), false) else (ready, ok)
  }

  datatype Event =
    | Polled(strict: seq<string>, light: seq<string>)
    | Settled(tag: Tag, verdict: Verdict, noticed: bool)
    | Published(queue: string, body: Body, reachable: bool, noticed: bool)
    | Arrived(queue: string, body: Body)
    | Broken
    | Serviced(noticed: bool)
    | Measured(reachable: bool)
    | Closed

  function Apply(s: Session, e: Event): Session {
    match e
    case Polled(strict, light) => PollStep(s, strict, light).0
    case Settled(tag, verdict, noticed) => SettleStep(s, tag, verdict, noticed).0
    case Published(queue, body, reachable, noticed) => PublishStep(s, queue, body, reachable, noticed).0
    case Arrived(queue, body) => s.(broker := Enqueue(s.broker, queue, body))
    case Broken => Drop(s)
    case Serviced(noticed) => s.(open := s.open && (s.channel.None? || s.alive || !noticed))
    case Measured(reachable) => MeasureStep(s, reachable).0
    case Closed => Drop(s).(open := false)
  }

  function Replay(s: Session, events: seq<Event>): Session
    decreases |events|
  {
    if events == [] then s else Replay(Apply(s, events[0]), events[1..])
  }

  /** The caller's obligation: settle only tags it was handed, each at most once. */
  ghost predicate Disciplined(s: Session, events: seq<Event>)
    decreases |events|
  {
    events == []
    || ((events[0].Settled? ==> events[0].tag in s.pending) && Disciplined(Apply(s, events[0]), events[1..]))
  }

  // --------------------------------------------------- what reaches the live broker

  /** `bodies` are what `queue` holds now, and every other queue is as before. */
  ghost predicate OnlyQueue(before: Broker, after: Broker, queue: string, bodies: seq<Body>) {
    forall q :: Waiting(after, q) == if q == queue then bodies else Waiting(before, q)
  }

  ghost predicate SameQueues(before: Broker, after: Broker) {
    forall q :: Waiting(after, q) == Waiting(before, q)
  }

  /**
   On a live channel a requeue puts the message back at the head of its queue, a reject
   dead-letters it and an ack removes it; nothing else changes at the broker.
   */
  lemma SettlementMeans(s: Session, tag: Tag, noticed: bool)
    requires s.channel.Some? && s.open && s.alive && tag.number in s.broker.unacked
    ensures
      var b, held := s.broker, s.broker.unacked[tag.number];
      var requeued := SettleStep(s, tag, Requeue, noticed).0.broker;
      && OnlyQueue(b, requeued, held.queue, [held.body] + Waiting(b, held.queue))
      && requeued.dead == b.dead && requeued.acked == b.acked && requeued.unacked == b.unacked - {tag.number}
    ensures
      var b, held := s.broker, s.broker.unacked[tag.number];
      var rejected := SettleStep(s, tag, Reject, noticed).0.broker;
      && SameQueues(b, rejected)
      && rejected.dead == b.dead + [held] && rejected.acked == b.acked && rejected.unacked == b.unacked - {tag.number}
    ensures
      var b, held := s.broker, s.broker.unacked[tag.number];
      var acked := SettleStep(s, tag, Ack, noticed).0.broker;
      && SameQueues(b, acked)
      && acked.dead == b.dead && acked.acked == b.acked + [held] && acked.unacked == b.unacked - {tag.number}
    ensures forall verdict :: !SettleStep(s, tag, verdict, noticed).1
  {
  }

  /** On a live channel a publish puts the message behind what waits in its queue, and changes nothing else. */
  lemma PublishAppends(s: Session, queue: string, body: Body, reachable: bool, noticed: bool)
    requires s.channel.Some? && s.open && s.alive
    ensures
      var (next, ok) := PublishStep(s, queue, body, reachable, noticed);
      && ok && next == s.(broker := next.broker)
      && next.broker == s.broker.(queues := next.broker.queues)
      && OnlyQueue(s.broker, next.broker, queue, Waiting(s.broker, queue) + [body])
  {
  }

  predicate Usable(s: Session) {
    s.channel.Some? && s.open
  }

  /** A poll raises exactly without an open channel, or on one the broker has lost when there is a queue to ask. */
  lemma PollRaisesExactlyWhen(s: Session, strict: seq<string>, light: seq<string>)
    ensures PollStep(s, strict, light).1 == Raised <==> !Usable(s) || (!s.alive && strict + light != [])
    ensures PollStep(s, strict, light).1 == Raised ==> !Usable(PollStep(s, strict, light).0)
    ensures PollStep(s, strict, light).1 == Raised ==> PollStep(s, strict, light).0.broker == s.broker
  {
  }

  /**
   An open channel is kept.  Without one nothing happens while deliveries are outstanding;
   otherwise the client ends up on a fresh channel with fresh tags, or on none.
   */
  lemma EnsureMeans(s: Session, reachable: bool)
    ensures Usable(s) ==> EnsureStep(s, reachable) == (s, true)
    ensures !Usable(s) && s.outstanding > 0 ==> EnsureStep(s, reachable) == (s, false)
    ensures !Usable(s) && s.outstanding == 0 ==>
              var (t, ok) := EnsureStep(s, reachable);
              && ok == reachable
              && t.outstanding == 0 && t.cursor == s.cursor && t.broker.dead == s.broker.dead
              && (ok ==> && t.channel == Some(s.nextEpoch) && t.nextEpoch == s.nextEpoch + 1
                         && t.open && t.alive && t.broker.nextTag == 1)
              && (!ok ==> t.channel == None && !t.open && !t.alive && t.nextEpoch == s.nextEpoch)
  {
  }

  /** A depth can be read on the channel that was open and alive, or on a new one. */
  lemma MeasureFailsExactlyWhen(s: Session, reachable: bool)
    ensures !MeasureStep(s, reachable).1 <==>
              if Usable(s) then !s.alive else s.outstanding > 0 || !reachable
    ensures Usable(s) && !s.alive ==> MeasureStep(s, reachable).0 == s.(open := false)
  {
  }

  /** The unacked messages of one queue below tag n, oldest tag first. */
  function UnackedOf(unacked: map<nat, Held>, queue: string, n: nat): seq<Body> {
    if n == 0 then []
    else
      UnackedOf(unacked, queue, n - 1)
      + if n - 1 in unacked && unacked[n - 1].queue == queue then [unacked[n - 1].body] else []
  }

  lemma {:induction false} RequeuesInOrder(queues: map<string, seq<Body>>, unacked: map<nat, Held>, n: nat,
                                           queue: string)
    ensures
      var after := RequeueBelow(queues, unacked, n);
      (if queue in after then after[queue] else [])
      == UnackedOf(unacked, queue, n) + if queue in queues then queues[queue] else []
    decreases n
  {
    if n > 0 {
      var next := if n - 1 in unacked then PushFront(queues, unacked[n - 1]) else queues;
      RequeuesInOrder(next, unacked, n - 1, queue);
    }
  }

  /** A lost channel puts what was unacked back in front, in the order of the tags. */
  lemma DropPutsBackInOrder(s: Session, queue: string)
    requires s.alive
    ensures Waiting(Drop(s).broker, queue)
         == UnackedOf(s.broker.unacked, queue, s.broker.nextTag) + Waiting(s.broker, queue)
    ensures Drop(s).broker.dead == s.broker.dead && Drop(s).broker.acked == s.broker.acked
    ensures Drop(s).broker.unacked == map[] && !Drop(s).alive
  {
    RequeuesInOrder(s.broker.queues, s.broker.unacked, s.broker.nextTag, queue);
  }

  // ------------------------------------------------------------------ tag safety

  ghost predicate BrokerSound(s: Session) {
    && (forall n :: n in s.broker.unacked ==> n < s.broker.nextTag)
    && (!s.alive ==> s.broker.unacked == map[])
  }

  ghost predicate TagsSound(s: Session) {
    && BrokerSound(s)
    && s.outstanding == |s.pending|
    && (forall t :: t in s.pending ==> s.channel == Some(t.epoch))
    && (s.alive ==> s.open && s.channel.Some?)
    && (s.alive ==> forall t :: t in s.pending ==>
          t.number in s.broker.unacked && s.broker.unacked[t.number] == s.pending[t])
    && (s.alive ==> forall n :: n in s.broker.unacked ==> Tag(s.channel.value, n) in s.pending)
    && (s.channel.Some? ==> s.channel.value < s.nextEpoch)
    && s.broker.acked == s.sanctioned
    && s.misdirected == 0
  }

  /** What a scan does to tags: at most one new one, never seen before. */
  lemma {:induction false} ScanTags(b: Broker, epoch: nat, names: seq<string>)
    ensures
      var (got, next, _) := Scan(b, epoch, names);
      && b.nextTag <= next.nextTag
      && next.acked == b.acked
      && (got.None? ==> next.unacked == b.unacked)
      && (got.Some? ==>
            && got.value.tag.epoch == epoch
            && b.nextTag <= got.value.tag.number < next.nextTag
            && next.unacked == b.unacked[got.value.tag.number := got.value.held])
    decreases |names|
  {
    if names != [] {
      var (got, next) := GetOne(b, epoch, names[0]);
      if got.None? {
        ScanTags(next, epoch, names[1..]);
      }
    }
  }

  lemma PollTags(b: Broker, epoch: nat, cursor: nat, strict: seq<string>, light: seq<string>)
    ensures
      var (got, next, _) := Poll(b, epoch, cursor, strict, light);
      && b.nextTag <= next.nextTag
      && next.acked == b.acked
      && (got.None? ==> next.unacked == b.unacked)
      && (got.Some? ==>
            && got.value.tag.epoch == epoch
            && b.nextTag <= got.value.tag.number < next.nextTag
            && next.unacked == b.unacked[got.value.tag.number := got.value.held])
  {
    ScanTags(b, epoch, strict);
    ScanTags(Scan(b, epoch, strict).1, epoch, Rotated(light, cursor));
  }

  lemma PollKeepsTagsSound(s: Session, strict: seq<string>, light: seq<string>)
    requires TagsSound(s)
    ensures TagsSound(PollStep(s, strict, light).0)
  {
    if s.channel.Some? && s.open && strict + light != [] && s.alive {
      PollTags(s.broker, s.channel.value, s.cursor, strict, light);
      var (next, fetch) := PollStep(s, strict, light);
      if fetch.Got? {
        assert fetch.delivered.tag !in s.pending;
        assert next.pending.Keys == s.pending.Keys + {fetch.delivered.tag};
      }
    }
  }

  lemma SettleKeepsTagsSound(s: Session, tag: Tag, verdict: Verdict, noticed: bool)
    requires TagsSound(s) && tag in s.pending
    ensures TagsSound(SettleStep(s, tag, verdict, noticed).0)
  {
    RemovedCount(s.pending, tag);
    var next := SettleStep(s, tag, verdict, noticed).0;
    if s.alive {
      assert next.broker.unacked == s.broker.unacked - {tag.number};
      forall t | t in next.pending
        ensures t.number in next.broker.unacked && next.broker.unacked[t.number] == next.pending[t]
      {
        assert t == Tag(s.channel.value, t.number) && t != tag;
      }
    }
  }

  lemma RemovedCount(pending: map<Tag, Held>, tag: Tag)
    requires tag in pending
    ensures |pending - {tag}| == |pending| - 1
  {
    assert pending.Keys == (pending - {tag}).Keys + {tag};
  }

  lemma EnsureKeepsTagsSound(s: Session, reachable: bool)
    requires TagsSound(s)
    ensures TagsSound(EnsureStep(s, reachable).0)
  {
    if s.outstanding == 0 {
      assert s.pending.Keys == {};
      assert s.pending == map[];
    }
  }

  lemma StepKeepsTagsSound(s: Session, e: Event)
    requires TagsSound(s) && (e.Settled? ==> e.tag in s.pending)
    ensures TagsSound(Apply(s, e))
  {
    match e
    case Polled(strict, light) => PollKeepsTagsSound(s, strict, light);
    case Settled(tag, verdict, noticed) => SettleKeepsTagsSound(s, tag, verdict, noticed);
    case Published(_, _, reachable, _) => EnsureKeepsTagsSound(s, reachable);
    case Measured(reachable) => EnsureKeepsTagsSound(s, reachable);
    case _ =>
  }

  /**
   In every disciplined run the counter is the number of unsettled tags, all of them
   belong to the current (possibly dead) channel, no settlement is ever sent on a
   foreign channel, and the messages removed by acks are exactly those whose own tag
   the caller acked.
   */
  lemma {:induction false} TagSafety(s: Session, events: seq<Event>)
    requires TagsSound(s) && Disciplined(s, events)
    ensures TagsSound(Replay(s, events))
    decreases |events|
  {
    if events != [] {
      StepKeepsTagsSound(s, events[0]);
      TagSafety(Apply(s, events[0]), events[1..]);
    }
  }

  /** A client starts sound, connected or not, and its first connection is a fresh one. */
  lemma ConnectedIsSound(queues: map<string, seq<Body>>)
    ensures TagsSound(Unconnected(queues)) && TagsSound(Connected(queues))
    ensures EnsureStep(Unconnected(queues), true) == (Connected(queues), true)
  {
  }

  // ---------------------------------------------------------------- conservation

  function UnackedAs(unacked: map<nat, Held>, held: Held, below: nat): set<nat> {
    set n | n in unacked && n < below && unacked[n] == held
  }

  function WaitingCount(queues: map<string, seq<Body>>, held: Held): nat {
    if held.queue in queues then multiset(queues[held.queue])[held.body] else 0
  }

  /** Copies of a message the broker accounts for: waiting, unacked, dead-lettered or acked. */
  function Copies(b: Broker, held: Held): nat {
    WaitingCount(b.queues, held) + |UnackedAs(b.unacked, held, b.nextTag)|
    + multiset(b.dead)[held] + multiset(b.acked)[held]
  }

  lemma PushFrontCount(queues: map<string, seq<Body>>, pushed: Held, held: Held)
    ensures WaitingCount(PushFront(queues, pushed), held)
         == WaitingCount(queues, held) + if pushed == held then 1 else 0
  {
  }

  lemma {:induction false} RequeueCount(queues: map<string, seq<Body>>, unacked: map<nat, Held>, n: nat, held: Held)
    ensures WaitingCount(RequeueBelow(queues, unacked, n), held)
         == WaitingCount(queues, held) + |UnackedAs(unacked, held, n)|
    decreases n
  {
    if n == 0 {
      assert UnackedAs(unacked, held, 0) == {};
    } else {
      if n - 1 in unacked {
        PushFrontCount(queues, unacked[n - 1], held);
        RequeueCount(PushFront(queues, unacked[n - 1]), unacked, n - 1, held);
      } else {
        RequeueCount(queues, unacked, n - 1, held);
      }
      assert UnackedAs(unacked, held, n)
          == UnackedAs(unacked, held, n - 1) + if n - 1 in unacked && unacked[n - 1] == held then {n - 1} else {};
    }
  }

  ghost predicate TagsBounded(b: Broker) {
    forall n :: n in b.unacked ==> n < b.nextTag
  }

  lemma PopCount(queues: map<string, seq<Body>>, queue: string, held: Held)
    requires queue in queues && queues[queue] != []
    ensures WaitingCount(queues, held)
         == WaitingCount(queues[queue := queues[queue][1..]], held)
          + if held == Held(queue, queues[queue][0]) then 1 else 0
  {
    var waiting := queues[queue];
    assert waiting == [waiting[0]] + waiting[1..];
    assert multiset(waiting) == multiset{waiting[0]} + multiset(waiting[1..]);
  }

  lemma HoldCount(unacked: map<nat, Held>, n: nat, taken: Held, held: Held)
    requires forall m :: m in unacked ==> m < n
    ensures |UnackedAs(unacked[n := taken], held, n + 1)|
         == |UnackedAs(unacked, held, n)| + if taken == held then 1 else 0
    ensures UnackedAs(unacked, held, n + 1) == UnackedAs(unacked, held, n)
  {
    assert UnackedAs(unacked[n := taken], held, n + 1)
        == UnackedAs(unacked, held, n) + if taken == held then {n} else {};
    assert n !in UnackedAs(unacked, held, n);
  }

  lemma AppendCount(helds: seq<Held>, one: Held, held: Held)
    ensures multiset(helds + [one])[held] == multiset(helds)[held] + if one == held then 1 else 0
  {
    assert multiset(helds + [one]) == multiset(helds) + multiset{one};
  }

  lemma GetOneCopies(b: Broker, epoch: nat, queue: string, held: Held)
    requires TagsBounded(b)
    ensures TagsBounded(GetOne(b, epoch, queue).1)
    ensures Copies(GetOne(b, epoch, queue).1, held) == Copies(b, held)
  {
    if Waiting(b, queue) != [] {
      var taken := Held(queue, Waiting(b, queue)[0]);
      PopCount(b.queues, queue, held);
      HoldCount(b.unacked, b.nextTag, taken, held);
      AppendCount(b.dead, taken, held);
    }
  }

  lemma {:induction false} ScanCopies(b: Broker, epoch: nat, names: seq<string>, held: Held)
    requires TagsBounded(b)
    ensures TagsBounded(Scan(b, epoch, names).1)
    ensures Copies(Scan(b, epoch, names).1, held) == Copies(b, held)
    decreases |names|
  {
    if names != [] {
      GetOneCopies(b, epoch, names[0], held);
      ScanCopies(GetOne(b, epoch, names[0]).1, epoch, names[1..], held);
    }
  }

  lemma DropCopies(s: Session, held: Held)
    requires BrokerSound(s)
    ensures BrokerSound(Drop(s)) && Copies(Drop(s).broker, held) == Copies(s.broker, held)
  {
    if s.alive {
      RequeueCount(s.broker.queues, s.broker.unacked, s.broker.nextTag, held);
      assert UnackedAs(map[], held, s.broker.nextTag) == {};
    }
  }

  lemma RetireCopies(b: Broker, n: nat, verdict: Verdict, held: Held)
    requires TagsBounded(b) && n in b.unacked
    ensures TagsBounded(Retire(b, n, verdict)) && Copies(Retire(b, n, verdict), held) == Copies(b, held)
  {
    PushFrontCount(b.queues, b.unacked[n], held);
    AppendCount(b.acked, b.unacked[n], held);
    AppendCount(b.dead, b.unacked[n], held);
    ReleaseCount(b.unacked, n, b.nextTag, held);
  }

  lemma ReleaseCount(unacked: map<nat, Held>, n: nat, below: nat, held: Held)
    requires n in unacked && n < below
    ensures |UnackedAs(unacked, held, below)|
         == |UnackedAs(unacked - {n}, held, below)| + if unacked[n] == held then 1 else 0
  {
    assert UnackedAs(unacked, held, below)
        == UnackedAs(unacked - {n}, held, below) + if unacked[n] == held then {n} else {};
    assert n !in UnackedAs(unacked - {n}, held, below);
  }

  lemma EnsureCopies(s: Session, reachable: bool, held: Held)
    requires BrokerSound(s)
    ensures BrokerSound(EnsureStep(s, reachable).0)
    ensures Copies(EnsureStep(s, reachable).0.broker, held) == Copies(s.broker, held)
  {
    DropCopies(s, held);
    var dropped := Drop(s).broker;
    assert UnackedAs(map[], held, dropped.nextTag) == UnackedAs(map[], held, 1);
  }

  /** Copies an event brings in from outside. */
  function Brought(s: Session, e: Event, held: Held): nat {
    match e
    case Published(queue, body, reachable, _) =>
      var (ready, ok) := EnsureStep(s, reachable);
      if ok && ready.alive && Held(queue, body) == held then 1 else 0
    case Arrived(queue, body) => if Held(queue, body) == held then 1 else 0
    case _ => 0
  }

  lemma PollCopies(s: Session, strict: seq<string>, light: seq<string>, held: Held)
    requires BrokerSound(s)
    ensures BrokerSound(PollStep(s, strict, light).0)
    ensures Copies(PollStep(s, strict, light).0.broker, held) == Copies(s.broker, held)
  {
    if s.channel.Some? && s.open && strict + light != [] && s.alive {
      var middle := Scan(s.broker, s.channel.value, strict).1;
      ScanCopies(s.broker, s.channel.value, strict, held);
      ScanCopies(middle, s.channel.value, Rotated(light, s.cursor), held);
    }
  }

  lemma SettleCopies(s: Session, tag: Tag, verdict: Verdict, noticed: bool, held: Held)
    requires BrokerSound(s)
    ensures BrokerSound(SettleStep(s, tag, verdict, noticed).0)
    ensures Copies(SettleStep(s, tag, verdict, noticed).0.broker, held) == Copies(s.broker, held)
  {
    if tag.number in s.broker.unacked {
      RetireCopies(s.broker, tag.number, verdict, held);
    } else {
      DropCopies(s, held);
    }
  }

  lemma EnqueueCopies(b: Broker, queue: string, body: Body, held: Held)
    ensures Copies(Enqueue(b, queue, body), held) == Copies(b, held) + if held == Held(queue, body) then 1 else 0
  {
    var waiting := Waiting(b, queue);
    assert multiset(waiting + [body]) == multiset(waiting) + multiset{body};
  }

  lemma PublishCopies(s: Session, queue: string, body: Body, reachable: bool, noticed: bool, held: Held)
    requires BrokerSound(s)
    ensures BrokerSound(PublishStep(s, queue, body, reachable, noticed).0)
    ensures Copies(PublishStep(s, queue, body, reachable, noticed).0.broker, held)
         == Copies(s.broker, held) + Brought(s, Published(queue, body, reachable, noticed), held)
  {
    EnsureCopies(s, reachable, held);
    EnqueueCopies(EnsureStep(s, reachable).0.broker, queue, body, held);
  }

  /** A publish returns normally and leaves no copy behind exactly on a dead channel the client still believes in. */
  lemma PublishVanishesExactlyWhen(s: Session, queue: string, body: Body, reachable: bool, noticed: bool)
    requires TagsSound(s)
    ensures
      var (next, ok) := PublishStep(s, queue, body, reachable, noticed);
      (ok && Copies(next.broker, Held(queue, body)) == Copies(s.broker, Held(queue, body)))
      <==> (s.channel.Some? && s.open && !s.alive && !noticed)
  {
    PublishCopies(s, queue, body, reachable, noticed, Held(queue, body));
  }

  /**
   Every event of every run, disciplined or not, keeps the number of copies of each
   message: broken channels, requeues, dead letters and foreign acks included.
   */
  lemma Conservation(s: Session, e: Event, held: Held)
    requires BrokerSound(s)
    ensures BrokerSound(Apply(s, e))
    ensures Copies(Apply(s, e).broker, held) == Copies(s.broker, held) + Brought(s, e, held)
  {
    match e
    case Polled(strict, light) => PollCopies(s, strict, light, held);
    case Settled(tag, verdict, noticed) => SettleCopies(s, tag, verdict, noticed, held);
    case Published(queue, body, reachable, noticed) => PublishCopies(s, queue, body, reachable, noticed, held);
    case Arrived(queue, body) => EnqueueCopies(s.broker, queue, body, held);
    case Broken => DropCopies(s, held);
    case Closed => DropCopies(s, held);
    case Serviced(_) =>
    case Measured(reachable) => EnsureCopies(s, reachable, held);
  }

  function BroughtIn(s: Session, events: seq<Event>, held: Held): nat
    decreases |events|
  {
    if events == [] then 0 else Brought(s, events[0], held) + BroughtIn(Apply(s, events[0]), events[1..], held)
  }

  /**
   At-least-once over whole runs: a message put in front of a disciplined client is
   still waiting, unacked or dead-lettered at the end unless the caller acked one of
   its own deliveries of it, copy for copy.
   */
  lemma {:induction false} AtLeastOnce(s: Session, events: seq<Event>, held: Held)
    requires TagsSound(s) && Disciplined(s, events)
    ensures
      var end := Replay(s, events);
      WaitingCount(end.broker.queues, held) + |UnackedAs(end.broker.unacked, held, end.broker.nextTag)|
      + multiset(end.broker.dead)[held] + multiset(end.sanctioned)[held]
      == Copies(s.broker, held) + BroughtIn(s, events, held)
    decreases |events|
  {
    if events != [] {
      StepKeepsTagsSound(s, events[0]);
      Conservation(s, events[0], held);
      AtLeastOnce(Apply(s, events[0]), events[1..], held);
    }
  }

  // ------------------------------------------------------------ who removes a message

  /** The event settles a delivery of `held` by this verdict, on the channel that issued the tag. */
  predicate Settles(s: Session, e: Event, verdict: Verdict, held: Held) {
    e.Settled? && e.verdict == verdict && s.alive && e.tag in s.pending && s.pending[e.tag] == held
  }

  /** How many deliveries of `held` a run settles by this verdict. */
  function Settlements(s: Session, events: seq<Event>, verdict: Verdict, held: Held): nat
    decreases |events|
  {
    if events == [] then 0
    else
      (if Settles(s, events[0], verdict, held) then 1 else 0)
      + Settlements(Apply(s, events[0]), events[1..], verdict, held)
  }

  /** Only bodies that decode are handed out. */
  ghost predicate HandsOutDecodables(s: Session) {
    forall n :: n in s.broker.unacked ==> s.broker.unacked[n].body.Decodable?
  }

  lemma {:induction false} ScanBuriesSpoiled(b: Broker, epoch: nat, names: seq<string>, held: Held)
    requires held.body.Decodable?
    ensures multiset(Scan(b, epoch, names).1.dead)[held] == multiset(b.dead)[held]
    decreases |names|
  {
    if names != [] {
      var (got, next) := GetOne(b, epoch, names[0]);
      GetOneFrame(b, epoch, names[0]);
      if got.None? {
        ScanBuriesSpoiled(next, epoch, names[1..], held);
      }
    }
  }

  lemma PollBuriesSpoiled(s: Session, strict: seq<string>, light: seq<string>, held: Held)
    requires held.body.Decodable?
    ensures multiset(PollStep(s, strict, light).0.broker.dead)[held] == multiset(s.broker.dead)[held]
  {
    if s.channel.Some? {
      ScanBuriesSpoiled(s.broker, s.channel.value, strict, held);
      ScanBuriesSpoiled(Scan(s.broker, s.channel.value, strict).1, s.channel.value, Rotated(light, s.cursor), held);
    }
  }

  lemma PollHandsOutDecodables(s: Session, strict: seq<string>, light: seq<string>)
    requires HandsOutDecodables(s)
    ensures HandsOutDecodables(PollStep(s, strict, light).0)
    ensures PollStep(s, strict, light).0.broker.acked == s.broker.acked
  {
    if s.channel.Some? {
      var middle := Scan(s.broker, s.channel.value, strict).1;
      ScanMeaning(s.broker, s.channel.value, strict);
      ScanMeaning(middle, s.channel.value, Rotated(light, s.cursor));
    }
  }

  /** One event: messages are acked by their acks and dead-lettered by their rejects. */
  lemma StepRemoves(s: Session, e: Event, held: Held)
    requires TagsSound(s) && HandsOutDecodables(s) && (e.Settled? ==> e.tag in s.pending)
    ensures
      var t := Apply(s, e);
      && HandsOutDecodables(t)
      && multiset(t.broker.acked)[held] == multiset(s.broker.acked)[held] + (if Settles(s, e, Ack, held) then 1 else 0)
      && (held.body.Decodable? ==>
            multiset(t.broker.dead)[held]
            == multiset(s.broker.dead)[held] + if Settles(s, e, Reject, held) then 1 else 0)
  {
    match e
    case Polled(strict, light) =>
      PollHandsOutDecodables(s, strict, light);
      if held.body.Decodable? {
        PollBuriesSpoiled(s, strict, light, held);
      }
    case Settled(tag, verdict, noticed) =>
    case Published(_, _, _, _) =>
    case Arrived(_, _) =>
    case Broken =>
    case Serviced(_) =>
    case Measured(_) =>
    case Closed =>
  }

  /**
   Over a disciplined run a message is acked once for every ack of its own delivery, and
   one that decodes is dead-lettered once for every reject of its own delivery: no other
   event removes it from its queue for good.
   */
  lemma {:induction false} OnlySettlementsRemove(s: Session, events: seq<Event>, held: Held)
    requires TagsSound(s) && HandsOutDecodables(s) && Disciplined(s, events)
    ensures
      var end := Replay(s, events);
      && HandsOutDecodables(end)
      && multiset(end.broker.acked)[held] == multiset(s.broker.acked)[held] + Settlements(s, events, Ack, held)
      && (held.body.Decodable? ==>
            multiset(end.broker.dead)[held] == multiset(s.broker.dead)[held] + Settlements(s, events, Reject, held))
    decreases |events|
  {
    if events != [] {
      StepRemoves(s, events[0], held);
      StepKeepsTagsSound(s, events[0]);
      OnlySettlementsRemove(Apply(s, events[0]), events[1..], held);
    }
  }

  /** A body that does not decode is never handed out or acked: it waits, or it is dead-lettered. */
  lemma SpoiledWaitsOrIsDead(s: Session, events: seq<Event>, held: Held)
    requires TagsSound(s) && HandsOutDecodables(s) && Disciplined(s, events) && held.body.Undecodable?
    ensures
      var end := Replay(s, events);
      WaitingCount(end.broker.queues, held) + multiset(end.broker.dead)[held]
      == WaitingCount(s.broker.queues, held) + multiset(s.broker.dead)[held] + BroughtIn(s, events, held)
  {
    var end := Replay(s, events);
    OnlySettlementsRemove(s, events, held);
    NoSpoiledSettled(s, events, held);
    AtLeastOnce(s, events, held);
    TagSafety(s, events);
    assert UnackedAs(s.broker.unacked, held, s.broker.nextTag) == {};
    assert UnackedAs(end.broker.unacked, held, end.broker.nextTag) == {};
  }

  lemma {:induction false} NoSpoiledSettled(s: Session, events: seq<Event>, held: Held)
    requires TagsSound(s) && HandsOutDecodables(s) && Disciplined(s, events) && held.body.Undecodable?
    ensures Settlements(s, events, Ack, held) == 0
    decreases |events|
  {
    if events != [] {
      StepRemoves(s, events[0], held);
      StepKeepsTagsSound(s, events[0]);
      NoSpoiledSettled(Apply(s, events[0]), events[1..], held);
    }
  }

  // ------------------------------------------------------ what discipline excludes

  /**
   How a worker ends a unit: ack; if the ack itself raises, the error path either
   requeues (shutting down) or publishes a retry and acks again.
   */
  function WorkerFinish(s: Session, tag: Tag, running: bool, queue: string, retry: Body, reachable: bool): Session {
    var (acked, raised) := SettleStep(s, tag, Ack, true);
    if !raised then
      acked
    else if !running then
      SettleStep(acked, tag, Requeue, true).0
    else
      var (published, ok) := PublishStep(acked, queue, retry, reachable, true);
      if ok then SettleStep(published, tag, Ack, true).0 else published
  }

  /**
   The worker's second ack goes out on a channel that never issued the tag exactly
   when the first one found the channel dead, the worker is not shutting down, this
   was its only unsettled unit and the broker accepts the reconnection.
   */
  lemma WorkerMisdirectsExactlyWhen(s: Session, tag: Tag, running: bool, queue: string, retry: Body, reachable: bool)
    requires TagsSound(s) && tag in s.pending
    ensures WorkerFinish(s, tag, running, queue, retry, reachable).misdirected > 0
            <==> (s.open && !s.alive && running && s.outstanding == 1 && reachable)
  {
    EpochsStayBehind(s, tag);
  }

  /** It ends without a channel exactly in that case with the broker out of reach; a stopping one never reconnects. */
  lemma WorkerDisconnectsExactlyWhen(s: Session, tag: Tag, running: bool, queue: string, retry: Body, reachable: bool)
    requires TagsSound(s) && tag in s.pending
    ensures WorkerFinish(s, tag, running, queue, retry, reachable).channel.None?
            <==> (s.open && !s.alive && running && s.outstanding == 1 && !reachable)
    ensures !running ==> WorkerFinish(s, tag, running, queue, retry, reachable).nextEpoch == s.nextEpoch
  {
    EpochsStayBehind(s, tag);
  }

  lemma EpochsStayBehind(s: Session, tag: Tag)
    requires TagsSound(s) && tag in s.pending
    ensures s.channel == Some(tag.epoch) && s.outstanding >= 1
  {
    assert tag in s.pending.Keys;
  }

  /**
   consume() settles twice when its ack raises.  The second settlement never leaves
   the client, because the first left the channel closed; the counter still matches
   the unsettled tags exactly when the ack did not raise or nothing else was pending.
   */
  function ConsumeFinish(s: Session, tag: Tag): Session {
    var (acked, raised) := SettleStep(s, tag, Ack, true);
    if raised then SettleStep(acked, tag, Reject, true).0 else acked
  }

  lemma ConsumeSettlesTwice(s: Session, tag: Tag)
    requires TagsSound(s) && tag in s.pending
    ensures ConsumeFinish(s, tag).misdirected == 0
    ensures ConsumeFinish(s, tag).outstanding == |ConsumeFinish(s, tag).pending|
            <==> (!s.open || s.alive || s.outstanding == 1)
  {
    RemovedCount(s.pending, tag);
    assert s.pending - {tag} - {tag} == s.pending - {tag};
    EpochsStayBehind(s, tag);
  }

  lemma {:induction false} RunSnoc(s: Session, events: seq<Event>, e: Event)
    ensures Replay(s, events + [e]) == Apply(Replay(s, events), e)
    ensures Disciplined(s, events + [e])
            <==> Disciplined(s, events) && (e.Settled? ==> e.tag in Replay(s, events).pending)
    decreases |events|
  {
    if events == [] {
      assert events + [e] == [e] && [e][1..] == [];
    } else {
      assert (events + [e])[1..] == events[1..] + [e];
      RunSnoc(Apply(s, events[0]), events[1..], e);
    }
  }

  /**
   A run in which one tag is settled twice across a reconnection: the stale number
   happens to name another delivery on the new channel, and that delivery is acked
   although nobody asked for it.
   */
  lemma DoubleSettleAcksAnotherDelivery(other: Body, retry: Body)
    requires other.Decodable?
    ensures
      var start := Connected(map["work" := [other]]);
      var poll := Polled(["work"], []);
      var settle := Settled(Tag(0, 1), Ack, true);
      var before := [poll] + [Broken] + [settle] + [Published("work", retry, true, true)] + [poll];
      var end := Replay(start, before + [settle]);
      && Disciplined(start, before)
      && !Disciplined(start, before + [settle])
      && end.misdirected == 1
      && end.broker.acked == [Held("work", other)]
      && end.sanctioned == []
  {
    var poll := Polled(["work"], []);
    var settle := Settled(Tag(0, 1), Ack, true);
    var publish := Published("work", retry, true, true);
    var s0 := Connected(map["work" := [other]]);
    RunSnoc(s0, [], poll);
    assert [] + [poll] == [poll];
    var s1 := Replay(s0, [poll]);
    assert s1.pending == map[Tag(0, 1) := Held("work", other)] && s1.broker.nextTag == 2;
    RunSnoc(s0, [poll], Broken);
    RequeueOne(s1.broker.queues, s1.broker.unacked);
    assert Waiting(Replay(s0, [poll] + [Broken]).broker, "work") == [other];
    RunSnoc(s0, [poll] + [Broken], settle);
    RunSnoc(s0, [poll] + [Broken] + [settle], publish);
    var s4 := Replay(s0, [poll] + [Broken] + [settle] + [publish]);
    assert Waiting(s4.broker, "work") == [other, retry];
    RunSnoc(s0, [poll] + [Broken] + [settle] + [publish], poll);
    assert Apply(s4, poll).broker.unacked == map[1 := Held("work", other)];
    RunSnoc(s0, [poll] + [Broken] + [settle] + [publish] + [poll], settle);
  }

  lemma RequeueOne(queues: map<string, seq<Body>>, unacked: map<nat, Held>)
    requires 1 in unacked && 0 !in unacked
    ensures RequeueBelow(queues, unacked, 2) == PushFront(queues, unacked[1])
  {
    var front := PushFront(queues, unacked[1]);
    assert RequeueBelow(queues, unacked, 2) == RequeueBelow(front, unacked, 1) == RequeueBelow(front, unacked, 0);
  }
}
