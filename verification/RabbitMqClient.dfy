/**
 The client object of src/clients/rabbitmq_client.py.  Every method is proved to
 take exactly the step that ChannelSessions gives it; Play carries the run theorems over
 to the object.
 */
module RabbitMqClients {
  import opened Common
  import opened Delivery
  import opened ChannelSessions

  class RabbitMqClient {
    // The broker as it answers this client.
    var broker: Broker
    var alive: bool
    var nextEpoch: nat

    var channel: Option<nat>
    var open: bool
    var rr: nat
    var outstandingDeliveries: nat

    ghost var pending: map<Tag, Held>
    ghost var sanctioned: seq<Held>
    ghost var misdirected: nat

    ghost function View(): Session
      reads this
    {
      Session(broker, alive, nextEpoch, channel, open, outstandingDeliveries, rr, pending, sanctioned, misdirected)
    }

    constructor (queues: map<string, seq<Body>>)
      ensures View() == Unconnected(queues)
    {
      broker := Broker(queues, [], [], map[], 1);
      alive, nextEpoch, channel, open := false, 0, None, false;
      rr, outstandingDeliveries := 0, 0;
      pending, sanctioned, misdirected := map[], [], 0;
    }

    /** basic_get on an open channel; an undecodable body is dead-lettered and reported as absent. */
    method BasicGetOne(queue: string) returns (fetch: Fetch)
      requires channel.Some? && open
      modifies this
      ensures !old(alive) ==> fetch == Raised && View() == old(View()).(open := false)
      ensures old(alive) ==>
                var (got, next) := GetOne(old(broker), old(channel).value, queue);
                match got
                case None => fetch == Absent && View() == old(View()).(broker := next)
                case Some(d) =>
                  && fetch == Got(d)
                  && View() == old(View()).(broker := next,
                                            outstanding := old(outstandingDeliveries) + 1,
                                            pending := old(pending)[d.tag := d.held])
    {
      if !alive {
        open := false;
        return Raised;
      }
      if queue !in broker.queues || broker.queues[queue] == [] {
        return Absent;
      }
      var held := Held(queue, broker.queues[queue][0]);
      var number := broker.nextTag;
      broker := broker.(queues := broker.queues[queue := broker.queues[queue][1..]], nextTag := number + 1);
      match held.body {
        case Undecodable(_) =>
          broker := broker.(dead := broker.dead + [held]);
          return Absent;
        case Decodable(_) =>
          broker := broker.(unacked := broker.unacked[number := held]);
          outstandingDeliveries := outstandingDeliveries + 1;
          pending := pending[Tag(channel.value, number) := held];
          return Got(Delivered(held, Tag(channel.value, number)));
      }
    }

    /** The strict tier of poll_one: first message found, in list order. */
    method PollStrictTier(queues: seq<string>) returns (fetch: Fetch)
      requires channel.Some? && open
      modifies this
      ensures !old(alive) ==>
                if queues == [] then fetch == Absent && View() == old(View())
                else fetch == Raised && View() == old(View()).(open := false)
      ensures old(alive) ==>
                var (got, next, _) := Scan(old(broker), old(channel).value, queues);
                match got
                case None => fetch == Absent && View() == old(View()).(broker := next)
                case Some(d) =>
                  && fetch == Got(d)
                  && View() == old(View()).(broker := next,
                                            outstanding := old(outstandingDeliveries) + 1,
                                            pending := old(pending)[d.tag := d.held])
    {
      for i := 0 to |queues|
        invariant View() == old(View()).(broker := broker)
        invariant alive || (i == 0 && broker == old(broker))
        invariant var (got, last, at) := Scan(broker, channel.value, queues[i..]);
                  Scan(old(broker), channel.value, queues) == (got, last, at + i)
      {
        ScanFrom(broker, channel.value, queues, i);
        fetch := BasicGetOne(queues[i]);
        if !fetch.Absent? {
          return;
        }
      }
      return Absent;
    }

    /** The light tier of poll_one: round robin from the cursor, which moves past the served queue. */
    method PollLightTier(queues: seq<string>, ghost order: seq<string>) returns (fetch: Fetch, ghost at: nat)
      requires channel.Some? && open
      requires |order| == |queues|
      requires forall i :: 0 <= i < |queues| ==> order[i] == queues[(rr + i) % |queues|]
      modifies this
      ensures !old(alive) ==>
                if queues == [] then fetch == Absent && View() == old(View())
                else fetch == Raised && View() == old(View()).(open := false)
      ensures old(alive) && fetch.Absent? ==>
                && Scan(old(broker), old(channel).value, order) == (None, broker, |queues|)
                && View() == old(View()).(broker := broker)
      ensures old(alive) ==> !fetch.Raised?
      ensures fetch.Got? ==>
                && at < |queues|
                && Scan(old(broker), old(channel).value, order) == (Some(fetch.delivered), broker, at)
                && rr == ((old(rr) + at) % |queues| + 1) % |queues|
                && View() == old(View()).(broker := broker,
                                          cursor := rr,
                                          outstanding := old(outstandingDeliveries) + 1,
                                          pending := old(pending)[fetch.delivered.tag := fetch.delivered.held])
    {
      var count := |queues|;
      at := count;
      for offset := 0 to count
        invariant View() == old(View()).(broker := broker)
        invariant alive || (offset == 0 && broker == old(broker))
        invariant var (got, last, k) := Scan(broker, channel.value, order[offset..]);
                  Scan(old(broker), channel.value, order) == (got, last, k + offset)
      {
        ghost var before := broker;
        var index := (rr + offset) % count;
        assert order[offset] == queues[index];
        fetch := BasicGetOne(queues[index]);
        ScanFrom(before, channel.value, order, offset);
        if fetch.Got? {
          assert Scan(before, channel.value, order[offset..]) == (Some(fetch.delivered), broker, 0);
          at := offset;
          rr := (index + 1) % count;
          return;
        }
        if fetch.Raised? {
          return;
        }
      }
      fetch := Absent;
    }

    /** poll_one. */
    method PollOne(strictQueues: seq<string>, roundRobinQueues: seq<string>) returns (fetch: Fetch)
      modifies this
      ensures (View(), fetch) == PollStep(old(View()), strictQueues, roundRobinQueues)
    {
      if channel.None? || !open {
        return Raised;
      }
      assert |strictQueues + roundRobinQueues| == |strictQueues| + |roundRobinQueues|;
      fetch := PollStrictTier(strictQueues);
      if fetch.Absent? {
        ghost var at;
        fetch, at := PollLightTier(roundRobinQueues, Rotated(roundRobinQueues, rr));
        if fetch.Got? {
          PollServesLight(old(broker), channel.value, old(rr), strictQueues, roundRobinQueues);
        }
      }
    }

    method SettleDelivery()
      modifies this`outstandingDeliveries
      ensures outstandingDeliveries == if old(outstandingDeliveries) == 0 then 0 else old(outstandingDeliveries) - 1
    {
      if outstandingDeliveries > 0 {
        outstandingDeliveries := outstandingDeliveries - 1;
      }
    }

    /** Forward a settlement to the current channel; only the bare number travels. */
    method Forward(tag: Tag, verdict: Verdict, noticed: bool) returns (raised: bool)
      requires channel.Some? && open
      modifies this
      ensures (View().(outstanding := 0, pending := map[]), raised)
           == (var (s, r) := SettleStep(old(View()), tag, verdict, noticed);
               (s.(outstanding := 0, pending := map[]), r))
      ensures outstandingDeliveries == old(outstandingDeliveries) && pending == old(pending)
    {
      misdirected := misdirected + if channel.value == tag.epoch then 0 else 1;
      if !alive {
        open := !noticed;
        return noticed;
      }
      if tag.number !in broker.unacked {
        Break();
        return false;
      }
      broker := Retire(broker, tag.number, verdict);
      sanctioned := sanctioned + if verdict.Ack? && tag in pending then [pending[tag]] else [];
      return false;
    }

    method Ack(tag: Tag, noticed: bool) returns (raised: bool)
      modifies this
      ensures (View(), raised) == SettleStep(old(View()), tag, Verdict.Ack, noticed)
    {
      SettleDelivery();
      if channel.Some? && open {
        raised := Forward(tag, Verdict.Ack, noticed);
      } else {
        raised := false;
      }
      pending := pending - {tag};
    }

    method Nack(tag: Tag, requeue: bool, noticed: bool) returns (raised: bool)
      modifies this
      ensures (View(), raised)
           == SettleStep(old(View()), tag, if requeue then Verdict.Requeue else Verdict.Reject, noticed)
    {
      SettleDelivery();
      if channel.Some? && open {
        raised := Forward(tag, if requeue then Verdict.Requeue else Verdict.Reject, noticed);
      } else {
        raised := false;
      }
      pending := pending - {tag};
    }

    method DiscardConnection()
      modifies this
      ensures View() == Discard(old(View()))
    {
      Break();
      channel, open := None, false;
      outstandingDeliveries := 0;
    }

    /** `reachable` is whether the short reconnection budget succeeds. */
    method EnsureChannel(reachable: bool) returns (ok: bool)
      modifies this
      ensures (View(), ok) == EnsureStep(old(View()), reachable)
    {
      if channel.Some? && open {
        return true;
      }
      if outstandingDeliveries > 0 {
        return false;
      }
      DiscardConnection();
      if !reachable {
        return false;
      }
      channel, nextEpoch, open, alive := Some(nextEpoch), nextEpoch + 1, true, true;
      broker := broker.(nextTag := 1);
      return true;
    }

    method Publish(queue: string, body: Body, reachable: bool, noticed: bool) returns (ok: bool)
      modifies this
      ensures (View(), ok) == PublishStep(old(View()), queue, body, reachable, noticed)
    {
      ok := EnsureChannel(reachable);
      if !ok {
        return;
      }
      if !alive {
        open := !noticed;
        return !noticed;
      }
      var waiting := if queue in broker.queues then broker.queues[queue] else [];
      broker := broker.(queues := broker.queues[queue := waiting + [body]]);
    }

    /** Ready messages in a queue, or None when the depth could not be read. */
    method GetQueueSize(queue: string, reachable: bool) returns (size: Option<nat>)
      modifies this
      ensures (View(), size.Some?) == MeasureStep(old(View()), reachable)
      ensures size.Some? ==> size.value == |Waiting(broker, queue)|
    {
      var ok := EnsureChannel(reachable);
      if !ok {
        return None;
      }
      if !alive {
        open := false;
        return None;
      }
      return Some(|Waiting(broker, queue)|);
    }

    /** Pumping the connection may notice a lost channel; it raises if the connection is gone as well. */
    method ServiceEvents(noticed: bool, connectionGone: bool) returns (raised: bool)
      modifies this
      ensures View() == Apply(old(View()), Serviced(noticed))
      ensures View() == old(View()).(open := old(open) && !(old(channel).Some? && !old(alive) && noticed))
      ensures raised <==> old(channel).Some? && old(open) && !alive && noticed && connectionGone
    {
      if channel.None? || !open {
        return false;
      }
      raised := !alive && noticed && connectionGone;
      open := alive || !noticed;
    }

    method Close()
      modifies this
      ensures View() == Apply(old(View()), Closed)
    {
      Break();
      open := false;
    }

    // ------------------------------------------------- what the broker does meanwhile

    /** The broker loses the channel and requeues what was unacked on it. */
    method Break()
      modifies this`broker, this`alive
      ensures View() == Drop(old(View()))
    {
      if alive {
        var queues := RequeueBelow(broker.queues, broker.unacked, broker.nextTag);
        broker := broker.(queues := queues, unacked := map[]);
        alive := false;
      }
    }

    method Arrive(queue: string, body: Body)
      modifies this`broker
      ensures View() == Apply(old(View()), Arrived(queue, body))
    {
      broker := Enqueue(broker, queue, body);
    }
  }

  /** One event on the object is one step of the session. */
  method Take(client: RabbitMqClient, e: Event)
    modifies client
    ensures client.View() == Apply(old(client.View()), e)
  {
    match e {
      case Polled(strict, light) => var _ := client.PollOne(strict, light);
      case Settled(tag, verdict, noticed) =>
        match verdict {
          case Ack => var _ := client.Ack(tag, noticed);
          case Requeue => var _ := client.Nack(tag, true, noticed);
          case Reject => var _ := client.Nack(tag, false, noticed);
        }
      case Published(queue, body, reachable, noticed) => var _ := client.Publish(queue, body, reachable, noticed);
      case Arrived(queue, body) => client.Arrive(queue, body);
      case Broken => client.Break();
      case Serviced(noticed) => var _ := client.ServiceEvents(noticed, false);
      case Measured(reachable) => var _ := client.GetQueueSize("", reachable);
      case Closed => client.Close();
    }
  }

  /** Any run of events on the object is a run of the session, so a disciplined one keeps the tags sound. */
  method Play(client: RabbitMqClient, events: seq<Event>)
    modifies client
    ensures client.View() == Replay(old(client.View()), events)
    ensures TagsSound(old(client.View())) && Disciplined(old(client.View()), events) ==> TagsSound(client.View())
  {
    for i := 0 to |events|
      invariant Replay(client.View(), events[i..]) == Replay(old(client.View()), events)
    {
      assert events[i..][0] == events[i] && events[i..][1..] == events[i + 1..];
      Take(client, events[i]);
    }
    ghost var start := old(client.View());
    if TagsSound(start) && Disciplined(start, events) {
      TagSafety(start, events);
    }
  }
}
