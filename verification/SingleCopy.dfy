/**
 At most one live copy per (image, band), for the keys the producer discovers.

 The promise holds for calm runs: a worker marks a message of such a key at the moment
 it receives it, batches name distinct keys, every started unit ends within the TTL,
 and no message of such a key is redelivered, retried or published by a fan-out.
 Messages of other keys, as the GRIB downloaders publish them, may do anything;
 publishes may be lost, queues purged and depths unreadable, and workers act between
 any two steps of the producer.
 */
module SingleCopy {
  import opened Common
  import opened ProgressTrackers
  import opened Pipeline

  /** Copies of an item that a worker still has to finish. */
  function Live(s: State, i: Item): nat {
    s.waiting[i] + s.running[i]
  }

  predicate Foreign(event: WorldStep, mine: set<Key>) {
    Touches(event).Some? && Touches(event).value !in mine
  }

  /** `mine` are the keys the producer discovers. */
  ghost predicate Calm(s: State, step: Step, mine: set<Key>) {
    match step
    case Producer(Discover(batch)) => Distinct(batch) && forall k :: k in batch ==> k in mine
    case Producer(_) => true
    case World(Wait(to)) =>
      forall i :: i in s.running && i.msg.key in mine && i.msg.key in s.rows ==>
          s.rows[i.msg.key].updatedAt >= to - s.ttl
    case World(event) =>
      Foreign(event, mine) || event.Take? || event.Release? || event.Ack? || event.Lose?
  }

  ghost predicate AllCalm(s: State, steps: seq<Step>, mine: set<Key>)
    requires Valid(s, steps)
    decreases |steps|
  {
    steps == [] || (Calm(s, steps[0], mine) && AllCalm(Next(s, steps[0]), steps[1..], mine))
  }

  /** No live copy of `key`. */
  ghost predicate Absent(s: State, key: Key) {
    forall i :: Live(s, i) > 0 ==> i.msg.key != key
  }

  ghost predicate OneCopyEach(s: State, mine: set<Key>) {
    && (forall i: Item :: i.msg.key in mine ==> Live(s, i) <= 1)
    && (forall i: Item, j: Item :: i.msg.key in mine && Live(s, i) > 0 && Live(s, j) > 0 && i.msg.key == j.msg.key ==>
        i == j)
  }

  ghost predicate RowsCoverCopies(s: State, mine: set<Key>) {
    && (forall i :: i in s.waiting && i.msg.key in mine ==>
          i.queue < 3 && i.msg.key in s.rows && s.rows[i.msg.key].status.InProgress?)
    && (forall i :: i in s.running && i.msg.key in mine ==>
          && i.msg.key in s.rows
          && s.rows[i.msg.key].status.Processing?
          && s.rows[i.msg.key].updatedAt >= s.now - s.ttl)
  }

  ghost predicate ProducerCalm(s: State, mine: set<Key>) {
    match s.phase
    case Idle => true
    case Gate(read) => read <= 3 && forall i :: i in s.waiting && i.msg.key in mine ==> i.queue >= read
    case Publishing(rest) => Distinct(rest) && forall k :: k in rest ==> k in mine && Absent(s, k)
    case Marked(key, _, rest) =>
      && Distinct(rest) && key !in rest && key in mine && Absent(s, key)
      && (forall k :: k in rest ==> k in mine && Absent(s, k))
      && key in s.rows && s.rows[key].status.InProgress?
  }

  ghost predicate CalmSound(s: State, mine: set<Key>) {
    && (forall i :: i in s.fetched ==> i.msg.key !in mine)
    && OneCopyEach(s, mine) && RowsCoverCopies(s, mine) && ProducerCalm(s, mine)
  }

  lemma FewerCopies(s: State, t: State, mine: set<Key>)
    requires OneCopyEach(s, mine) && forall i: Item :: i.msg.key in mine ==> Live(t, i) <= Live(s, i)
    ensures OneCopyEach(t, mine) && forall k :: k in mine && Absent(s, k) ==> Absent(t, k)
  {
    forall k | k in mine && Absent(s, k) ensures Absent(t, k) {
      forall i | Live(t, i) > 0 ensures i.msg.key != k {
        assert i.msg.key == k ==> Live(s, i) > 0;
      }
    }
  }

  // -------------------------------------------------------------- producer steps

  lemma PublishIsCalm(s: State, queue: nat, mine: set<Key>)
    requires CalmSound(s, mine) && MayAct(s, Publish(queue))
    ensures CalmSound(Acted(s, Publish(queue)), mine)
  {
    var t := Acted(s, Publish(queue));
    var item := Item(queue, Message(s.phase.id, s.phase.key));
    assert forall i :: Live(t, i) == Live(s, i) + if i == item then 1 else 0;
    assert Live(s, item) == 0;
    forall k | k in t.phase.rest ensures Absent(t, k) {
      assert Absent(s, k);
    }
  }

  lemma AbsentElsewhere(s: State, key: Key)
    requires Absent(s, key)
    ensures forall i :: i in s.waiting || i in s.running ==> i.msg.key != key
  {
    forall i | i in s.waiting || i in s.running ensures i.msg.key != key {
      assert Live(s, i) > 0;
    }
  }

  lemma MarkIsCalm(s: State, mine: set<Key>)
    requires CalmSound(s, mine) && MayAct(s, Mark)
    ensures CalmSound(Acted(s, Mark), mine)
  {
    var t := Acted(s, Mark);
    var key := s.phase.rest[0];
    assert key in s.phase.rest;
    FewerCopies(s, t, mine);
    assert RowsCoverCopies(t, mine) by { AbsentElsewhere(s, key); }
    assert ProducerCalm(t, mine) by {
      forall k | k in t.phase.rest ensures k in mine && Absent(t, k) && k != key {
        var i :| 0 <= i < |t.phase.rest| && t.phase.rest[i] == k;
        assert s.phase.rest[i + 1] == k;
      }
    }
  }

  /** With every depth read as zero and nothing put back, no discovered key is waiting at all. */
  lemma ReclaimIsCalm(s: State, mine: set<Key>)
    requires CalmSound(s, mine) && MayAct(s, Reclaim)
    ensures CalmSound(Acted(s, Reclaim), mine)
  {
    FewerCopies(s, Acted(s, Reclaim), mine);
    assert forall i: Item :: i.msg.key in mine ==> i !in s.waiting;
  }

  lemma DiscoverIsCalm(s: State, batch: seq<Key>, mine: set<Key>)
    requires CalmSound(s, mine) && MayAct(s, Discover(batch)) && Calm(s, Producer(Discover(batch)), mine)
    ensures CalmSound(Acted(s, Discover(batch)), mine)
  {
    var t := Acted(s, Discover(batch));
    FewerCopies(s, t, mine);
    forall k | k in batch ensures Absent(t, k) {
      forall i | Live(t, i) > 0 ensures i.msg.key != k {
        assert i in s.waiting || i in s.running;
      }
    }
  }

  /** Running units are younger than the TTL and waiting ones are IN_PROGRESS, so cleanup spares both. */
  lemma CleanIsCalm(s: State, mine: set<Key>)
    requires CalmSound(s, mine) && MayAct(s, Clean)
    ensures CalmSound(Acted(s, Clean), mine)
  {
    FewerCopies(s, Acted(s, Clean), mine);
  }

  lemma PhaseIsCalm(s: State, act: ProducerStep, mine: set<Key>)
    requires CalmSound(s, mine) && MayAct(s, act)
    requires act.OpenGate? || act.ReadDepth? || act.ReadFails? || act.PublishFails? || act.EndBatch?
    ensures CalmSound(Acted(s, act), mine)
  {
    var t := Acted(s, act);
    FewerCopies(s, t, mine);
    match act
    case OpenGate =>
    case ReadDepth => assert t.rows == s.rows && t.waiting == s.waiting && t.running == s.running;
    case ReadFails =>
    case PublishFails =>
    case EndBatch =>
  }

  lemma ActedIsCalm(s: State, act: ProducerStep, mine: set<Key>)
    requires CalmSound(s, mine) && MayAct(s, act) && Calm(s, Producer(act), mine)
    ensures CalmSound(Acted(s, act), mine)
  {
    match act
    case Discover(batch) => DiscoverIsCalm(s, batch, mine);
    case Mark => MarkIsCalm(s, mine);
    case Publish(queue) => PublishIsCalm(s, queue, mine);
    case Clean => CleanIsCalm(s, mine);
    case Reclaim => ReclaimIsCalm(s, mine);
    case _ => PhaseIsCalm(s, act, mine);
  }

  // --------------------------------------------------------- events of other keys

  /** The two states agree on everything about the discovered keys. */
  ghost predicate SameForMine(s: State, t: State, mine: set<Key>) {
    && t.now == s.now && t.ttl == s.ttl && t.phase == s.phase
    && (forall i: Item :: i.msg.key in mine ==>
          t.waiting[i] == s.waiting[i] && t.running[i] == s.running[i] && t.fetched[i] == s.fetched[i])
    && (forall k :: k in mine ==> (k in t.rows <==> k in s.rows) && (k in s.rows ==> t.rows[k] == s.rows[k]))
  }

  lemma SameForMineCompose(s: State, t: State, u: State, mine: set<Key>)
    requires SameForMine(s, t, mine) && SameForMine(t, u, mine)
    ensures SameForMine(s, u, mine)
  {
  }

  lemma LetGoForeign(s: State, item: Item, hand: Hand, mine: set<Key>)
    requires item.msg.key !in mine
    ensures SameForMine(s, LetGo(s, item, hand), mine)
  {
    match hand
    case Unmarked =>
    case Working =>
    case Done =>
  }

  lemma PutBackForeign(s: State, item: Item, hand: Hand, mine: set<Key>)
    requires item.msg.key !in mine
    ensures SameForMine(s, PutBack(s, item, hand), mine)
  {
  }

  lemma BegunForeign(s: State, item: Item, mine: set<Key>)
    requires item.msg.key !in mine
    ensures SameForMine(s, Begun(s, item), mine)
  {
  }

  lemma StartForeign(s: State, event: WorldStep, mine: set<Key>)
    requires MayHappen(s, event) && (event.Start? || event.Take?) && event.item.msg.key !in mine
    ensures SameForMine(s, Happened(s, event), mine)
  {
    var item := event.item;
    var taken := if event.Start? then s.(fetched := s.fetched - multiset{item})
                 else s.(waiting := s.waiting - multiset{item});
    BegunForeign(taken, item, mine);
    SameForMineCompose(s, taken, Happened(s, event), mine);
  }

  /** What happens to messages of other keys does not show in the discovered ones. */
  lemma ForeignFrame(s: State, event: WorldStep, mine: set<Key>)
    requires MayHappen(s, event) && Foreign(event, mine)
    ensures SameForMine(s, Happened(s, event), mine)
  {
    match event
    case Fetch(_) =>
    case Start(_) => StartForeign(s, event, mine);
    case Take(_) => StartForeign(s, event, mine);
    case Release(_) =>
    case Ack(item, hand) => LetGoForeign(s, item, hand, mine);
    case Retry(item, hand) => PutBackForeign(s, item, hand, mine);
    case Bounce(item, hand) =>
      PutBackForeign(s, item, hand, mine);
      LetGoForeign(PutBack(s, item, hand), item, hand, mine);
      SameForMineCompose(s, PutBack(s, item, hand), Happened(s, event), mine);
    case Lose(_) =>
    case FanOut(_, _) =>
  }

  lemma SameForMineIsCalm(s: State, t: State, mine: set<Key>)
    requires CalmSound(s, mine) && SameForMine(s, t, mine)
    ensures CalmSound(t, mine)
  {
    FewerCopies(s, t, mine);
    assert forall i: Item :: i.msg.key in mine && i in t.fetched ==> i in s.fetched;
    assert forall i: Item :: i.msg.key in mine && i in t.waiting ==> i in s.waiting;
    assert forall i: Item :: i.msg.key in mine && i in t.running ==> i in s.running;
  }

  // ------------------------------------------------------- events of discovered keys

  lemma ProducerCalmAcross(s: State, t: State, mine: set<Key>)
    requires ProducerCalm(s, mine) && t.phase == s.phase
    requires forall k :: k in mine && Absent(s, k) ==> Absent(t, k)
    requires forall i :: i in t.waiting ==> i in s.waiting
    requires forall k :: Absent(s, k) && k in s.rows ==> k in t.rows && t.rows[k] == s.rows[k]
    ensures ProducerCalm(t, mine)
  {
  }

  /** A waiting or running item is the only one with its key. */
  lemma AloneWithKey(s: State, item: Item, mine: set<Key>)
    requires OneCopyEach(s, mine) && item.msg.key in mine && (item in s.waiting || item in s.running)
    ensures OnlyWithKey(s, item)
  {
    assert Live(s, item) == 1;
    forall i | (i in s.waiting || i in s.running) && i.msg.key == item.msg.key ensures i == item {
      assert Live(s, i) > 0 && Live(s, item) > 0;
    }
  }

  ghost predicate OnlyWithKey(s: State, item: Item) {
    && s.waiting[item] + s.running[item] == 1
    && (forall i :: i in s.waiting && i.msg.key == item.msg.key ==> i == item)
    && (forall i :: i in s.running && i.msg.key == item.msg.key ==> i == item)
  }

  lemma TakeCovers(s: State, item: Item, mine: set<Key>)
    requires RowsCoverCopies(s, mine) && MayHappen(s, Take(item)) && OnlyWithKey(s, item) && s.ttl >= 0
    requires item.msg.key in mine
    ensures RowsCoverCopies(Happened(s, Take(item)), mine)
  {
    var t := Happened(s, Take(item));
    forall i | i in t.waiting ensures i in s.waiting && i.msg.key != item.msg.key {}
    forall i | i in t.running ensures i == item || (i in s.running && i.msg.key != item.msg.key) {}
  }

  lemma ReleaseCovers(s: State, item: Item, mine: set<Key>)
    requires RowsCoverCopies(s, mine) && MayHappen(s, Release(item)) && OnlyWithKey(s, item)
    ensures RowsCoverCopies(Happened(s, Release(item)), mine)
  {
    var t := Happened(s, Release(item));
    forall i | i in t.waiting ensures i in s.waiting && i.msg.key != item.msg.key {}
    forall i | i in t.running ensures i in s.running && i.msg.key != item.msg.key {}
  }

  /** Taking an item keeps every count and every row of another key. */
  lemma TakeFrame(s: State, item: Item)
    requires MayHappen(s, Take(item))
    ensures
      var t := Happened(s, Take(item));
      && (forall i :: Live(t, i) == Live(s, i))
      && (forall i :: i in t.waiting ==> i in s.waiting)
      && (forall k :: k in s.rows && k != item.msg.key ==> k in t.rows && t.rows[k] == s.rows[k])
  {
  }

  lemma TakeIsCalm(s: State, item: Item, mine: set<Key>)
    requires CalmSound(s, mine) && MayHappen(s, Take(item)) && s.ttl >= 0 && item.msg.key in mine
    ensures CalmSound(Happened(s, Take(item)), mine)
  {
    var t := Happened(s, Take(item));
    TakeFrame(s, item);
    AloneWithKey(s, item, mine);
    FewerCopies(s, t, mine);
    TakeCovers(s, item, mine);
    assert ProducerCalm(t, mine) by {
      forall k | Absent(s, k) && k in s.rows ensures k in t.rows && t.rows[k] == s.rows[k] {
        AbsentElsewhere(s, k);
      }
      ProducerCalmAcross(s, t, mine);
    }
  }

  lemma ReleaseIsCalm(s: State, item: Item, mine: set<Key>)
    requires CalmSound(s, mine) && MayHappen(s, Release(item)) && item.msg.key in mine
    ensures CalmSound(Happened(s, Release(item)), mine)
  {
    var t := Happened(s, Release(item));
    AloneWithKey(s, item, mine);
    FewerCopies(s, t, mine);
    ReleaseCovers(s, item, mine);
    assert ProducerCalm(t, mine) by {
      forall k | Absent(s, k) && k in s.rows ensures k in t.rows && t.rows[k] == s.rows[k] {
        AbsentElsewhere(s, k);
      }
      ProducerCalmAcross(s, t, mine);
    }
  }

  lemma GoneIsCalm(s: State, event: WorldStep, mine: set<Key>)
    requires CalmSound(s, mine) && MayHappen(s, event) && (event.Ack? || event.Lose?)
    ensures CalmSound(Happened(s, event), mine)
  {
    var t := Happened(s, event);
    if event.Ack? {
      HandFrame(s, event.item, event.hand);
    }
    FewerCopies(s, t, mine);
    ProducerCalmAcross(s, t, mine);
  }

  lemma WaitIsCalm(s: State, to: int, mine: set<Key>)
    requires CalmSound(s, mine) && MayHappen(s, Wait(to)) && Calm(s, World(Wait(to)), mine)
    ensures CalmSound(Happened(s, Wait(to)), mine)
  {
    FewerCopies(s, Happened(s, Wait(to)), mine);
    ProducerCalmAcross(s, Happened(s, Wait(to)), mine);
  }

  lemma HappenedIsCalm(s: State, event: WorldStep, mine: set<Key>)
    requires CalmSound(s, mine) && MayHappen(s, event) && Calm(s, World(event), mine) && s.ttl >= 0
    ensures CalmSound(Happened(s, event), mine)
  {
    if Foreign(event, mine) {
      ForeignFrame(s, event, mine);
      SameForMineIsCalm(s, Happened(s, event), mine);
    } else {
      match event
      case Take(item) => TakeIsCalm(s, item, mine);
      case Release(item) => ReleaseIsCalm(s, item, mine);
      case Ack(_, _) => GoneIsCalm(s, event, mine);
      case Lose(_) => GoneIsCalm(s, event, mine);
      case Wait(to) => WaitIsCalm(s, to, mine);
    }
  }

  lemma HappenedKeepsTtl(s: State, event: WorldStep)
    requires MayHappen(s, event)
    ensures Happened(s, event).ttl == s.ttl
  {
    if event.Ack? || event.Retry? || event.Bounce? {
      HandFrame(s, event.item, event.hand);
    }
  }

  // ------------------------------------------------------------------------- runs

  lemma StepIsCalm(s: State, step: Step, mine: set<Key>)
    requires CalmSound(s, mine) && s.ttl >= 0 && Enabled(s, step) && Calm(s, step, mine)
    ensures CalmSound(Next(s, step), mine) && Next(s, step).ttl == s.ttl
  {
    match step
    case Producer(act) => ActedIsCalm(s, act, mine);
    case World(event) =>
      HappenedIsCalm(s, event, mine);
      HappenedKeepsTtl(s, event);
  }

  /** In every state of every calm run, each key the producer discovers has at most one live copy. */
  lemma {:induction false} CalmRunsKeepOneCopy(s: State, steps: seq<Step>, mine: set<Key>)
    requires CalmSound(s, mine) && s.ttl >= 0 && Valid(s, steps) && AllCalm(s, steps, mine)
    ensures CalmSound(End(s, steps), mine) && OneCopyEach(End(s, steps), mine)
    decreases |steps|
  {
    if steps != [] {
      StepIsCalm(s, steps[0], mine);
      CalmRunsKeepOneCopy(Next(s, steps[0]), steps[1..], mine);
    }
  }

  lemma InitialIsCalm(now: int, ttl: int, mine: set<Key>)
    ensures CalmSound(Initial(now, ttl), mine)
  {
  }

  // ------------------------------------------------------ what calmness excludes

  /** A unit that outlasts the TTL is discovered and published again while its worker still runs it. */
  lemma OverlongUnitDoubles(key: Key, ttl: nat) returns (steps: seq<Step>)
    ensures Valid(Initial(0, ttl), steps) && !OneCopyEach(End(Initial(0, ttl), steps), {key})
  {
    var start := Initial(0, ttl);
    var s;
    steps, s := StaleWorker(key, ttl);
    RunSnoc(start, steps, Producer(Discover([key])));
    steps := steps + [Producer(Discover([key]))];
    RunSnoc(start, steps, Producer(Mark));
    steps := steps + [Producer(Mark)];
    RunSnoc(start, steps, Producer(Publish(0)));
    steps := steps + [Producer(Publish(0))];
    TwoItems(End(start, steps), Item(0, Message(0, key)), Item(0, Message(1, key)));
  }

  lemma TwoItems(s: State, first: Item, second: Item)
    requires first != second && first.msg.key == second.msg.key && first in s.running && second in s.waiting
    ensures !OneCopyEach(s, {first.msg.key})
  {
    assert Live(s, first) > 0 && Live(s, second) > 0;
  }

  /** A retry is published before the delivery it replaces is acked. */
  lemma RetryDoubles(key: Key, ttl: nat) returns (steps: seq<Step>)
    ensures Valid(Initial(0, ttl), steps) && !OneCopyEach(End(Initial(0, ttl), steps), {key})
  {
    var start := Initial(0, ttl);
    var item := Item(0, Message(0, key));
    var s;
    steps, s := OnePublished(key, ttl);
    RunSnoc(start, steps, World(Take(item)));
    steps := steps + [World(Take(item))];
    RunSnoc(start, steps, World(Retry(item, Working)));
    steps := steps + [World(Retry(item, Working))];
    assert Live(End(start, steps), item) == 2;
  }
}
