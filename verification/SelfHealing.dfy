/**
 Orphaned rows do not last, and the producer's own sequential code
 (discover_and_publish and the publish loop of _discover_source in
 src/producer/image_discovery_producer.py).
 */
module SelfHealing {
  import opened Common
  import opened ProgressTrackers
  import opened Pipeline
  import opened SingleCopy

  // -------------------------------------------------------- copies are conserved

  function CopiesOf(s: State, i: Item): nat {
    s.waiting[i] + s.fetched[i] + s.running[i] + s.finished[i]
  }

  /**
   What a step adds to the copies of an item: publications, retries and fan-outs make one,
   acks and purges destroy one, and everything else only moves copies.
   */
  function Change(s: State, step: Step, i: Item): int
    requires Enabled(s, step)
  {
    match step
    case Producer(Publish(queue)) => if i == Item(queue, Message(s.phase.id, s.phase.key)) then 1 else 0
    case World(Retry(item, _)) => if i == item then 1 else 0
    case World(FanOut(queue, key)) => if i == Item(queue, Message(s.nextId, key)) then 1 else 0
    case World(Ack(item, _)) => if i == item then -1 else 0
    case World(Lose(item)) => if i == item then -1 else 0
    case _ => 0
  }

  lemma StepChanges(s: State, step: Step, i: Item)
    requires Enabled(s, step)
    ensures CopiesOf(Next(s, step), i) == CopiesOf(s, i) + Change(s, step, i)
  {
    hide CopiesOf, Acted, Happened;
    match step
    case Producer(act) => ActChanges(s, act, i);
    case World(event) => EventChanges(s, event, i);
  }

  lemma EventChanges(s: State, event: WorldStep, i: Item)
    requires MayHappen(s, event)
    ensures CopiesOf(Happened(s, event), i) == CopiesOf(s, i) + Change(s, World(event), i)
  {
    hide CopiesOf, LetGo, PutBack, Begun;
    if event.Ack? || event.Retry? || event.Bounce? {
      HandChanges(s, event.item, event.hand, i);
    } else {
      MoveChanges(s, event, i);
    }
  }

  lemma ActChanges(s: State, act: ProducerStep, i: Item)
    requires MayAct(s, act)
    ensures CopiesOf(Acted(s, act), i) == CopiesOf(s, i) + Change(s, Producer(act), i)
  {
  }

  lemma MoveChanges(s: State, event: WorldStep, i: Item)
    requires MayHappen(s, event) && !event.Ack? && !event.Retry? && !event.Bounce?
    ensures CopiesOf(Happened(s, event), i) == CopiesOf(s, i) + Change(s, World(event), i)
  {
  }

  lemma HandChanges(s: State, item: Item, hand: Hand, i: Item)
    requires item in Holding(s, hand)
    ensures CopiesOf(LetGo(s, item, hand), i) == CopiesOf(s, i) - if i == item then 1 else 0
    ensures CopiesOf(PutBack(s, item, hand), i) == CopiesOf(s, i) + if i == item then 1 else 0
    ensures CopiesOf(LetGo(PutBack(s, item, hand), item, hand), i) == CopiesOf(s, i)
  {
    match hand
    case Unmarked =>
    case Working =>
    case Done =>
  }

  function Changes(s: State, steps: seq<Step>, i: Item): int
    requires Valid(s, steps)
    decreases |steps|
  {
    if steps == [] then 0 else Change(s, steps[0], i) + Changes(Next(s, steps[0]), steps[1..], i)
  }

  /** In every run the copies of every item, wherever they are, add up. */
  lemma {:induction false} CopiesAddUp(s: State, steps: seq<Step>, i: Item)
    requires Valid(s, steps)
    ensures CopiesOf(End(s, steps), i) == CopiesOf(s, i) + Changes(s, steps, i)
    decreases |steps|
  {
    if steps != [] {
      StepChanges(s, steps[0], i);
      CopiesAddUp(Next(s, steps[0]), steps[1..], i);
    }
  }

  // --------------------------------------------------------------- orphans heal

  /** The producer's current batch still has a message for the key to publish. */
  predicate Expected(s: State, key: Key) {
    match s.phase
    case Idle => false
    case Gate(_) => false
    case Publishing(rest) => key in rest
    case Marked(next, _, rest) => key == next || key in rest
  }

  /** The key is tracked but no copy of a message for it is left, nor about to appear. */
  ghost predicate Orphan(s: State, key: Key) {
    && key in s.rows
    && (forall i :: Everywhere(s, i) ==> i.msg.key != key)
    && !Expected(s, key)
  }

  /** This copy is the only one of its key, wherever copies may be. */
  ghost predicate LastCopy(s: State, item: Item) {
    && CopiesOf(s, item) == 1
    && (forall i :: Everywhere(s, i) && i.msg.key == item.msg.key ==> i == item)
  }

  /**
   How orphans arise: a message purged from its queue, or acked from a worker's hand,
   leaves an orphan exactly if it was the last copy of a key that still has its row and
   that the producer is not about to publish.
   */
  lemma LastCopyGoneOrphans(s: State, event: WorldStep)
    requires MayHappen(s, event) && (event.Lose? || event.Ack?)
    ensures
      var key := event.item.msg.key;
      Orphan(Happened(s, event), key) <==> key in s.rows && LastCopy(s, event.item) && !Expected(s, key)
  {
    if event.Ack? {
      LetGoCount(s, event.item, event.hand);
      HandFrame(s, event.item, event.hand);
    }
    OneCopyLess(s, Happened(s, event), event.item);
  }

  ghost predicate OneFewer(s: State, t: State, item: Item) {
    forall i :: CopiesOf(s, i) == CopiesOf(t, i) + if i == item then 1 else 0
  }

  lemma LetGoCount(s: State, item: Item, hand: Hand)
    requires item in Holding(s, hand)
    ensures OneFewer(s, LetGo(s, item, hand), item)
  {
    forall i ensures CopiesOf(s, i) == CopiesOf(LetGo(s, item, hand), i) + if i == item then 1 else 0 {
      HandChanges(s, item, hand, i);
    }
  }

  lemma OneCopyLess(s: State, t: State, item: Item)
    requires t.rows == s.rows && t.phase == s.phase && OneFewer(s, t, item)
    ensures Orphan(t, item.msg.key) <==> item.msg.key in s.rows && LastCopy(s, item) && !Expected(s, item.msg.key)
  {
    assert CopiesOf(s, item) == CopiesOf(t, item) + 1;
    assert forall i :: Everywhere(t, i) <==> CopiesOf(t, i) > 0;
    if LastCopy(s, item) {
      forall i | Everywhere(t, i) ensures i.msg.key != item.msg.key {
        assert CopiesOf(s, i) > 0 && Everywhere(s, i);
      }
    }
    if Orphan(t, item.msg.key) {
      assert !Everywhere(t, item);
      forall i | Everywhere(s, i) && i.msg.key == item.msg.key ensures i == item {
        assert !Everywhere(t, i) && CopiesOf(s, i) > 0;
      }
    }
  }

  /** The maintenance step that reclaims a row of this status. */
  function Cure(row: Row): ProducerStep {
    if row.status.Processing? then Clean else Reclaim
  }

  predicate FansOutTo(step: Step, key: Key) {
    step.World? && step.event.FanOut? && step.event.key == key
  }

  lemma ActedLeavesOrphan(s: State, act: ProducerStep, key: Key)
    requires Orphan(s, key) && MayAct(s, act)
    ensures
      var t := Acted(s, act);
      && (key in t.rows ==> Orphan(t, key) && t.rows[key] == s.rows[key])
      && (act == Cure(s.rows[key]) && s.now - s.ttl > s.rows[key].updatedAt ==> key !in t.rows)
  {
    var t := Acted(s, act);
    if act.Mark? {
      assert s.phase.rest[0] in s.phase.rest;
    }
    assert t.fetched == s.fetched && t.running == s.running && t.finished == s.finished;
    assert forall i :: i in t.waiting ==> i in s.waiting || (act.Publish? && i.msg.key == s.phase.key);
  }

  lemma HappenedLeavesOrphan(s: State, event: WorldStep, key: Key)
    requires Orphan(s, key) && MayHappen(s, event) && !FansOutTo(World(event), key)
    ensures Orphan(Happened(s, event), key) && Happened(s, event).rows[key] == s.rows[key]
  {
    assert Touches(event) != Some(key) by {
      match event
      case Wait(_) =>
      case FanOut(_, _) =>
      case _ => assert Everywhere(s, event.item);
    }
    OtherRowsStay(s, event, key);
    HappenedFrame(s, event);
    if !event.FanOut? {
      ItemsMove(s, event);
    }
  }

  /** The run takes the maintenance step for `row` at a moment when it is past the TTL. */
  ghost predicate Treats(s: State, steps: seq<Step>, row: Row)
    requires Valid(s, steps)
    decreases |steps|
  {
    steps != []
    && (|| (steps[0] == Producer(Cure(row)) && s.now - s.ttl > row.updatedAt)
        || Treats(Next(s, steps[0]), steps[1..], row))
  }

  /** At some point of the run the key is untracked, so the next discovery may emit it. */
  ghost predicate Rediscoverable(s: State, steps: seq<Step>, key: Key)
    requires Valid(s, steps)
    decreases |steps|
  {
    key !in s.rows || (steps != [] && Rediscoverable(Next(s, steps[0]), steps[1..], key))
  }

  /**
   Self-healing: in every run, whatever else happens, an orphaned key becomes
   untracked once a maintenance step for its status runs past the TTL.
   */
  lemma {:induction false} OrphansHeal(s: State, steps: seq<Step>, key: Key)
    requires Valid(s, steps) && Orphan(s, key)
    requires forall k :: 0 <= k < |steps| ==> !FansOutTo(steps[k], key)
    requires Treats(s, steps, s.rows[key])
    ensures Rediscoverable(s, steps, key)
    decreases |steps|
  {
    match steps[0] {
      case Producer(act) => ActedLeavesOrphan(s, act, key);
      case World(event) => HappenedLeavesOrphan(s, event, key);
    }
    var t := Next(s, steps[0]);
    if key in t.rows {
      OrphansHeal(t, steps[1..], key);
    } else {
      assert Rediscoverable(t, steps[1..], key);
    }
  }

  // -------------------------------------------------------------- a failed publish

  /** The keys a batch has still to mark are distinct and untracked. */
  ghost predicate BatchSound(s: State) {
    match s.phase
    case Idle => true
    case Gate(_) => true
    case Publishing(rest) => Distinct(rest) && forall k :: k in rest ==> k !in s.rows
    case Marked(key, _, rest) => Distinct(rest) && key !in rest && forall k :: k in rest ==> k !in s.rows
  }

  lemma StepKeepsBatchSound(s: State, step: Step)
    requires BatchSound(s) && Enabled(s, step) && DistinctBatch(step)
    ensures BatchSound(Next(s, step))
  {
    match step
    case World(event) => HappenedFrame(s, event);
    case Producer(act) =>
      if act.Mark? {
        assert s.phase.rest[0] in s.phase.rest;
      }
  }

  lemma {:induction false} RunsAreBatchSound(s: State, steps: seq<Step>)
    requires BatchSound(s) && Valid(s, steps) && DistinctBatches(steps)
    ensures BatchSound(End(s, steps))
    decreases |steps|
  {
    if steps != [] {
      assert DistinctBatch(steps[0]);
      assert forall i :: 0 <= i < |steps[1..]| ==> steps[1..][i] == steps[i + 1];
      StepKeepsBatchSound(s, steps[0]);
      RunsAreBatchSound(Next(s, steps[0]), steps[1..]);
    }
  }

  /**
   Whenever a publish fails in a run whose batches are distinct, the rest of the batch can
   be discovered again at once.  The failed key can be only if an older message of it has
   released its row meanwhile, and it is orphaned exactly if its row is there and no older
   copy of it is left.
   */
  lemma FailedPublishOrphans(now: int, ttl: int, steps: seq<Step>)
    requires Valid(Initial(now, ttl), steps) && DistinctBatches(steps)
    requires MayAct(End(Initial(now, ttl), steps), PublishFails)
    ensures
      var s := End(Initial(now, ttl), steps);
      var t := Acted(s, PublishFails);
      && MayAct(t, Discover(s.phase.rest))
      && (MayAct(t, Discover([s.phase.key])) <==> s.phase.key !in s.rows)
      && (Orphan(t, s.phase.key)
          <==> s.phase.key in s.rows && forall i :: Everywhere(s, i) ==> i.msg.key != s.phase.key)
  {
    RunsAreBatchSound(Initial(now, ttl), steps);
    var s := End(Initial(now, ttl), steps);
    var t := Acted(s, PublishFails);
    assert s.phase.key in [s.phase.key];
    assert forall i :: Everywhere(t, i) <==> Everywhere(s, i);
  }

  /** The run marks the key. */
  ghost predicate Marks(s: State, steps: seq<Step>, key: Key)
    requires Valid(s, steps)
    decreases |steps|
  {
    steps != []
    && ((steps[0] == Producer(Mark) && s.phase.rest[0] == key) || Marks(Next(s, steps[0]), steps[1..], key))
  }

  /** Only a mark makes a key tracked. */
  lemma {:induction false} UntrackedUntilMarked(s: State, steps: seq<Step>, key: Key)
    requires Valid(s, steps) && key !in s.rows && !Marks(s, steps, key)
    ensures key !in End(s, steps).rows
    decreases |steps|
  {
    if steps != [] {
      if steps[0].World? {
        HappenedFrame(s, steps[0].event);
      }
      UntrackedUntilMarked(Next(s, steps[0]), steps[1..], key);
    }
  }

  /**
   So the rest of a failed batch heals by itself: whatever workers, broker and producer do
   in between, a later discovery may emit it until its keys are marked again.
   */
  lemma FailedBatchHeals(now: int, ttl: int, steps: seq<Step>, later: seq<Step>)
    requires Valid(Initial(now, ttl), steps) && DistinctBatches(steps)
    requires MayAct(End(Initial(now, ttl), steps), PublishFails)
    requires
      var s := End(Initial(now, ttl), steps);
      var t := Acted(s, PublishFails);
      Valid(t, later) && End(t, later).phase.Idle? && forall k :: k in s.phase.rest ==> !Marks(t, later, k)
    ensures
      var s := End(Initial(now, ttl), steps);
      MayAct(End(Acted(s, PublishFails), later), Discover(s.phase.rest))
  {
    RunsAreBatchSound(Initial(now, ttl), steps);
    var s := End(Initial(now, ttl), steps);
    var t := Acted(s, PublishFails);
    forall k | k in s.phase.rest ensures k !in End(t, later).rows {
      UntrackedUntilMarked(t, later, k);
    }
  }

  /** In a calm run the failed key is always blocked, and orphaned once its older deliveries are acked. */
  lemma CalmFailedPublishBlocks(now: int, ttl: nat, steps: seq<Step>, mine: set<Key>)
    requires Valid(Initial(now, ttl), steps) && AllCalm(Initial(now, ttl), steps, mine)
    requires MayAct(End(Initial(now, ttl), steps), PublishFails)
    ensures BlocksFailedKey(End(Initial(now, ttl), steps))
  {
    InitialIsCalm(now, ttl, mine);
    CalmRunsKeepOneCopy(Initial(now, ttl), steps, mine);
    CalmStateBlocks(End(Initial(now, ttl), steps), mine);
  }

  /** After a failed publish the key stays tracked, as an orphan unless a released delivery of it is not acked yet. */
  ghost predicate BlocksFailedKey(s: State)
    requires MayAct(s, PublishFails)
  {
    var t := Acted(s, PublishFails);
    && !MayAct(t, Discover([s.phase.key])) && t.rows[s.phase.key].status.InProgress?
    && (Orphan(t, s.phase.key) <==> forall i :: i in s.finished ==> i.msg.key != s.phase.key)
  }

  lemma CalmStateBlocks(s: State, mine: set<Key>)
    requires CalmSound(s, mine) && MayAct(s, PublishFails)
    ensures BlocksFailedKey(s)
  {
    AbsentElsewhere(s, s.phase.key);
    assert s.phase.key in [s.phase.key];
  }

  /** A run in which the failed key is not blocked: its first message outlasted the TTL and releases the new row. */
  lemma OlderMessageReleases(key: Key, ttl: nat) returns (steps: seq<Step>)
    ensures
      var start := Initial(0, ttl);
      && Valid(start, steps) && DistinctBatches(steps)
      && MayAct(End(start, steps), PublishFails)
      && MayAct(Acted(End(start, steps), PublishFails), Discover([End(start, steps).phase.key]))
  {
    var start := Initial(0, ttl);
    var item := Item(0, Message(0, key));
    var s;
    steps, s := StaleWorker(key, ttl);
    RunSnoc(start, steps, Producer(Discover([key])));
    steps := steps + [Producer(Discover([key]))];
    RunSnoc(start, steps, Producer(Mark));
    steps := steps + [Producer(Mark)];
    RunSnoc(start, steps, World(Release(item)));
    steps := steps + [World(Release(item))];
    assert End(start, steps).rows == map[];
  }

  // ------------------------------------------------------- the producer's own code

  /** Rows after marking `keys` in order. */
  function AllQueued(rows: Rows, keys: seq<Key>, now: int): Rows
    decreases |keys|
  {
    if keys == [] then rows else Queued(AllQueued(rows, keys[..|keys| - 1], now), keys[|keys| - 1], now)
  }

  function Keys(images: seq<string>, band: string): seq<Key> {
    seq(|images|, i requires 0 <= i < |images| => Key(images[i], band))
  }

  /** Exactly the batch's keys are rewritten. */
  lemma {:induction false} AllQueuedAt(rows: Rows, keys: seq<Key>, now: int, key: Key)
    ensures
      var after := AllQueued(rows, keys, now);
      && (key in keys ==> key in after && after[key] == Row(InProgress, now, now))
      && (key !in keys ==> (key in after <==> key in rows) && (key in rows ==> after[key] == rows[key]))
    decreases |keys|
  {
    if keys != [] {
      var n := |keys| - 1;
      assert keys == keys[..n] + [keys[n]];
      AllQueuedAt(rows, keys[..n], now, key);
    }
  }

  class ImageDiscoveryProducer {
    const tracker: ProgressTracker
    var sent: seq<Key>

    constructor (tracker: ProgressTracker)
      ensures this.tracker == tracker && sent == []
    {
      this.tracker := tracker;
      sent := [];
    }

    /** The maintenance that opens a tick; a depth that cannot be read counts as not empty. */
    method Maintain(now: int, normal: Option<nat>, radarLight: Option<nat>, wrfLight: Option<nat>)
      modifies tracker
      ensures tracker.rows == Maintained(old(tracker.rows), now, tracker.ttl,
                                         normal == Some(0) && radarLight == Some(0) && wrfLight == Some(0))
    {
      tracker.CleanupStale(now);
      if normal == Some(0) && radarLight == Some(0) && wrfLight == Some(0) {
        var _ := tracker.ReclaimOrphanInProgress(now, tracker.ttl);
      }
    }

    /**
     Mark each image, then publish it; the `failAt`-th publish raises.  What was sent is
     a prefix of the batch, and the table holds that prefix plus the one image whose
     publish failed.
     */
    method PublishBatch(images: seq<string>, band: string, now: int, failAt: nat)
      returns (published: nat, aborted: bool)
      modifies this`sent, tracker
      ensures aborted <==> failAt < |images|
      ensures published == if aborted then failAt else |images|
      ensures sent == old(sent) + Keys(images, band)[..published]
      ensures tracker.rows
           == AllQueued(old(tracker.rows), Keys(images, band)[..if aborted then published + 1 else published], now)
    {
      ghost var keys := Keys(images, band);
      published := 0;
      for i := 0 to |images|
        invariant published == i <= failAt
        invariant sent == old(sent) + keys[..i]
        invariant tracker.rows == AllQueued(old(tracker.rows), keys[..i], now)
      {
        assert keys[..i + 1][..i] == keys[..i];
        tracker.MarkInProgress(Key(images[i], band), now);
        if i == failAt {
          return published, true;
        }
        sent := sent + [Key(images[i], band)];
        published := published + 1;
      }
      aborted := false;
    }
  }
}
