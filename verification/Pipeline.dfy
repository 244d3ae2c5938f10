/**
 The delivery protocol between one producer, three work queues, the progress table
 and any number of workers, as a system of atomic steps
 (src/producer/image_discovery_producer.py, src/worker/worker.py,
 src/worker/work_handler.py, src/clients/progress_tracker.py).

 The producer reads the three queue depths one after another, so workers may act
 between the reads; a worker marks a row PROCESSING some time after it received the
 message; channels break and messages go back to their queue at any moment.
 */
module Pipeline {
  import opened Common
  import opened ProgressTrackers

  /** `id` names one publication: retries and redeliveries keep it. */
  datatype Message = Message(id: nat, key: Key)

  /** A copy of a message and the queue (0, 1 or 2) it belongs to. */
  datatype Item = Item(queue: nat, msg: Message)

  datatype Phase =
    | Idle
    | Gate(read: nat)
    | Publishing(rest: seq<Key>)
    | Marked(key: Key, id: nat, rest: seq<Key>)

  /**
   `owner` is the publication a key was last marked for, `seen` the publications some
   worker has marked PROCESSING, `bounced` those put back unmarked since the gate opened.
   */
  datatype State = State(
    now: int,
    ttl: int,
    rows: Rows,
    owner: map<Key, nat>,
    nextId: nat,
    waiting: multiset<Item>,
    fetched: multiset<Item>,
    running: multiset<Item>,
    finished: multiset<Item>,
    phase: Phase,
    seen: set<nat>,
    bounced: set<nat>)

  datatype ProducerStep =
    | Clean                         // cleanup_stale
    | OpenGate                      // _work_queue_empty begins
    | ReadDepth                     // reads the next queue's depth
    | ReadFails                     // a depth could not be read
    | Reclaim                       // reclaim_orphan_in_progress
    | Discover(batch: seq<Key>)     // snapshot of the table, then discovery
    | Mark                          // mark_in_progress for the next key
    | Publish(queue: nat)
    | PublishFails                  // aborts the batch
    | EndBatch                      // batch done, or the source timed out

  /** Where a worker holds a copy: received, marked PROCESSING, or released. */
  datatype Hand = Unmarked | Working | Done

  datatype WorldStep =
    | Wait(to: int)                 // time passes
    | Fetch(item: Item)             // poll_one hands the message to a task
    | Start(item: Item)             // mark_processing
    | Take(item: Item)              // Fetch and Start at once
    | Release(item: Item)           // mark_completed or release_progress
    | Ack(item: Item, hand: Hand)
    | Retry(item: Item, hand: Hand) // republish before the ack; also after a mark or an ack that raised
    | Bounce(item: Item, hand: Hand) // nack with requeue, crash or broken channel
    | Lose(item: Item)              // an operator purges the queue
    | FanOut(queue: nat, key: Key)  // an inline processor publishes a derived unit

  datatype Step = Producer(act: ProducerStep) | World(event: WorldStep)

  function Initial(now: int, ttl: int): State {
    State(now, ttl, map[], map[], 0, multiset{}, multiset{}, multiset{}, multiset{}, Idle, {}, {})
  }

  predicate Drained(s: State, queue: nat) {
    forall i :: i in s.waiting ==> i.queue != queue
  }

  predicate MayAct(s: State, act: ProducerStep) {
    match act
    case Clean => s.phase.Idle?
    case OpenGate => s.phase.Idle?
    case ReadDepth => s.phase.Gate? && s.phase.read < 3
    case ReadFails => s.phase.Gate?
    case Reclaim => s.phase == Gate(3)
    case Discover(batch) => s.phase.Idle? && forall k :: k in batch ==> k !in s.rows
    case Mark => s.phase.Publishing? && s.phase.rest != []
    case Publish(queue) => s.phase.Marked? && queue < 3
    case PublishFails => s.phase.Marked?
    case EndBatch => s.phase.Publishing?
  }

  function Acted(s: State, act: ProducerStep): State
    requires MayAct(s, act)
  {
    match act
    case Clean => s.(rows := CleanedUp(s.rows, s.now - s.ttl))
    case OpenGate => s.(phase := Gate(0), bounced := {})
    case ReadDepth => s.(phase := if Drained(s, s.phase.read) then Gate(s.phase.read + 1) else Idle)
    case ReadFails => s.(phase := Idle)
    case Reclaim => s.(phase := Idle, rows := Reclaimed(s.rows, s.now - s.ttl))
    case Discover(batch) => s.(phase := Publishing(batch))
    case Mark =>
      var key := s.phase.rest[0];
      s.(phase := Marked(key, s.nextId, s.phase.rest[1..]), rows := Queued(s.rows, key, s.now),
         owner := s.owner[key := s.nextId], nextId := s.nextId + 1)
    case Publish(queue) =>
      s.(phase := Publishing(s.phase.rest),
         waiting := s.waiting + multiset{Item(queue, Message(s.phase.id, s.phase.key))})
    case PublishFails => s.(phase := Idle)
    case EndBatch => s.(phase := Idle)
  }

  function Holding(s: State, hand: Hand): multiset<Item> {
    match hand
    case Unmarked => s.fetched
    case Working => s.running
    case Done => s.finished
  }

  function LetGo(s: State, item: Item, hand: Hand): State {
    match hand
    case Unmarked => s.(fetched := s.fetched - multiset{item})
    case Working => s.(running := s.running - multiset{item})
    case Done => s.(finished := s.finished - multiset{item})
  }

  /** A copy goes back to its queue; coming from an unmarked delivery it counts as bounced. */
  function PutBack(s: State, item: Item, hand: Hand): State {
    s.(waiting := s.waiting + multiset{item},
       bounced := if hand.Unmarked? then s.bounced + {item.msg.id} else s.bounced)
  }

  predicate MayHappen(s: State, event: WorldStep) {
    match event
    case Wait(to) => to >= s.now
    case Fetch(item) => item in s.waiting
    case Start(item) => item in s.fetched
    case Take(item) => item in s.waiting
    case Release(item) => item in s.running
    case Ack(item, hand) => item in Holding(s, hand)
    case Retry(item, hand) => item in Holding(s, hand)
    case Bounce(item, hand) => item in Holding(s, hand)
    case Lose(item) => item in s.waiting
    case FanOut(queue, key) => queue < 3
  }

  function Happened(s: State, event: WorldStep): State
    requires MayHappen(s, event)
  {
    match event
    case Wait(to) => s.(now := to)
    case Fetch(item) => s.(waiting := s.waiting - multiset{item}, fetched := s.fetched + multiset{item})
    case Start(item) => Begun(s.(fetched := s.fetched - multiset{item}), item)
    case Take(item) => Begun(s.(waiting := s.waiting - multiset{item}), item)
    case Release(item) =>
      s.(running := s.running - multiset{item}, finished := s.finished + multiset{item},
         rows := s.rows - {item.msg.key})
    case Ack(item, hand) => LetGo(s, item, hand)
    case Retry(item, hand) => PutBack(s, item, hand)
    case Bounce(item, hand) => LetGo(PutBack(s, item, hand), item, hand)
    case Lose(item) => s.(waiting := s.waiting - multiset{item})
    case FanOut(queue, key) =>
      s.(waiting := s.waiting + multiset{Item(queue, Message(s.nextId, key))}, nextId := s.nextId + 1)
  }

  /** The key an event is about; time passing is about none. */
  function Touches(event: WorldStep): Option<Key> {
    match event
    case Wait(_) => None
    case Fetch(item) => Some(item.msg.key)
    case Start(item) => Some(item.msg.key)
    case Take(item) => Some(item.msg.key)
    case Release(item) => Some(item.msg.key)
    case Ack(item, _) => Some(item.msg.key)
    case Retry(item, _) => Some(item.msg.key)
    case Bounce(item, _) => Some(item.msg.key)
    case Lose(item) => Some(item.msg.key)
    case FanOut(_, key) => Some(key)
  }

  function Begun(s: State, item: Item): State {
    s.(running := s.running + multiset{item}, rows := PickedUp(s.rows, item.msg.key, s.now),
       seen := s.seen + {item.msg.id})
  }

  predicate Enabled(s: State, step: Step) {
    match step
    case Producer(act) => MayAct(s, act)
    case World(event) => MayHappen(s, event)
  }

  function Next(s: State, step: Step): State
    requires Enabled(s, step)
  {
    match step
    case Producer(act) => Acted(s, act)
    case World(event) => Happened(s, event)
  }

  // ------------------------------------------------------------------------ runs

  ghost predicate Valid(s: State, steps: seq<Step>)
    decreases |steps|
  {
    steps == [] || (Enabled(s, steps[0]) && Valid(Next(s, steps[0]), steps[1..]))
  }

  ghost function End(s: State, steps: seq<Step>): State
    requires Valid(s, steps)
    decreases |steps|
  {
    if steps == [] then s else End(Next(s, steps[0]), steps[1..])
  }

  /** Every discovery names its keys once. */
  ghost predicate DistinctBatches(steps: seq<Step>) {
    forall i :: 0 <= i < |steps| ==> DistinctBatch(steps[i])
  }

  ghost predicate DistinctBatch(step: Step) {
    step.Producer? && step.act.Discover? ==> Distinct(step.act.batch)
  }

  lemma {:induction false} RunSnoc(s: State, steps: seq<Step>, step: Step)
    requires Valid(s, steps) && Enabled(End(s, steps), step)
    ensures Valid(s, steps + [step]) && End(s, steps + [step]) == Next(End(s, steps), step)
    decreases |steps|
  {
    if steps == [] {
      assert steps + [step] == [step] && [step][1..] == [];
    } else {
      assert (steps + [step])[1..] == steps[1..] + [step];
      RunSnoc(Next(s, steps[0]), steps[1..], step);
    }
  }

  // ------------------------------------------------------------ the orphan reclaim

  ghost predicate Everywhere(s: State, item: Item) {
    item in s.waiting || item in s.fetched || item in s.running || item in s.finished
  }

  /** The row in the table is the one written when this message was published. */
  predicate Owns(s: State, item: Item) {
    var key := item.msg.key;
    key in s.rows && key in s.owner && s.owner[key] == item.msg.id
  }

  /** Publication numbers are fresh, belong to one key, and every copy a worker started is seen. */
  ghost predicate IdsSound(s: State) {
    && (forall i :: Everywhere(s, i) ==> i.queue < 3 && i.msg.id < s.nextId)
    && (forall k :: k in s.owner ==> s.owner[k] < s.nextId)
    && (forall i, k :: Everywhere(s, i) && k in s.owner && s.owner[k] == i.msg.id ==> k == i.msg.key)
    && (forall n :: n in s.seen ==> n < s.nextId)
    && (forall i :: i in s.running || i in s.finished ==> i.msg.id in s.seen)
    && (s.phase.Marked? ==>
          && s.phase.id < s.nextId
          && forall k :: k in s.owner && s.owner[k] == s.phase.id ==> k == s.phase.key)
  }

  /** Once a worker has marked a publication, its row never reads IN_PROGRESS again. */
  ghost predicate RowsSound(s: State) {
    && (forall k :: k in s.rows ==> k in s.owner)
    && (forall k :: k in s.rows && s.owner[k] in s.seen ==> s.rows[k].status.Processing?)
  }

  /** In a queue already read as empty, only marked or bounced publications can be waiting. */
  ghost predicate DepthsSound(s: State) {
    s.phase.Gate? ==>
      && s.phase.read <= 3
      && forall i :: i in s.waiting && i.queue < s.phase.read ==>
           i.msg.id in s.seen || i.msg.id in s.bounced || !Owns(s, i)
  }

  ghost predicate GateSound(s: State) {
    IdsSound(s) && RowsSound(s) && DepthsSound(s)
  }

  lemma InitialIsGateSound(now: int, ttl: int)
    ensures GateSound(Initial(now, ttl))
  {
  }

  lemma ActedKeepsIdsSound(s: State, act: ProducerStep)
    requires IdsSound(s) && MayAct(s, act)
    ensures IdsSound(Acted(s, act))
  {
    var t := Acted(s, act);
    assert t.fetched == s.fetched && t.running == s.running && t.finished == s.finished && t.seen == s.seen;
    assert forall i :: i in t.waiting ==>
             i in s.waiting || (act.Publish? && i == Item(act.queue, Message(s.phase.id, s.phase.key)));
  }

  /** The publication an event marks PROCESSING, if any. */
  function Begins(event: WorldStep): set<nat> {
    if event.Start? || event.Take? then {event.item.msg.id} else {}
  }

  /** Copies only move, except that a fan-out publishes one. */
  lemma ItemsMove(s: State, event: WorldStep)
    requires MayHappen(s, event)
    ensures
      var t := Happened(s, event);
      && (forall i :: Everywhere(t, i) ==>
            Everywhere(s, i) || (event.FanOut? && i.queue < 3 && i.msg.id == s.nextId))
      && (forall i :: i in t.running || i in t.finished ==>
            i in s.running || i in s.finished || i.msg.id in Begins(event))
      && (event.Start? || event.Take? ==> Everywhere(s, event.item))
  {
    match event
    case Wait(_) =>
    case Fetch(_) =>
    case Start(_) =>
    case Take(_) =>
    case Release(_) =>
    case Ack(_, _) => HandsMove(s, event);
    case Retry(_, _) => HandsMove(s, event);
    case Bounce(_, _) => HandsMove(s, event);
    case Lose(_) =>
    case FanOut(_, _) =>
  }

  lemma HandsMove(s: State, event: WorldStep)
    requires MayHappen(s, event) && (event.Ack? || event.Retry? || event.Bounce?)
    ensures
      var t := Happened(s, event);
      && (forall i :: Everywhere(t, i) ==> Everywhere(s, i))
      && t.running <= s.running && t.finished <= s.finished
  {
    var t := Happened(s, event);
    HandFrame(s, event.item, event.hand);
    assert Everywhere(s, event.item);
    assert t.waiting <= s.waiting + multiset{event.item} && t.fetched <= s.fetched;
  }

  /** Putting back and letting go touch only the copies, and the bounced publications. */
  lemma HandFrame(s: State, item: Item, hand: Hand)
    ensures
      var t := LetGo(s, item, hand);
      && t == s.(fetched := t.fetched, running := t.running, finished := t.finished)
      && t.fetched <= s.fetched && t.running <= s.running && t.finished <= s.finished
    ensures
      var t := PutBack(s, item, hand);
      && t == s.(waiting := s.waiting + multiset{item}, bounced := t.bounced)
      && s.bounced <= t.bounced
    ensures
      var t := LetGo(PutBack(s, item, hand), item, hand);
      && t == s.(waiting := s.waiting + multiset{item}, bounced := t.bounced,
                 fetched := t.fetched, running := t.running, finished := t.finished)
      && t.fetched <= s.fetched && t.running <= s.running && t.finished <= s.finished && s.bounced <= t.bounced
  {
  }

  /** Events around the producer leave its own state alone, and write no new row. */
  lemma HappenedFrame(s: State, event: WorldStep)
    requires MayHappen(s, event)
    ensures
      var t := Happened(s, event);
      && t.owner == s.owner && t.phase == s.phase && s.bounced <= t.bounced
      && t.nextId == (if event.FanOut? then s.nextId + 1 else s.nextId)
      && (forall n :: n in t.seen <==> n in s.seen || n in Begins(event))
      && (forall k :: k in t.rows ==> k in s.rows)
  {
    match event
    case Wait(_) =>
    case Fetch(_) =>
    case Start(_) =>
    case Take(_) =>
    case Release(_) =>
    case Ack(item, hand) => HandFrame(s, item, hand);
    case Retry(item, hand) => HandFrame(s, item, hand);
    case Bounce(item, hand) => HandFrame(s, item, hand);
    case Lose(_) =>
    case FanOut(_, _) =>
  }

  /** Rows of keys an event is not about stay as they are. */
  lemma OtherRowsStay(s: State, event: WorldStep, key: Key)
    requires MayHappen(s, event) && Touches(event) != Some(key)
    ensures key in Happened(s, event).rows <==> key in s.rows
    ensures key in s.rows ==> Happened(s, event).rows[key] == s.rows[key]
  {
    match event
    case Wait(_) =>
    case Fetch(_) =>
    case Start(_) =>
    case Take(_) =>
    case Release(_) =>
    case Ack(item, hand) => HandFrame(s, item, hand);
    case Retry(item, hand) => HandFrame(s, item, hand);
    case Bounce(item, hand) => HandFrame(s, item, hand);
    case Lose(_) =>
    case FanOut(_, _) =>
  }

  lemma HappenedKeepsIdsSound(s: State, event: WorldStep)
    requires IdsSound(s) && MayHappen(s, event)
    ensures IdsSound(Happened(s, event))
  {
    ItemsMove(s, event);
    HappenedFrame(s, event);
    IdsSoundAcross(s, Happened(s, event), Begins(event));
  }

  lemma IdsSoundAcross(s: State, t: State, begun: set<nat>)
    requires IdsSound(s)
    requires t.owner == s.owner && t.phase == s.phase && t.nextId >= s.nextId
    requires forall n :: n in t.seen <==> n in s.seen || n in begun
    requires forall n :: n in begun ==> n < s.nextId
    requires forall i :: i in t.running || i in t.finished ==>
               i in s.running || i in s.finished || i.msg.id in begun
    requires forall i :: Everywhere(t, i) ==>
               Everywhere(s, i) || (i.queue < 3 && i.msg.id == s.nextId && s.nextId < t.nextId)
    ensures IdsSound(t)
  {
  }

  lemma BegunKeepsRowsSound(s: State, item: Item)
    requires IdsSound(s) && RowsSound(s) && Everywhere(s, item)
    ensures RowsSound(Begun(s, item))
  {
  }

  lemma HappenedKeepsRowsSound(s: State, event: WorldStep)
    requires IdsSound(s) && RowsSound(s) && MayHappen(s, event)
    ensures RowsSound(Happened(s, event))
  {
    if event.Start? || event.Take? {
      BegunKeepsRowsSound(s, event.item);
    }
  }

  lemma ActedKeepsRowsSound(s: State, act: ProducerStep)
    requires IdsSound(s) && RowsSound(s) && MayAct(s, act)
    ensures RowsSound(Acted(s, act))
  {
    if act.Mark? {
      assert s.nextId !in s.seen;
    }
  }

  lemma ActedKeepsDepthsSound(s: State, act: ProducerStep)
    requires GateSound(s) && MayAct(s, act)
    ensures DepthsSound(Acted(s, act))
  {
  }

  /** Copies that reach a queue from outside it are marked, bounced, or fresh. */
  lemma WaitingFrame(s: State, event: WorldStep)
    requires MayHappen(s, event)
    ensures
      var t := Happened(s, event);
      forall i :: i in t.waiting ==>
        i in s.waiting || i in s.running || i in s.finished || i.msg.id in t.bounced || i.msg.id == s.nextId
  {
  }

  lemma HappenedKeepsDepthsSound(s: State, event: WorldStep)
    requires GateSound(s) && MayHappen(s, event)
    ensures DepthsSound(Happened(s, event))
  {
    HappenedFrame(s, event);
    WaitingFrame(s, event);
    var t := Happened(s, event);
    if s.phase.Gate? {
      forall i | i in t.waiting && i.queue < t.phase.read
        ensures i.msg.id in t.seen || i.msg.id in t.bounced || !Owns(t, i)
      {
        assert Owns(t, i) ==> Owns(s, i);
      }
    }
  }

  lemma StepKeepsGateSound(s: State, step: Step)
    requires GateSound(s) && Enabled(s, step)
    ensures GateSound(Next(s, step))
  {
    match step
    case Producer(act) =>
      ActedKeepsIdsSound(s, act);
      ActedKeepsRowsSound(s, act);
      ActedKeepsDepthsSound(s, act);
    case World(event) =>
      HappenedKeepsIdsSound(s, event);
      HappenedKeepsRowsSound(s, event);
      HappenedKeepsDepthsSound(s, event);
  }

  lemma {:induction false} RunsAreGateSound(s: State, steps: seq<Step>)
    requires GateSound(s) && Valid(s, steps)
    ensures GateSound(End(s, steps))
    decreases |steps|
  {
    if steps != [] {
      StepKeepsGateSound(s, steps[0]);
      RunsAreGateSound(Next(s, steps[0]), steps[1..]);
    }
  }

  /**
   The reclaim never forgets the row of a message that is waiting undelivered, unless a
   later publication of its key has rewritten that row, or the message was received and
   put back unmarked while the depths were being read.
   */
  lemma ReclaimSparesWaiting(start: State, steps: seq<Step>, item: Item)
    requires GateSound(start) && Valid(start, steps)
    requires var s := End(start, steps);
             MayAct(s, Reclaim) && item in s.waiting && Owns(s, item) && item.msg.id !in s.bounced
    ensures
      var s := End(start, steps);
      var t := Acted(s, Reclaim);
      Owns(t, item) && t.rows[item.msg.key] == s.rows[item.msg.key]
  {
    RunsAreGateSound(start, steps);
  }

  /** A reclaim in state `s` would delete the row of a waiting message's key. */
  ghost predicate WouldLose(s: State, item: Item) {
    item in s.waiting && item.msg.key in s.rows && item.msg.key !in Reclaimed(s.rows, s.now - s.ttl)
  }

  /** The row of the message's key is IN_PROGRESS and past the TTL. */
  predicate Lapsed(s: State, item: Item) {
    var key := item.msg.key;
    key in s.rows && s.rows[key].status.InProgress? && s.rows[key].updatedAt < s.now - s.ttl
  }

  /**
   In every reachable state with the gate passed, a reclaim deletes the row of some
   waiting message's key exactly when the row of a waiting message's key is IN_PROGRESS
   and past the TTL, and that message bounced during the gate or a later publication of
   the key wrote the row.
   */
  lemma ReclaimLosesExactlyWhen(start: State, steps: seq<Step>)
    requires GateSound(start) && Valid(start, steps) && End(start, steps).phase == Gate(3)
    ensures
      var s := End(start, steps);
      (exists item :: WouldLose(s, item))
      <==>
      (exists item :: item in s.waiting && Lapsed(s, item) && (item.msg.id in s.bounced || !Owns(s, item)))
  {
    RunsAreGateSound(start, steps);
    var s := End(start, steps);
    if item :| WouldLose(s, item) {
      assert Lapsed(s, item);
      assert item.msg.id in s.bounced || !Owns(s, item);
    }
    if item :| item in s.waiting && Lapsed(s, item) && (item.msg.id in s.bounced || !Owns(s, item)) {
      assert WouldLose(s, item);
    }
  }

  /** The copy an event puts into a queue, if any. */
  function Added(s: State, step: Step): set<Item> {
    match step
    case World(Retry(item, _)) => {item}
    case World(Bounce(item, _)) => {item}
    case World(FanOut(queue, key)) => {Item(queue, Message(s.nextId, key))}
    case _ => {}
  }

  /** The copies retried, bounced or fanned out since the gate was last opened. */
  ghost function AddedSinceOpen(s: State, steps: seq<Step>, earlier: set<Item>): set<Item>
    requires Valid(s, steps)
    decreases |steps|
  {
    if steps == [] then earlier
    else
      AddedSinceOpen(Next(s, steps[0]), steps[1..],
                     if steps[0] == Producer(OpenGate) then {} else earlier + Added(s, steps[0]))
  }

  /** In a queue already read as empty only copies added since then can wait. */
  ghost predicate ReadStaysEmpty(s: State, added: set<Item>) {
    s.phase.Gate? ==> s.phase.read <= 3 && forall i :: i in s.waiting && i.queue < s.phase.read ==> i in added
  }

  lemma StepReadStaysEmpty(s: State, step: Step, added: set<Item>)
    requires ReadStaysEmpty(s, added) && Enabled(s, step)
    ensures ReadStaysEmpty(Next(s, step), if step == Producer(OpenGate) then {} else added + Added(s, step))
  {
    if step.World? {
      HappenedFrame(s, step.event);
      OnlyAdded(s, step.event);
    }
  }

  lemma OnlyAdded(s: State, event: WorldStep)
    requires MayHappen(s, event)
    ensures forall i :: i in Happened(s, event).waiting ==> i in s.waiting || i in Added(s, World(event))
  {
  }

  lemma {:induction false} RunReadStaysEmpty(s: State, steps: seq<Step>, added: set<Item>)
    requires ReadStaysEmpty(s, added) && Valid(s, steps)
    ensures ReadStaysEmpty(End(s, steps), AddedSinceOpen(s, steps, added))
    decreases |steps|
  {
    if steps != [] {
      StepReadStaysEmpty(s, steps[0], added);
      RunReadStaysEmpty(Next(s, steps[0]), steps[1..],
                        if steps[0] == Producer(OpenGate) then {} else added + Added(s, steps[0]));
    }
  }

  /**
   In every run the reclaim deletes the row of a waiting message's key exactly if that row
   is IN_PROGRESS and past the TTL and the message was retried, bounced or fanned out since
   the gate was opened.  Without such an event nothing waits at all when the gate is passed.
   */
  lemma ReclaimLosesOnlyAdded(now: int, ttl: int, steps: seq<Step>, item: Item)
    requires Valid(Initial(now, ttl), steps) && End(Initial(now, ttl), steps).phase == Gate(3)
    ensures
      var s := End(Initial(now, ttl), steps);
      var added := AddedSinceOpen(Initial(now, ttl), steps, {});
      && (WouldLose(s, item) <==> item in added && item in s.waiting && Lapsed(s, item))
      && (added == {} ==> s.waiting == multiset{})
  {
    var s := End(Initial(now, ttl), steps);
    RunsAreGateSound(Initial(now, ttl), steps);
    RunReadStaysEmpty(Initial(now, ttl), steps, {});
    assert forall i :: i in s.waiting ==> Everywhere(s, i) && i.queue < 3;
  }

  /** One discovered key, marked and published to the first queue. */
  lemma OnePublished(key: Key, ttl: nat) returns (steps: seq<Step>, s: State)
    ensures Valid(Initial(0, ttl), steps) && DistinctBatches(steps) && s == End(Initial(0, ttl), steps)
    ensures s == State(0, ttl, map[key := Row(InProgress, 0, 0)], map[key := 0], 1,
                       multiset{Item(0, Message(0, key))}, multiset{}, multiset{}, multiset{}, Idle, {}, {})
  {
    var start := Initial(0, ttl);
    RunSnoc(start, [], Producer(Discover([key])));
    steps := [] + [Producer(Discover([key]))];
    RunSnoc(start, steps, Producer(Mark));
    steps := steps + [Producer(Mark)];
    RunSnoc(start, steps, Producer(Publish(0)));
    steps := steps + [Producer(Publish(0))];
    RunSnoc(start, steps, Producer(EndBatch));
    steps := steps + [Producer(EndBatch)];
    s := End(start, steps);
    assert s.waiting == multiset{} + multiset{Item(0, Message(0, key))};
  }

  /** A message received after waiting longer than the TTL, and not marked yet. */
  lemma LateFetch(key: Key, ttl: nat) returns (steps: seq<Step>, s: State)
    ensures Valid(Initial(0, ttl), steps) && s == End(Initial(0, ttl), steps)
    ensures s == State(ttl + 1, ttl, map[key := Row(InProgress, 0, 0)], map[key := 0], 1,
                       multiset{}, multiset{Item(0, Message(0, key))}, multiset{}, multiset{}, Idle, {}, {})
  {
    var start := Initial(0, ttl);
    var item := Item(0, Message(0, key));
    steps, s := OnePublished(key, ttl);
    RunSnoc(start, steps, World(Wait(ttl + 1)));
    steps := steps + [World(Wait(ttl + 1))];
    RunSnoc(start, steps, World(Fetch(item)));
    steps := steps + [World(Fetch(item))];
    s := End(start, steps);
    assert s.fetched == multiset{} + multiset{item};
    assert s.waiting == multiset{item} - multiset{item} == multiset{};
  }

  /** The second and third queues read as empty, and the gate is passed. */
  lemma LastDepthsRead(start: State, steps: seq<Step>) returns (all: seq<Step>)
    requires Valid(start, steps)
    requires var s := End(start, steps); s.phase == Gate(1) && Drained(s, 1) && Drained(s, 2)
    ensures Valid(start, all) && End(start, all) == End(start, steps).(phase := Gate(3))
  {
    RunSnoc(start, steps, Producer(ReadDepth));
    all := steps + [Producer(ReadDepth)];
    RunSnoc(start, all, Producer(ReadDepth));
    all := all + [Producer(ReadDepth)];
  }

  /**
   A run in which a reclaim is about to forget the row of a waiting message exists for
   every key and TTL: the message is received late, its worker dies before marking it,
   and the broker puts it back behind the depth reading that found its queue empty.
   */
  lemma BouncedRowCanBeLost(key: Key, ttl: nat) returns (steps: seq<Step>)
    ensures var start := Initial(0, ttl);
            && Valid(start, steps)
            && WouldLose(End(start, steps), Item(0, Message(0, key)))
            && MayAct(End(start, steps), Reclaim)
  {
    var start := Initial(0, ttl);
    var item := Item(0, Message(0, key));
    var late;
    steps, late := LateFetch(key, ttl);
    RunSnoc(start, steps, Producer(OpenGate));
    steps := steps + [Producer(OpenGate)];
    RunSnoc(start, steps, Producer(ReadDepth));
    steps := steps + [Producer(ReadDepth)];
    RunSnoc(start, steps, World(Bounce(item, Unmarked)));
    steps := steps + [World(Bounce(item, Unmarked))];
    assert End(start, steps).waiting == multiset{} + multiset{item};
    steps := LastDepthsRead(start, steps);
  }

  /** A message still on its worker after the cleanup took its row. */
  lemma StaleWorker(key: Key, ttl: nat) returns (steps: seq<Step>, s: State)
    ensures Valid(Initial(0, ttl), steps) && DistinctBatches(steps) && s == End(Initial(0, ttl), steps)
    ensures s == State(ttl + 1, ttl, map[], map[key := 0], 1,
                       multiset{}, multiset{}, multiset{Item(0, Message(0, key))}, multiset{}, Idle, {0}, {})
  {
    var start := Initial(0, ttl);
    var item := Item(0, Message(0, key));
    steps, s := OnePublished(key, ttl);
    RunSnoc(start, steps, World(Take(item)));
    steps := steps + [World(Take(item))];
    RunSnoc(start, steps, World(Wait(ttl + 1)));
    steps := steps + [World(Wait(ttl + 1))];
    RunSnoc(start, steps, Producer(Clean));
    steps := steps + [Producer(Clean)];
    s := End(start, steps);
    assert s.running == multiset{} + multiset{item} == multiset{item};
    assert s.waiting == multiset{item} - multiset{item} == multiset{};
  }

  /**
   The key discovered again and marked, while its first message is still on the worker;
   the second publish failed, so the new row has no message of its own.
   */
  lemma LostRepublication(key: Key, ttl: nat) returns (steps: seq<Step>, s: State)
    ensures Valid(Initial(0, ttl), steps) && s == End(Initial(0, ttl), steps)
    ensures s == State(2 * ttl + 2, ttl, map[key := Row(InProgress, ttl + 1, ttl + 1)], map[key := 1], 2,
                       multiset{}, multiset{}, multiset{Item(0, Message(0, key))}, multiset{}, Idle, {0}, {})
  {
    var start := Initial(0, ttl);
    steps, s := StaleWorker(key, ttl);
    RunSnoc(start, steps, Producer(Discover([key])));
    steps := steps + [Producer(Discover([key]))];
    RunSnoc(start, steps, Producer(Mark));
    steps := steps + [Producer(Mark)];
    RunSnoc(start, steps, Producer(PublishFails));
    steps := steps + [Producer(PublishFails)];
    RunSnoc(start, steps, World(Wait(2 * ttl + 2)));
    steps := steps + [World(Wait(2 * ttl + 2))];
    s := End(start, steps);
  }

  /**
   And a second run in which a reclaim is about to delete the row of a waiting key, with
   nothing bounced: the first worker retries its message behind the depth reading that
   found its queue empty, while the row waits for the reclaim of the lost publication.
   */
  lemma RetriedRowCanBeLost(key: Key, ttl: nat) returns (steps: seq<Step>)
    ensures var start := Initial(0, ttl);
            && Valid(start, steps)
            && WouldLose(End(start, steps), Item(0, Message(0, key)))
            && MayAct(End(start, steps), Reclaim)
            && End(start, steps).bounced == {}
  {
    var start := Initial(0, ttl);
    var item := Item(0, Message(0, key));
    var lost;
    steps, lost := LostRepublication(key, ttl);
    RunSnoc(start, steps, Producer(OpenGate));
    steps := steps + [Producer(OpenGate)];
    RunSnoc(start, steps, Producer(ReadDepth));
    steps := steps + [Producer(ReadDepth)];
    RunSnoc(start, steps, World(Retry(item, Working)));
    steps := steps + [World(Retry(item, Working))];
    assert End(start, steps).waiting == multiset{} + multiset{item};
    steps := LastDepthsRead(start, steps);
  }
}
