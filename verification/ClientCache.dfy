/**
 The per-profile S3 client cache of src/clients/s3_client.py (_get_client,
 _lock_for_loop, _drop_client, aclose), as interleaved steps between awaits.  Profiles do
 not share anything, so one profile is modelled.  Loops, tasks and locks are numbers.
 */
module ClientCache {
  import opened Common

  datatype Client = Client(id: nat, home: nat)

  /** Where a call of _get_client stands. */
  datatype Stage = Waiting(gate: nat) | Creating(gate: nat) | Returned(client: Client) | Raised

  datatype Call = Call(home: nat, stage: Stage)

  /** The creation lock: its identity, the loop it is bound to, and whether it is held. */
  datatype Gate = Gate(id: nat, home: nat)

  datatype State = State(cached: Option<Client>, gate: Option<Gate>, held: set<nat>, calls: map<nat, Call>,
                         clientsMade: nat, gatesMade: nat)

  datatype Event =
    | Enter(task: nat, home: nat)
    | Acquire(task: nat)
    | Created(task: nat)
    | CreationFails(task: nat)
    | Dropped

  const START := State(None, None, {}, map[], 0, 0)

  predicate Serves(s: State, home: nat) {
    s.cached.Some? && s.cached.value.home == home
  }

  predicate Enabled(s: State, e: Event) {
    match e
    case Enter(t, _) => t !in s.calls
    case Acquire(t) => t in s.calls && s.calls[t].stage.Waiting? && s.calls[t].stage.gate !in s.held
    case Created(t) => t in s.calls && s.calls[t].stage.Creating?
    case CreationFails(t) => t in s.calls && s.calls[t].stage.Creating?
    case Dropped => true
  }

  /** _lock_for_loop: reuse the lock bound to this loop, or bind a new one. */
  function GateFor(s: State, home: nat): (State, nat) {
    if s.gate.Some? && s.gate.value.home == home then
      (s, s.gate.value.id)
    else
      (s.(gate := Some(Gate(s.gatesMade, home)), gatesMade := s.gatesMade + 1), s.gatesMade)
  }

  /** One uninterrupted stretch of code, from one await to the next. */
  function Apply(s: State, e: Event): State
    requires Enabled(s, e)
  {
    match e
    case Enter(t, home) =>
      if Serves(s, home) then
        s.(calls := s.calls[t := Call(home, Returned(s.cached.value))])
      else
        var (bound, gate) := GateFor(s, home);
        bound.(calls := bound.calls[t := Call(home, Waiting(gate))])
    case Acquire(t) =>
      var home, gate := s.calls[t].home, s.calls[t].stage.gate;
      if Serves(s, home) then
        s.(calls := s.calls[t := Call(home, Returned(s.cached.value))])
      else
        s.(cached := None, held := s.held + {gate}, calls := s.calls[t := Call(home, Creating(gate))])
    case Created(t) =>
      var home, gate := s.calls[t].home, s.calls[t].stage.gate;
      var client := Client(s.clientsMade, home);
      s.(cached := Some(client), held := s.held - {gate}, clientsMade := s.clientsMade + 1,
         calls := s.calls[t := Call(home, Returned(client))])
    case CreationFails(t) =>
      var gate := s.calls[t].stage.gate;
      s.(held := s.held - {gate}, calls := s.calls[t := s.calls[t].(stage := Raised)])
    case Dropped => s.(cached := None)
  }

  ghost predicate Possible(s: State, run: seq<Event>)
    decreases |run|
  {
    run == [] || (Enabled(s, run[0]) && Possible(Apply(s, run[0]), run[1..]))
  }

  ghost function End(s: State, run: seq<Event>): State
    requires Possible(s, run)
    decreases |run|
  {
    if run == [] then s else End(Apply(s, run[0]), run[1..])
  }

  // --------------------------------------------------- no client of a foreign loop

  /** Whoever got a client got one made on its own loop. */
  ghost predicate OwnLoopOnly(s: State) {
    forall t :: t in s.calls && s.calls[t].stage.Returned? ==> s.calls[t].stage.client.home == s.calls[t].home
  }

  lemma {:induction false} NoForeignClients(s: State, run: seq<Event>)
    requires OwnLoopOnly(s) && Possible(s, run)
    ensures OwnLoopOnly(End(s, run))
    decreases |run|
  {
    if run != [] {
      NoForeignClients(Apply(s, run[0]), run[1..]);
    }
  }

  // -------------------------------------------------------------- no lock is lost

  /** A creation lock is held exactly while a call creates under it. */
  ghost predicate HeldWhileCreating(s: State) {
    && (forall t :: t in s.calls && s.calls[t].stage.Creating? ==> s.calls[t].stage.gate in s.held)
    && (forall g :: g in s.held ==> CreatesUnder(s, g))
    && (forall t, u :: SameCreation(s, t, u) ==> t == u)
  }

  predicate SameCreation(s: State, t: nat, u: nat) {
    t in s.calls && u in s.calls && s.calls[t].stage.Creating? && s.calls[t].stage == s.calls[u].stage
  }

  ghost predicate CreatesUnder(s: State, gate: nat) {
    exists t :: t in s.calls && s.calls[t].stage == Creating(gate)
  }

  lemma StepHoldsWhileCreating(s: State, e: Event)
    requires HeldWhileCreating(s) && Enabled(s, e)
    ensures HeldWhileCreating(Apply(s, e))
  {
    var next := Apply(s, e);
    forall t | t in next.calls && next.calls[t].stage.Creating? ensures next.calls[t].stage.gate in next.held {
      if e.Created? || e.CreationFails? {
        assert !SameCreation(s, e.task, t);
      }
    }
    forall t, u | SameCreation(next, t, u) ensures t == u {
      assert SameCreation(s, t, u) ==> t == u;
    }
    forall g | g in next.held ensures CreatesUnder(next, g) {
      if e.Acquire? && g !in s.held {
        assert next.calls[e.task].stage == Creating(g);
      } else {
        var t :| t in s.calls && s.calls[t].stage == Creating(g);
        assert next.calls[t] == s.calls[t];
      }
    }
  }

  /**
   In every run a lock is held only by a call that is creating a client, and each lock by
   one call at most; so with nobody creating, whoever waits may go on.
   */
  lemma {:induction false} NoLostLock(s: State, run: seq<Event>)
    requires HeldWhileCreating(s) && Possible(s, run)
    ensures HeldWhileCreating(End(s, run))
    ensures
      var end := End(s, run);
      (forall t :: t in end.calls ==> !end.calls[t].stage.Creating?) ==>
        forall t :: t in end.calls && end.calls[t].stage.Waiting? ==> Enabled(end, Acquire(t))
    decreases |run|
  {
    if run != [] {
      StepHoldsWhileCreating(s, run[0]);
      NoLostLock(Apply(s, run[0]), run[1..]);
    }
  }

  // ------------------------------------------------------------ one client per loop

  ghost predicate InFlight(s: State, t: nat) {
    t in s.calls && (s.calls[t].stage.Waiting? || s.calls[t].stage.Creating?)
  }

  /** Loops are used one after the other: nobody enters on one while a call on another is under way. */
  ghost predicate Sequential(s: State, e: Event) {
    e.Enter? ==> forall t :: InFlight(s, t) ==> s.calls[t].home == e.home
  }

  /** The loop of the most recent entry, the switches between loops, and the dropped clients. */
  datatype Ledger = Ledger(loop: Option<nat>, switches: nat, drops: nat)

  function Note(l: Ledger, e: Event): Ledger {
    match e
    case Enter(_, home) =>
      l.(loop := Some(home), switches := l.switches + if l.loop.Some? && l.loop.value != home then 1 else 0)
    case Dropped => l.(drops := l.drops + 1)
    case Acquire(_) => l
    case Created(_) => l
    case CreationFails(_) => l
  }

  ghost predicate Orderly(s: State, run: seq<Event>)
    decreases |run|
  {
    run == [] || (Enabled(s, run[0]) && Sequential(s, run[0]) && Orderly(Apply(s, run[0]), run[1..]))
  }

  function Noted(l: Ledger, run: seq<Event>): Ledger
    decreases |run|
  {
    if run == [] then l else Noted(Note(l, run[0]), run[1..])
  }

  /** A client may still have to be made for the current loop. */
  ghost predicate Wanting(s: State, l: Ledger) {
    l.loop.None? || !Serves(s, l.loop.value)
  }

  /** Calls under way belong to the current loop and share its lock; at most one creates, and only if none is cached. */
  ghost predicate Frugal(s: State, l: Ledger) {
    && (forall t :: InFlight(s, t) ==>
                      && l.loop == Some(s.calls[t].home)
                      && s.gate == Some(Gate(s.calls[t].stage.gate, s.calls[t].home)))
    && (forall t :: t in s.calls && s.calls[t].stage.Creating? ==> s.cached.None? && s.calls[t].stage.gate in s.held)
    && (forall t, u :: t in s.calls && u in s.calls && s.calls[t].stage.Creating? && s.calls[u].stage.Creating? ==>
        t == u)
    && (s.gate.Some? ==> s.gate.value.id < s.gatesMade)
    && s.clientsMade + (if Wanting(s, l) then 1 else 0) <= 1 + l.switches + l.drops
    && (forall t :: t in s.calls && s.calls[t].stage.Returned? ==> s.calls[t].stage.client.id < s.clientsMade)
    && (s.cached.Some? ==> s.cached.value.id < s.clientsMade)
  }

  lemma EnterStaysFrugal(s: State, l: Ledger, t: nat, home: nat)
    requires Frugal(s, l) && Enabled(s, Enter(t, home)) && Sequential(s, Enter(t, home))
    ensures Frugal(Apply(s, Enter(t, home)), Note(l, Enter(t, home)))
  {
    var next := Apply(s, Enter(t, home));
    forall u | InFlight(next, u) && u != t
      ensures next.gate == Some(Gate(next.calls[u].stage.gate, next.calls[u].home))
    {
      assert InFlight(s, u);
    }
  }

  lemma AcquireStaysFrugal(s: State, l: Ledger, t: nat)
    requires Frugal(s, l) && Enabled(s, Acquire(t))
    ensures Frugal(Apply(s, Acquire(t)), l)
  {
    var next := Apply(s, Acquire(t));
    assert InFlight(s, t);
    var gate := s.calls[t].stage.gate;
    forall u | u in s.calls ensures !s.calls[u].stage.Creating? {
      assert InFlight(s, u) ==> s.calls[u].stage.gate == gate;
    }
    forall u | InFlight(next, u) ensures InFlight(s, u) {
    }
  }

  lemma CreatedStaysFrugal(s: State, l: Ledger, t: nat)
    requires Frugal(s, l) && Enabled(s, Created(t))
    ensures Frugal(Apply(s, Created(t)), l)
  {
    var next := Apply(s, Created(t));
    assert InFlight(s, t);
    forall u | InFlight(next, u) ensures InFlight(s, u) {
    }
  }

  lemma FailureStaysFrugal(s: State, l: Ledger, t: nat)
    requires Frugal(s, l) && Enabled(s, CreationFails(t))
    ensures Frugal(Apply(s, CreationFails(t)), l)
  {
    var next := Apply(s, CreationFails(t));
    assert InFlight(s, t);
    forall u | InFlight(next, u) ensures InFlight(s, u) {
    }
  }

  lemma DropStaysFrugal(s: State, l: Ledger)
    requires Frugal(s, l)
    ensures Frugal(Apply(s, Dropped), Note(l, Dropped))
  {
    var next := Apply(s, Dropped);
    forall u | InFlight(next, u) ensures InFlight(s, u) {
    }
  }

  lemma StepStaysFrugal(s: State, l: Ledger, e: Event)
    requires Frugal(s, l) && Enabled(s, e) && Sequential(s, e)
    ensures Frugal(Apply(s, e), Note(l, e))
  {
    match e
    case Enter(t, home) => EnterStaysFrugal(s, l, t, home);
    case Acquire(t) => AcquireStaysFrugal(s, l, t);
    case Created(t) => CreatedStaysFrugal(s, l, t);
    case CreationFails(t) => FailureStaysFrugal(s, l, t);
    case Dropped => DropStaysFrugal(s, l);
  }

  lemma {:induction false} OrderlyRunsStayFrugal(s: State, l: Ledger, run: seq<Event>)
    requires Frugal(s, l) && Orderly(s, run)
    ensures Possible(s, run) && Frugal(End(s, run), Noted(l, run))
    decreases |run|
  {
    if run != [] {
      StepStaysFrugal(s, l, run[0]);
      OrderlyRunsStayFrugal(Apply(s, run[0]), Note(l, run[0]), run[1..]);
    }
  }

  /** The loops of the entries, in order. */
  function Loops(run: seq<Event>): seq<nat> {
    if run == [] then []
    else (if run[0].Enter? then [run[0].home] else []) + Loops(run[1..])
  }

  /** How often a list changes from one element to the next. */
  function Changes(loops: seq<nat>): nat {
    if |loops| < 2 then 0 else (if loops[0] != loops[1] then 1 else 0) + Changes(loops[1..])
  }

  /** The ledger counts the dropped clients of a run. */
  lemma {:induction false} DropsAreCounted(l: Ledger, run: seq<Event>)
    ensures Noted(l, run).drops == l.drops + multiset(run)[Dropped]
    decreases |run|
  {
    if run != [] {
      DropsAreCounted(Note(l, run[0]), run[1..]);
      assert run == [run[0]] + run[1..];
    }
  }

  /** The loop a ledger stands at, if any. */
  function At(l: Ledger): seq<nat> {
    if l.loop.Some? then [l.loop.value] else []
  }

  /** And the changes of loop. */
  lemma {:induction false} SwitchesAreCounted(l: Ledger, run: seq<Event>)
    ensures Noted(l, run).switches == l.switches + Changes(At(l) + Loops(run))
    decreases |run|
  {
    if run != [] {
      SwitchesAreCounted(Note(l, run[0]), run[1..]);
      EntryChanges(l, run[0], Loops(run[1..]));
    }
  }

  lemma EntryChanges(l: Ledger, e: Event, rest: seq<nat>)
    ensures var next := Note(l, e);
            l.switches + Changes(At(l) + ((if e.Enter? then [e.home] else []) + rest))
            == next.switches + Changes(At(next) + rest)
  {
    if e.Enter? {
      assert At(Note(l, e)) == [e.home];
      if l.loop.Some? {
        var all := [l.loop.value] + ([e.home] + rest);
        assert all[1..] == [e.home] + rest && all[0] == l.loop.value && all[1] == e.home;
      } else {
        assert [] + ([e.home] + rest) == [e.home] + rest;
      }
    } else {
      assert [] + rest == rest;
    }
  }

  /** With loops used in sequence, a new client is made only for a new loop or after a drop. */
  lemma FewClients(run: seq<Event>)
    requires Orderly(START, run)
    ensures Possible(START, run)
    ensures End(START, run).clientsMade <= 1 + Changes(Loops(run)) + multiset(run)[Dropped]
  {
    OrderlyRunsStayFrugal(START, Ledger(None, 0, 0), run);
    DropsAreCounted(Ledger(None, 0, 0), run);
    SwitchesAreCounted(Ledger(None, 0, 0), run);
    assert [] + Loops(run) == Loops(run);
  }

  /** On one loop and with nothing dropped, all callers share one client, however their steps interleave. */
  lemma OneLoopSharesOneClient(run: seq<Event>, home: nat)
    requires Possible(START, run)
    requires forall i :: 0 <= i < |run| ==> run[i] != Dropped && (run[i].Enter? ==> run[i].home == home)
    ensures End(START, run).clientsMade <= 1
    ensures forall t, u :: t in End(START, run).calls && u in End(START, run).calls
                           && End(START, run).calls[t].stage.Returned? && End(START, run).calls[u].stage.Returned? ==>
                             End(START, run).calls[t].stage.client == End(START, run).calls[u].stage.client
  {
    var l := Ledger(None, 0, 0);
    OneLoopIsOrderly(START, l, run, home);
    OrderlyRunsStayFrugal(START, l, run);
    NoForeignClients(START, run);
    var end := End(START, run);
    forall t, u | t in end.calls && u in end.calls && end.calls[t].stage.Returned? && end.calls[u].stage.Returned?
      ensures end.calls[t].stage.client == end.calls[u].stage.client
    {
      OneHome(START, run, home, t);
      OneHome(START, run, home, u);
    }
  }

  lemma {:induction false} OneLoopIsOrderly(s: State, l: Ledger, run: seq<Event>, home: nat)
    requires Possible(s, run)
    requires forall t :: t in s.calls ==> s.calls[t].home == home
    requires l.loop.Some? ==> l.loop.value == home
    requires forall i :: 0 <= i < |run| ==> run[i] != Dropped && (run[i].Enter? ==> run[i].home == home)
    ensures Orderly(s, run)
    ensures Noted(l, run).switches == l.switches && Noted(l, run).drops == l.drops
    decreases |run|
  {
    if run != [] {
      assert run[0] != Dropped;
      forall i | 0 <= i < |run[1..]|
        ensures run[1..][i] != Dropped && (run[1..][i].Enter? ==> run[1..][i].home == home)
      {
        assert run[1..][i] == run[i + 1];
      }
      OneLoopIsOrderly(Apply(s, run[0]), Note(l, run[0]), run[1..], home);
    }
  }

  lemma {:induction false} OneHome(s: State, run: seq<Event>, home: nat, t: nat)
    requires Possible(s, run)
    requires forall u :: u in s.calls ==> s.calls[u].home == home
    requires forall i :: 0 <= i < |run| ==> run[i].Enter? ==> run[i].home == home
    ensures t in End(s, run).calls ==> End(s, run).calls[t].home == home
    decreases |run|
  {
    if run != [] {
      assert run[0].Enter? ==> run[0].home == home;
      forall i | 0 <= i < |run[1..]| ensures run[1..][i].Enter? ==> run[1..][i].home == home {
        assert run[1..][i] == run[i + 1];
      }
      OneHome(Apply(s, run[0]), run[1..], home, t);
    }
  }
}
