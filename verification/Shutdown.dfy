/**
 Subprocess shutdown in src/worker/work_handler.py: `_processes`, `_aborting`, the
 signal handler `abort`, and the spawn, check and discard of a processing subprocess.
 Each method is one uninterrupted stretch; the signal may fall between any two of them.
 */
module Shutdown {

  class WorkHandler {
    var processes: set<nat>
    var aborting: bool
    /** Subprocesses whose return code is known. */
    var exited: set<nat>
    /** The history: subprocesses past the spawn, past the check that follows it, and sent each signal. */
    var spawned: set<nat>
    var isChecked: set<nat>
    var terminated: set<nat>
    var killed: set<nat>
    /** Still running when their waiter gave up on them before any abort. */
    var abandoned: set<nat>

    /**
     A running subprocess past its check has been sent SIGTERM exactly if the shutdown
     has begun and its waiter had not given it up before.
     */
    ghost predicate Valid()
      reads this
    {
      && processes <= spawned && isChecked <= spawned && exited <= spawned
      && terminated <= spawned && killed <= spawned && abandoned <= spawned
      && (forall p :: p in spawned && p !in exited && p !in processes && !aborting ==> p in abandoned)
      && (forall p :: p in abandoned ==> p in isChecked && p !in processes)
      && (forall p :: p in spawned && p !in isChecked ==> p in processes)
      && (!aborting ==> terminated == {} && killed == {})
      && (forall p :: p in isChecked && p !in exited ==> (p in terminated <==> aborting && p !in abandoned))
    }

    constructor ()
      ensures Valid() && !aborting && spawned == {}
    {
      processes, aborting, exited := {}, false, {};
      spawned, isChecked, terminated, killed, abandoned := {}, {}, {}, {}, {};
    }

    /** The subprocess is there and joins the live set. */
    method Register(p: nat)
      requires Valid() && p !in spawned
      modifies this`processes, this`spawned
      ensures Valid() && processes == old(processes) + {p} && spawned == old(spawned) + {p}
    {
      processes := processes + {p};
      spawned := spawned + {p};
    }

    /** A shutdown that began before the spawn is passed on. */
    method Check(p: nat)
      requires Valid() && p in spawned && p !in isChecked
      modifies this`isChecked, this`terminated
      ensures Valid() && isChecked == old(isChecked) + {p}
      ensures terminated == old(terminated) + if aborting then {p} else {}
    {
      if aborting {
        terminated := terminated + {p};
      }
      isChecked := isChecked + {p};
    }

    /** The signal handler: SIGTERM to every registered subprocess that still runs. */
    method Abort()
      requires Valid()
      modifies this`aborting, this`terminated
      ensures Valid() && aborting
      ensures terminated == old(terminated) + (processes - exited)
      ensures forall p :: p in isChecked && p !in exited && p !in abandoned ==> p in terminated
    {
      aborting := true;
      terminated := terminated + (processes - exited);
    }

    method Exit(p: nat)
      requires Valid() && p in spawned
      modifies this`exited
      ensures Valid() && exited == old(exited) + {p}
    {
      exited := exited + {p};
    }

    /** The `finally` of the waiter; a cancelled waiter leaves while the subprocess still runs. */
    method Leave(p: nat)
      requires Valid() && p in isChecked
      modifies this`processes, this`abandoned
      ensures Valid() && processes == old(processes) - {p}
      ensures abandoned == old(abandoned) + if !aborting && p !in exited then {p} else {}
    {
      if !aborting && p !in exited {
        abandoned := abandoned + {p};
      }
      processes := processes - {p};
    }

    /** The grace period is over: SIGKILL to whatever is registered and still runs. */
    method ForceKill()
      requires Valid() && aborting
      modifies this`killed
      ensures Valid()
      ensures killed == old(killed) + (processes - exited)
      ensures forall p :: p in processes && p !in exited ==> p in killed
    {
      killed := killed + (processes - exited);
    }
  }

  datatype Event = Register(p: nat) | Check(p: nat) | Signal | Exit(p: nat) | Leave(p: nat) | Grace

  /** Any sequence of events that can happen keeps the guarantee. */
  method Serve(handler: WorkHandler, events: seq<Event>)
    requires handler.Valid()
    modifies handler
    ensures handler.Valid()
    ensures Signal in events ==> handler.aborting
    ensures old(handler.aborting) ==> handler.aborting
    ensures handler.aborting ==>
              forall p :: p in handler.isChecked && p !in handler.exited && p !in handler.abandoned ==>
                  p in handler.terminated
  {
    for i := 0 to |events|
      invariant handler.Valid()
      invariant Signal in events[..i] || old(handler.aborting) ==> handler.aborting
    {
      assert events[..i + 1] == events[..i] + [events[i]];
      match events[i] {
        case Register(p) => if p !in handler.spawned { handler.Register(p); }
        case Check(p) => if p in handler.spawned && p !in handler.isChecked { handler.Check(p); }
        case Signal => handler.Abort();
        case Exit(p) => if p in handler.spawned { handler.Exit(p); }
        case Leave(p) => if p in handler.isChecked { handler.Leave(p); }
        case Grace => if handler.aborting { handler.ForceKill(); }
      }
    }
    assert events[..|events|] == events;
  }
}
