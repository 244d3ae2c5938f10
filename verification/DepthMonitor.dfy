/**
 QueueDepthMonitor of src/metrics_api/queue_monitor.py.  The executor has one thread, so
 probes and the close run one after the other.  Times are microseconds of the monotonic
 clock; what the broker does is a parameter of each probe.
 */
module DepthMonitors {
  import opened Calendar
  import opened Common

  const BACKOFF := 30_000_000

  datatype Log = Failed | Recovered

  /** One connect, by the client factory or by a client that redials during a read, and when it failed if it did. */
  datatype Attempt = Attempt(at: int, failedAt: Option<int>, redial: bool)

  /**
   How the broker answers: whether an existing connection is still up, whether connecting
   succeeds, how the redials fare that get_queue_size makes for connections lost between
   the reads, and whether the reads then succeed.
   */
  datatype Broker = Broker(stillConnected: bool, accepts: bool, redials: seq<bool>, readable: bool,
                           work: nat, radar: nat, wrf: nat, dlq: nat)

  datatype Depths = Unreachable | Depths(work: nat, radarLight: nat, wrfLight: nat, light: nat, dlq: nat)

  /** When a factory call failed; failed redials set no back-off. */
  function Failure(a: Attempt): Option<int> {
    if a.redial then None else a.failedAt
  }

  /** No connect of either kind within the back-off of a failed factory call. */
  ghost predicate Spaced(attempts: seq<Attempt>) {
    forall i :: 0 < i < |attempts| && Failure(attempts[i - 1]).Some? ==>
                  attempts[i].at >= Failure(attempts[i - 1]).value + 30 * SECOND
  }

  function LastFailure(attempts: seq<Attempt>): Option<int> {
    if attempts == [] then None else Failure(attempts[|attempts| - 1])
  }

  lemma SpacedNext(attempts: seq<Attempt>, a: Attempt)
    requires Spaced(attempts)
    requires LastFailure(attempts).Some? ==> a.at >= LastFailure(attempts).value + BACKOFF
    ensures Spaced(attempts + [a]) && LastFailure(attempts + [a]) == Failure(a)
  {
    var all := attempts + [a];
    forall i | 0 < i < |all| && Failure(all[i - 1]).Some?
      ensures all[i].at >= Failure(all[i - 1]).value + 30 * SECOND
    {
      assert all[i - 1] == attempts[i - 1];
      if i < |attempts| {
        assert all[i] == attempts[i];
      }
    }
  }

  /** The redials of one probe, up to the first that fails. */
  function Redialled(at: int, redials: seq<bool>): seq<Attempt> {
    if redials == [] then []
    else if redials[0] then [Attempt(at, None, true)] + Redialled(at, redials[1..])
    else [Attempt(at, Some(at), true)]
  }

  predicate AllSucceed(redials: seq<bool>) {
    forall i :: 0 <= i < |redials| ==> redials[i]
  }

  /** Failed, recovered, failed, ... */
  ghost predicate Alternating(logs: seq<Log>) {
    forall i :: 0 <= i < |logs| ==> logs[i] == if i % 2 == 0 then Failed else Recovered
  }

  /** The call of the client factory in a probe. */
  function Called(now: int, later: int, broker: Broker): Attempt {
    Attempt(now, if broker.accepts then None else Some(later), false)
  }

  class QueueDepthMonitor {
    var hasClient: bool
    var healthy: Option<bool>
    var retryAfter: int
    ghost var attempts: seq<Attempt>
    ghost var logs: seq<Log>

    /** After a failed factory call there is no client and the back-off is set. */
    ghost predicate Connects()
      reads this
    {
      && Spaced(attempts)
      && (LastFailure(attempts).Some? ==> !hasClient && retryAfter >= LastFailure(attempts).value + BACKOFF)
    }

    /** The logs alternate, failures first, and tell the current health. */
    ghost predicate Tells()
      reads this
    {
      Alternating(logs) && (healthy == Some(false) <==> |logs| % 2 == 1)
    }

    ghost predicate Valid()
      reads this
    {
      Connects() && Tells()
    }

    constructor ()
      ensures Valid() && !hasClient && healthy == None && retryAfter == 0 && attempts == [] && logs == []
    {
      hasClient, healthy, retryAfter := false, None, 0;
      attempts, logs := [], [];
    }

    method Discard()
      requires Connects()
      modifies this`hasClient
      ensures Connects() && !hasClient
    {
      hasClient := false;
    }

    method MarkHealthy()
      requires Tells()
      modifies this`healthy, this`logs
      ensures Tells() && healthy == Some(true)
      ensures logs == old(logs) + if old(healthy) == Some(false) then [Recovered] else []
    {
      if healthy == Some(false) {
        logs := logs + [Recovered];
      }
      healthy := Some(true);
    }

    method MarkUnhealthy(backoff: bool, now: int)
      requires Tells() && Spaced(attempts)
      requires LastFailure(attempts).Some? ==> backoff && LastFailure(attempts).value <= now
      modifies this`healthy, this`logs, this`hasClient, this`retryAfter
      ensures Valid() && healthy == Some(false) && !hasClient
      ensures logs == old(logs) + if old(healthy) == Some(false) then [] else [Failed]
      ensures retryAfter == if backoff then now + 30 * SECOND else old(retryAfter)
    {
      if healthy != Some(false) {
        logs := logs + [Failed];
      }
      healthy := Some(false);
      hasClient := false;
      if backoff {
        retryAfter := now + BACKOFF;
      }
    }

    /** Reuse a live connection; otherwise discard it and call the factory, which may fail. */
    method EnsureClient(now: int, later: int, broker: Broker) returns (ok: bool)
      requires Valid() && (hasClient || now >= retryAfter)
      modifies this`hasClient, this`attempts
      ensures Spaced(attempts) && Tells()
      ensures var reused := old(hasClient) && broker.stillConnected;
              && ok == hasClient == (reused || broker.accepts)
              && attempts == old(attempts)
                             + (if reused then [] else [Called(now, later, broker)])
      ensures LastFailure(attempts) == if ok then None else Some(later)
    {
      if !hasClient || !broker.stillConnected {
        SpacedNext(attempts, Called(now, later, broker));
        attempts := attempts + [Called(now, later, broker)];
        hasClient := broker.accepts;
      }
      ok := hasClient;
    }

    /** The redials while the depths are read: each lost connection is dialled again, until one fails. */
    method Redial(later: int, redials: seq<bool>) returns (ok: bool)
      requires Spaced(attempts) && LastFailure(attempts) == None
      modifies this`attempts
      ensures Spaced(attempts) && LastFailure(attempts) == None
      ensures attempts == old(attempts) + Redialled(later, redials) && ok == AllSucceed(redials)
    {
      for i := 0 to |redials|
        invariant Spaced(attempts) && LastFailure(attempts) == None && AllSucceed(redials[..i])
        invariant attempts + Redialled(later, redials[i..]) == old(attempts) + Redialled(later, redials)
      {
        var a := Attempt(later, if redials[i] then None else Some(later), true);
        assert redials[i..][0] == redials[i] && redials[i..][1..] == redials[i + 1..];
        var rest := Redialled(later, redials[i + 1..]);
        assert attempts + ([a] + rest) == (attempts + [a]) + rest;
        SpacedNext(attempts, a);
        attempts := attempts + [a];
        if !redials[i] {
          return false;
        }
      }
      return true;
    }

    /** A probe starts at `now`, and notes a failed connect and reads at `later`. */
    method Probe(now: int, later: int, broker: Broker) returns (depths: Depths)
      requires Valid() && now <= later
      modifies this
      ensures Valid()
      ensures var waiting := !old(hasClient) && now < old(retryAfter);
              var reused := old(hasClient) && broker.stillConnected;
              var reading := !waiting && (reused || broker.accepts);
              var served := reading && AllSucceed(broker.redials) && broker.readable;
              && (depths == if served
                            then Depths(broker.work, broker.radar, broker.wrf, broker.radar + broker.wrf, broker.dlq)
                            else Unreachable)
              && hasClient == served
              && retryAfter == (if waiting || reading then old(retryAfter) else later + 30 * SECOND)
              && healthy == (if waiting then old(healthy) else Some(served))
              && attempts == old(attempts) + (if waiting || reused then [] else [Called(now, later, broker)])
                             + (if reading then Redialled(later, broker.redials) else [])
              && logs == old(logs) + (if waiting || served == (old(healthy) != Some(false)) then []
                                      else [if served then Recovered else Failed])
    {
      if !hasClient && now < retryAfter {
        return Unreachable;
      }
      var ok := EnsureClient(now, later, broker);
      if !ok {
        MarkUnhealthy(true, later);
        return Unreachable;
      }
      ok := Redial(later, broker.redials);
      if !ok || !broker.readable {
        MarkUnhealthy(false, later);
        return Unreachable;
      }
      MarkHealthy();
      depths := Depths(broker.work, broker.radar, broker.wrf, broker.radar + broker.wrf, broker.dlq);
    }

    method Close()
      requires Valid()
      modifies this`hasClient
      ensures Valid() && !hasClient
    {
      Discard();
    }
  }

  /** A failed redial is followed at once by a call of the factory: the back-off guards factory calls only. */
  method RedialWithoutBackoff() returns (m: QueueDepthMonitor)
    ensures fresh(m) && m.attempts == [Attempt(0, None, false), Attempt(1, Some(1), true), Attempt(1, None, false)]
  {
    m := new QueueDepthMonitor();
    var lost := Broker(true, true, [false], true, 0, 0, 0, 0);
    var back := Broker(true, true, [], true, 0, 0, 0, 0);
    assert Redialled(1, [false]) == [Attempt(1, Some(1), true)] && !AllSucceed([false]) by {
      assert ![false][0];
    }
    var _ := m.Probe(0, 1, lost);
    var _ := m.Probe(1, 1, back);
  }
}
