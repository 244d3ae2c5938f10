/**
 The broker as one consumer sees it, and the two-tier poll of
 src/clients/rabbitmq_client.py (poll_one and _basic_get_one).

 A queue is a sequence of message bodies, oldest first.  A body that does not
 decode is dead-lettered on the way and reported as absent, so a poll that finds
 nothing has not necessarily found every queue empty.
 */
module Delivery {
  import opened Arithmetic
  import opened Common

  datatype Body = Decodable(unit: string) | Undecodable(raw: string)

  /** A message together with the queue it was taken from. */
  datatype Held = Held(queue: string, body: Body)

  /** A delivery tag: numbers restart on every channel, so the channel matters. */
  datatype Tag = Tag(epoch: nat, number: nat)

  datatype Delivered = Delivered(held: Held, tag: Tag)

  /** `unacked` belongs to the current channel and is keyed by tag number. */
  datatype Broker = Broker(
    queues: map<string, seq<Body>>,
    dead: seq<Held>,
    acked: seq<Held>,
    unacked: map<nat, Held>,
    nextTag: nat)

  function Waiting(b: Broker, queue: string): seq<Body> {
    if queue in b.queues then b.queues[queue] else []
  }

  predicate HeadReady(b: Broker, queue: string) {
    Waiting(b, queue) != [] && Waiting(b, queue)[0].Decodable?
  }

  predicate HeadSpoiled(b: Broker, queue: string) {
    Waiting(b, queue) != [] && Waiting(b, queue)[0].Undecodable?
  }

  /** _basic_get_one: take the head; dead-letter it when it does not decode. */
  function GetOne(b: Broker, epoch: nat, queue: string): (Option<Delivered>, Broker) {
    var waiting := Waiting(b, queue);
    if waiting == [] then
      (None, b)
    else
      var held := Held(queue, waiting[0]);
      var taken := b.(queues := b.queues[queue := waiting[1..]], nextTag := b.nextTag + 1);
      if held.body.Undecodable? then
        (None, taken.(dead := b.dead + [held]))
      else
        (Some(Delivered(held, Tag(epoch, b.nextTag))),
         taken.(unacked := b.unacked[b.nextTag := held]))
  }

  /** Try `names` in order until one delivers; the last component is its position. */
  function Scan(b: Broker, epoch: nat, names: seq<string>): (Option<Delivered>, Broker, nat)
    decreases |names|
  {
    if names == [] then
      (None, b, 0)
    else
      var (got, next) := GetOne(b, epoch, names[0]);
      if got.Some? then
        (got, next, 0)
      else
        var (later, last, at) := Scan(next, epoch, names[1..]);
        (later, last, at + 1)
  }

  lemma ScanFrom(b: Broker, epoch: nat, names: seq<string>, i: nat)
    requires i < |names|
    ensures Scan(b, epoch, names[i..])
         == var (got, next) := GetOne(b, epoch, names[i]);
            if got.Some? then (got, next, 0)
            else var (later, last, at) := Scan(next, epoch, names[i + 1..]); (later, last, at + 1)
  {
    assert names[i..][0] == names[i] && names[i..][1..] == names[i + 1..];
  }

  /** The light queues in the order one poll visits them. */
  function Rotated(light: seq<string>, cursor: nat): (r: seq<string>)
    ensures |r| == |light|
  {
    seq(|light|, i requires 0 <= i < |light| => light[(cursor + i) % |light|])
  }

  /** poll_one: the strict tier in order, then the light tier from the cursor. */
  function Poll(b: Broker, epoch: nat, cursor: nat, strict: seq<string>, light: seq<string>)
    : (Option<Delivered>, Broker, nat)
  {
    var (urgent, afterStrict, _) := Scan(b, epoch, strict);
    if urgent.Some? then
      (urgent, afterStrict, cursor)
    else
      var (fair, afterLight, offset) := Scan(afterStrict, epoch, Rotated(light, cursor));
      if fair.Some? then
        (fair, afterLight, (cursor + offset + 1) % |light|)
      else
        (None, afterLight, cursor)
  }

  /** The cursor a light delivery leaves behind, computed from the served index. */
  lemma PollServesLight(b: Broker, epoch: nat, cursor: nat, strict: seq<string>, light: seq<string>)
    requires Scan(b, epoch, strict).0.None?
    requires Scan(Scan(b, epoch, strict).1, epoch, Rotated(light, cursor)).0.Some? && light != []
    ensures
      var (fair, last, offset) := Scan(Scan(b, epoch, strict).1, epoch, Rotated(light, cursor));
      Poll(b, epoch, cursor, strict, light) == (fair, last, ((cursor + offset) % |light| + 1) % |light|)
  {
    ModSuccessor(cursor + Scan(Scan(b, epoch, strict).1, epoch, Rotated(light, cursor)).2, |light|);
  }

  // ------------------------------------------------------------------ one scan

  /** A get touches only its own queue, and only the head of it. */
  lemma GetOneFrame(b: Broker, epoch: nat, queue: string)
    ensures
      var (got, next) := GetOne(b, epoch, queue);
      && (got.Some? <==> HeadReady(b, queue))
      && (got.Some? ==> got.value.held == Held(queue, Waiting(b, queue)[0]))
      && (forall q :: q != queue ==> Waiting(next, q) == Waiting(b, q))
      && Waiting(next, queue) == (if Waiting(b, queue) == [] then [] else Waiting(b, queue)[1..])
      && next.dead == b.dead + (if HeadSpoiled(b, queue) then [Held(queue, Waiting(b, queue)[0])] else [])
      && next.acked == b.acked
      && next.unacked == (if got.Some? then b.unacked[got.value.tag.number := got.value.held] else b.unacked)
  {
  }

  /** `held` was dead-lettered between the two states. */
  ghost predicate Buried(before: Broker, after: Broker, held: Held) {
    exists k :: |before.dead| <= k < |after.dead| && after.dead[k] == held
  }

  /** What a scan that stopped at position `at` says about the state it started from. */
  ghost predicate ScanExplains(b: Broker, epoch: nat, names: seq<string>) {
    var (got, next, at) := Scan(b, epoch, names);
    && at <= |names|
    && b.dead <= next.dead
    && (got.None? <==> at == |names|)
    && (forall i :: 0 <= i < at ==> !HeadReady(b, names[i]))
    && (forall i :: 0 <= i < at && HeadSpoiled(b, names[i]) ==>
          Buried(b, next, Held(names[i], Waiting(b, names[i])[0])))
    && (got.Some? ==> got.value.held.queue == names[at] && got.value.held.body.Decodable?)
    && (got.Some? && names[at] !in names[..at] ==>
          HeadReady(b, names[at]) && got.value.held.body == Waiting(b, names[at])[0])
    && next.acked == b.acked
    && next.unacked == (if got.Some? then b.unacked[got.value.tag.number := got.value.held] else b.unacked)
    && (forall q :: q !in names ==> Waiting(next, q) == Waiting(b, q))
  }

  lemma {:induction false} ScanMeaning(b: Broker, epoch: nat, names: seq<string>)
    ensures ScanExplains(b, epoch, names)
    decreases |names|
  {
    if names != [] {
      var (got, next) := GetOne(b, epoch, names[0]);
      GetOneFrame(b, epoch, names[0]);
      if got.None? {
        var (later, last, at) := Scan(next, epoch, names[1..]);
        ScanMeaning(next, epoch, names[1..]);
        forall i | 0 <= i < at + 1
          ensures !HeadReady(b, names[i])
          ensures HeadSpoiled(b, names[i]) ==>
                    Buried(b, last, Held(names[i], Waiting(b, names[i])[0]))
        {
          if i > 0 && names[i] != names[0] {
            assert names[1..][i - 1] == names[i];
            assert Waiting(next, names[i]) == Waiting(b, names[i]);
            if HeadSpoiled(b, names[i]) {
              assert Buried(next, last, Held(names[i], Waiting(b, names[i])[0]));
            }
          } else if HeadSpoiled(b, names[0]) {
            assert last.dead[|b.dead|] == next.dead[|b.dead|] == Held(names[0], Waiting(b, names[0])[0]);
          }
        }
        if later.Some? && names[at + 1] !in names[..at + 1] {
          assert names[..at + 1] == [names[0]] + names[1..][..at];
          assert names[at + 1] != names[0] by { assert names[..at + 1][0] == names[0]; }
          assert Waiting(next, names[at + 1]) == Waiting(b, names[at + 1]);
        }
        forall q | q !in names ensures Waiting(last, q) == Waiting(b, q) {
          assert q !in names[1..];
        }
      }
    }
  }

  /** On distinct names a scan comes back empty-handed exactly when no head was ready. */
  lemma {:induction false} ScanFindsReady(b: Broker, epoch: nat, names: seq<string>)
    requires Distinct(names)
    ensures Scan(b, epoch, names).0.None? <==> forall i :: 0 <= i < |names| ==> !HeadReady(b, names[i])
  {
    var (got, _, at) := Scan(b, epoch, names);
    ScanMeaning(b, epoch, names);
    if got.Some? {
      assert HeadReady(b, names[at]);
    }
  }

  // ------------------------------------------------------- strict before light

  /**
   A poll serves a light queue only when every strict queue was empty or had a
   spoiled head, and each of those spoiled heads was dead-lettered by this poll.
   */
  lemma StrictPriority(b: Broker, epoch: nat, cursor: nat, strict: seq<string>, light: seq<string>)
    ensures
      var (got, next, _) := Poll(b, epoch, cursor, strict, light);
      && b.dead <= next.dead
      && (got.Some? && got.value.held.queue !in strict ==>
            && got.value.held.queue in light
            && forall q :: q in strict ==>
                 && !HeadReady(b, q)
                 && (HeadSpoiled(b, q) ==> Buried(b, next, Held(q, Waiting(b, q)[0]))))
  {
    var (urgent, middle, at) := Scan(b, epoch, strict);
    ScanMeaning(b, epoch, strict);
    if urgent.None? {
      var (fair, last, offset) := Scan(middle, epoch, Rotated(light, cursor));
      ScanMeaning(middle, epoch, Rotated(light, cursor));
      RotatedWithin(light, cursor);
      forall q | q in strict && HeadSpoiled(b, q)
        ensures Buried(b, last, Held(q, Waiting(b, q)[0]))
      {
        var i :| 0 <= i < |strict| && strict[i] == q;
        assert Buried(b, middle, Held(q, Waiting(b, q)[0]));
      }
    }
  }

  /**
   When a poll over distinct names reports None: exactly when no listed queue had a
   ready head at the start of the call.
   */
  lemma PollFindsReady(b: Broker, epoch: nat, cursor: nat, strict: seq<string>, light: seq<string>)
    requires Distinct(strict + light)
    ensures Poll(b, epoch, cursor, strict, light).0.None?
            <==> forall q :: q in strict + light ==> !HeadReady(b, q)
  {
    var names := strict + light;
    assert Distinct(strict) by {
      forall i, j | 0 <= i < j < |strict| ensures strict[i] != strict[j] {
        assert names[i] == strict[i] && names[j] == strict[j];
      }
    }
    var (urgent, middle, _) := Scan(b, epoch, strict);
    ScanMeaning(b, epoch, strict);
    ScanFindsReady(b, epoch, strict);
    if urgent.None? {
      var order := Rotated(light, cursor);
      RotatedIsDistinct(strict, light, cursor);
      RotatedWithin(light, cursor);
      ScanFindsReady(middle, epoch, order);
      forall q | q in light ensures q !in strict && (HeadReady(middle, q) <==> HeadReady(b, q)) {
        var j :| 0 <= j < |light| && light[j] == q;
        assert names[|strict| + j] == q;
        assert forall i :: 0 <= i < |strict| ==> names[i] == strict[i];
      }
      if Scan(middle, epoch, order).0.None? {
        forall q | q in light ensures !HeadReady(b, q) {
          var i := RotatedReaches(light, cursor, q);
          assert !HeadReady(middle, order[i]);
        }
      } else {
        var i :| 0 <= i < |order| && HeadReady(middle, order[i]);
        assert order[i] in light;
        assert HeadReady(b, order[i]);
      }
    }
  }

  lemma CloseNumbersDiffer(x: nat, y: nat, n: nat)
    requires x < y < x + n
    ensures x % n != y % n
  {
    if x % n == y % n {
      var k := y / n - x / n;
      assert n * k == n * (y / n) - n * (x / n);
      assert n * k == y - x;
      MulAtLeast(n, k);
    }
  }

  lemma RotatedIsDistinct(strict: seq<string>, light: seq<string>, cursor: nat)
    requires Distinct(strict + light)
    ensures Distinct(Rotated(light, cursor))
  {
    var n := |light|;
    var order := Rotated(light, cursor);
    forall i, j | 0 <= i < j < n ensures order[i] != order[j] {
      var x, y := (cursor + i) % n, (cursor + j) % n;
      assert x != y by {
        if x == y {
          CloseNumbersDiffer(cursor + i, cursor + j, n);
        }
      }
      assert (strict + light)[|strict| + x] == light[x] && (strict + light)[|strict| + y] == light[y];
    }
  }

  /** Every light queue is visited at some offset: its cyclic distance from the cursor. */
  lemma RotatedReaches(light: seq<string>, cursor: nat, q: string) returns (i: nat)
    requires q in light
    ensures i < |light| && Rotated(light, cursor)[i] == q
  {
    var j :| 0 <= j < |light| && light[j] == q;
    i := Distance(cursor, j, |light|);
    DistanceLands(cursor, j, |light|);
  }

  /**
   The docstring reads None as "every queue is empty".  That reading is right in a
   state exactly when some head is ready or no head is spoiled.
   */
  lemma NoneMeansEmptyUnlessSpoiled(b: Broker, epoch: nat, cursor: nat, strict: seq<string>, light: seq<string>)
    requires Distinct(strict + light)
    ensures
      (Poll(b, epoch, cursor, strict, light).0.None? <==> forall q :: q in strict + light ==> Waiting(b, q) == [])
      <==>
      ((exists q :: q in strict + light && HeadReady(b, q))
       || (forall q :: q in strict + light ==> !HeadSpoiled(b, q)))
  {
    PollFindsReady(b, epoch, cursor, strict, light);
  }

  /** A poll that returns None with a message behind the spoiled head it dead-lettered. */
  lemma NoneHidesMessage(raw: string, unit: string)
    ensures
      var b := Broker(map["work" := [Undecodable(raw), Decodable(unit)]], [], [], map[], 1);
      var (got, next, _) := Poll(b, 0, 0, ["work"], []);
      got.None? && Waiting(next, "work") == [Decodable(unit)] && next.dead == [Held("work", Undecodable(raw))]
  {
    var b := Broker(map["work" := [Undecodable(raw), Decodable(unit)]], [], [], map[], 1);
    var (_, next) := GetOne(b, 0, "work");
    assert ["work"][1..] == [];
    assert Scan(b, 0, ["work"]) == (None, next, 1);
    assert Rotated([], 0) == [];
  }

  /** And one that serves a light queue while a strict one holds a message behind its spoiled head. */
  lemma LightOvertakesStrict(raw: string, urgent: string, light: string)
    ensures
      var b := Broker(map["urgent" := [Undecodable(raw), Decodable(urgent)], "light" := [Decodable(light)]], [], [],
          map[], 1);
      var (got, next, _) := Poll(b, 0, 0, ["urgent"], ["light"]);
      got.Some? && got.value.held == Held("light", Decodable(light)) && Waiting(next, "urgent") == [Decodable(urgent)]
  {
    var b := Broker(map["urgent" := [Undecodable(raw), Decodable(urgent)], "light" := [Decodable(light)]], [], [],
        map[], 1);
    var (_, middle) := GetOne(b, 0, "urgent");
    assert ["urgent"][1..] == [];
    assert Scan(b, 0, ["urgent"]) == (None, middle, 1);
    assert Rotated(["light"], 0) == ["light"];
    assert Waiting(middle, "light") == [Decodable(light)];
  }

  // ------------------------------------------------------------- bounded waiting

  /** Steps from the cursor to light queue `j`, going round. */
  function Distance(cursor: nat, j: nat, n: nat): (d: nat)
    requires j < n
    ensures d < n
  {
    (j + n - cursor % n) % n
  }

  lemma DistanceLands(cursor: nat, j: nat, n: nat)
    requires j < n
    ensures (cursor + Distance(cursor, j, n)) % n == j
  {
    var c := cursor % n;
    var d := Distance(cursor, j, n);
    assert cursor == n * (cursor / n) + c;
    if c <= j {
      DivModOf(j + n - c, 1, j - c, n);
      DivModOf(cursor + d, cursor / n, j, n);
    } else {
      DivModOf(j + n - c, 0, j + n - c, n);
      assert cursor + d == n * (cursor / n) + n + j;
      assert n * (cursor / n) + n == n * (cursor / n + 1);
      DivModOf(cursor + d, cursor / n + 1, j, n);
    }
  }

  lemma RotatedWithin(light: seq<string>, cursor: nat)
    ensures forall q :: q in Rotated(light, cursor) ==> q in light
  {
    forall q | q in Rotated(light, cursor) ensures q in light {
      var i :| 0 <= i < |light| && Rotated(light, cursor)[i] == q;
      assert q == light[(cursor + i) % |light|];
    }
  }

  /**
   One turn of the round robin.  While light queue `j` has a ready head, a poll
   either serves the strict tier and leaves the cursor alone, serves `j`, or brings
   the cursor strictly closer to `j`.
   */
  lemma LightTurn(b: Broker, epoch: nat, cursor: nat, strict: seq<string>, light: seq<string>, j: nat)
    requires j < |light| && light[j] !in strict && HeadReady(b, light[j])
    ensures
      var (got, _, next) := Poll(b, epoch, cursor, strict, light);
      && got.Some?
      && (got.value.held.queue != light[j] ==>
            || (got.value.held.queue in strict && next == cursor)
            || Distance(next, j, |light|) < Distance(cursor, j, |light|))
  {
    var (urgent, middle, _) := Scan(b, epoch, strict);
    ScanMeaning(b, epoch, strict);
    if urgent.None? {
      var (fair, _, offset) := Scan(middle, epoch, Rotated(light, cursor));
      LightScanStops(middle, epoch, cursor, light, j);
      if fair.value.held.queue != light[j] {
        AdvancedDistance(cursor, offset, j, |light|);
      }
    }
  }

  /** A ready queue is served no later than its turn. */
  lemma LightScanStops(b: Broker, epoch: nat, cursor: nat, light: seq<string>, j: nat)
    requires j < |light| && HeadReady(b, light[j])
    ensures
      var (fair, _, offset) := Scan(b, epoch, Rotated(light, cursor));
      && fair.Some?
      && (fair.value.held.queue != light[j] ==> offset < Distance(cursor, j, |light|))
  {
    var order := Rotated(light, cursor);
    var (fair, _, offset) := Scan(b, epoch, order);
    ScanMeaning(b, epoch, order);
    var d := Distance(cursor, j, |light|);
    assert order[d] == light[j] && HeadReady(b, order[d]) by { DistanceLands(cursor, j, |light|); }
  }

  lemma AdvancedDistance(cursor: nat, offset: nat, j: nat, n: nat)
    requires j < n && offset < Distance(cursor, j, n)
    ensures Distance((cursor + offset + 1) % n, j, n) == Distance(cursor, j, n) - offset - 1
  {
    var d := Distance(cursor, j, n);
    var c := (cursor + offset + 1) % n;
    var left := d - offset - 1;
    DistanceLands(cursor, j, n);
    assert cursor + d == n * ((cursor + d) / n) + j;
    assert cursor + offset + 1 == n * ((cursor + offset + 1) / n) + c;
    var k := (cursor + d) / n - (cursor + offset + 1) / n;
    assert n * k == n * ((cursor + d) / n) - n * ((cursor + offset + 1) / n);
    assert c + left == n * k + j;
    MulAtLeast(n, k - 1);
    assert n * (k - 1) == n * k - n;
    MulAtLeast(n, k);
    assert k == 0 || k == 1;
    DivModOf(c, 0, c, n);
    if k == 0 {
      assert j + n - c == n + left;
      DivModOf(n + left, 1, left, n);
    } else {
      assert j + n - c == left;
      DivModOf(left, 0, left, n);
    }
  }

  /** Services of light queues other than `j` over a series of polls. */
  function OtherServices(states: seq<Broker>, epoch: nat, cursor: nat,
                         strict: seq<string>, light: seq<string>, j: nat): nat
    requires j < |light|
    decreases |states|
  {
    if states == [] then
      0
    else
      var (got, _, next) := Poll(states[0], epoch, cursor, strict, light);
      (if got.Some? && got.value.held.queue !in strict && got.value.held.queue != light[j] then 1 else 0)
      + OtherServices(states[1..], epoch, next, strict, light, j)
  }

  /** No poll of the series served light queue `j`. */
  ghost predicate Overlooked(states: seq<Broker>, epoch: nat, cursor: nat,
                             strict: seq<string>, light: seq<string>, j: nat)
    requires j < |light|
    decreases |states|
  {
    states == []
    || (var (got, _, next) := Poll(states[0], epoch, cursor, strict, light);
        && (got.Some? ==> got.value.held.queue != light[j])
        && Overlooked(states[1..], epoch, next, strict, light, j))
  }

  /**
   Bounded waiting.  Whatever other clients do to the queues between polls, while
   light queue `j` keeps a ready head and is not served, the other light queues are
   served at most n - 1 times.
   */
  lemma {:induction false} BoundedWaiting(states: seq<Broker>, epoch: nat, cursor: nat,
                                          strict: seq<string>, light: seq<string>, j: nat)
    requires j < |light| && light[j] !in strict
    requires forall k :: 0 <= k < |states| ==> HeadReady(states[k], light[j])
    requires Overlooked(states, epoch, cursor, strict, light, j)
    ensures OtherServices(states, epoch, cursor, strict, light, j) <= Distance(cursor, j, |light|) < |light|
    decreases |states|
  {
    if states != [] {
      var (got, _, next) := Poll(states[0], epoch, cursor, strict, light);
      LightTurn(states[0], epoch, cursor, strict, light, j);
      BoundedWaiting(states[1..], epoch, next, strict, light, j);
    }
  }

  // ------------------------------------------------------------------- draining

  function Decodables(bodies: seq<Body>): seq<Body> {
    if bodies == [] then [] else (if bodies[0].Decodable? then [bodies[0]] else []) + Decodables(bodies[1..])
  }

  function Spoils(bodies: seq<Body>): seq<Body> {
    if bodies == [] then [] else (if bodies[0].Undecodable? then [bodies[0]] else []) + Spoils(bodies[1..])
  }

  function BodiesFrom(helds: seq<Held>, queue: string): seq<Body> {
    if helds == [] then
      []
    else
      (if helds[0].queue == queue then [helds[0].body] else []) + BodiesFrom(helds[1..], queue)
  }

  lemma {:induction false} BodiesFromConcat(xs: seq<Held>, ys: seq<Held>, queue: string)
    ensures BodiesFrom(xs + ys, queue) == BodiesFrom(xs, queue) + BodiesFrom(ys, queue)
  {
    if xs == [] {
      assert xs + ys == ys;
    } else {
      var head := if xs[0].queue == queue then [xs[0].body] else [];
      BodiesFromConcat(xs[1..], ys, queue);
      assert (xs + ys)[1..] == xs[1..] + ys && (xs + ys)[0] == xs[0];
      Associate(head, BodiesFrom(xs[1..], queue), BodiesFrom(ys, queue));
    }
  }

  lemma Associate<T>(a: seq<T>, b: seq<T>, c: seq<T>)
    ensures a + (b + c) == (a + b) + c
  {
  }

  lemma {:induction false} DecodablesConcat(xs: seq<Body>, ys: seq<Body>)
    ensures Decodables(xs + ys) == Decodables(xs) + Decodables(ys)
  {
    if xs == [] {
      assert xs + ys == ys;
    } else {
      var head := if xs[0].Decodable? then [xs[0]] else [];
      DecodablesConcat(xs[1..], ys);
      assert (xs + ys)[1..] == xs[1..] + ys && (xs + ys)[0] == xs[0];
      Associate(head, Decodables(xs[1..]), Decodables(ys));
    }
  }

  lemma {:induction false} SpoilsConcat(xs: seq<Body>, ys: seq<Body>)
    ensures Spoils(xs + ys) == Spoils(xs) + Spoils(ys)
  {
    if xs == [] {
      assert xs + ys == ys;
    } else {
      var head := if xs[0].Undecodable? then [xs[0]] else [];
      SpoilsConcat(xs[1..], ys);
      assert (xs + ys)[1..] == xs[1..] + ys && (xs + ys)[0] == xs[0];
      Associate(head, Spoils(xs[1..]), Spoils(ys));
    }
  }

  /**
   What happened to one queue: a prefix left it, in whose order the decodable bodies were
   delivered and the spoiled ones dead-lettered; the rest waits as before.
   */
  ghost predicate AccountsFor(before: Broker, delivered: seq<Held>, after: Broker, q: string) {
    var k := |Waiting(before, q)| - |Waiting(after, q)|;
    && k >= 0
    && Waiting(after, q) == Waiting(before, q)[k..]
    && BodiesFrom(delivered, q) == Decodables(Waiting(before, q)[..k])
    && BodiesFrom(after.dead, q) == BodiesFrom(before.dead, q) + Spoils(Waiting(before, q)[..k])
  }

  /** Nothing is lost, duplicated or reordered in any queue. */
  ghost predicate Accounts(before: Broker, delivered: seq<Held>, after: Broker) {
    forall q :: AccountsFor(before, delivered, after, q)
  }

  function HeldOf(got: Option<Delivered>): seq<Held> {
    if got.Some? then [got.value.held] else []
  }

  lemma AccountsCompose(a: Broker, xs: seq<Held>, b: Broker, ys: seq<Held>, c: Broker)
    requires Accounts(a, xs, b) && Accounts(b, ys, c)
    ensures Accounts(a, xs + ys, c)
  {
    forall q ensures AccountsFor(a, xs + ys, c, q) {
      assert AccountsFor(a, xs, b, q) && AccountsFor(b, ys, c, q);
      AccountsForCompose(a, xs, b, ys, c, q);
    }
  }

  lemma AccountsForCompose(a: Broker, xs: seq<Held>, b: Broker, ys: seq<Held>, c: Broker, q: string)
    requires AccountsFor(a, xs, b, q) && AccountsFor(b, ys, c, q)
    ensures AccountsFor(a, xs + ys, c, q)
  {
    var first := Waiting(a, q);
    var j, k := |first| - |Waiting(b, q)|, |Waiting(b, q)| - |Waiting(c, q)|;
    TwoPrefixes(first, j, k);
    BodiesFromConcat(xs, ys, q);
    Associate(BodiesFrom(a.dead, q), Spoils(first[..j]), Spoils(first[j..][..k]));
  }

  lemma TwoPrefixes(first: seq<Body>, j: nat, k: nat)
    requires j + k <= |first|
    ensures first[j..][k..] == first[j + k..]
    ensures Decodables(first[..j + k]) == Decodables(first[..j]) + Decodables(first[j..][..k])
    ensures Spoils(first[..j + k]) == Spoils(first[..j]) + Spoils(first[j..][..k])
  {
    assert first[..j + k] == first[..j] + first[j..][..k];
    DecodablesConcat(first[..j], first[j..][..k]);
    SpoilsConcat(first[..j], first[j..][..k]);
  }

  lemma GetOneAccounts(b: Broker, epoch: nat, queue: string)
    ensures Accounts(b, HeldOf(GetOne(b, epoch, queue).0), GetOne(b, epoch, queue).1)
  {
    var (got, next) := GetOne(b, epoch, queue);
    GetOneFrame(b, epoch, queue);
    forall q ensures AccountsFor(b, HeldOf(got), next, q) {
      if Waiting(b, queue) != [] && q == queue {
        GetOneAccountsHere(b, epoch, queue);
      } else {
        if HeadSpoiled(b, queue) {
          BodiesFromConcat(b.dead, [Held(queue, Waiting(b, queue)[0])], q);
        }
        assert Waiting(b, q)[..0] == [];
      }
    }
  }

  lemma GetOneAccountsHere(b: Broker, epoch: nat, q: string)
    requires Waiting(b, q) != []
    ensures AccountsFor(b, HeldOf(GetOne(b, epoch, q).0), GetOne(b, epoch, q).1, q)
  {
    var head := Waiting(b, q)[0];
    BodiesFromConcat(b.dead, [Held(q, head)], q);
    assert BodiesFrom([Held(q, head)], q) == [head];
    assert Waiting(b, q)[..1] == [head] && [head][1..] == [];
  }

  /** A scan takes from each queue it visits a prefix of spoiled bodies, and perhaps one decodable body. */
  lemma {:induction false} ScanAccounts(b: Broker, epoch: nat, names: seq<string>)
    ensures Accounts(b, HeldOf(Scan(b, epoch, names).0), Scan(b, epoch, names).1)
    decreases |names|
  {
    if names != [] {
      var (got, next) := GetOne(b, epoch, names[0]);
      GetOneAccounts(b, epoch, names[0]);
      if got.None? {
        ScanAccounts(next, epoch, names[1..]);
        var (later, last, _) := Scan(next, epoch, names[1..]);
        AccountsCompose(b, [], next, HeldOf(later), last);
        assert [] + HeldOf(later) == HeldOf(later);
      }
    } else {
      NothingAccounts(b);
    }
  }

  /** One poll delivers at most one message and misplaces none. */
  lemma PollAccounts(b: Broker, epoch: nat, cursor: nat, strict: seq<string>, light: seq<string>)
    ensures Accounts(b, HeldOf(Poll(b, epoch, cursor, strict, light).0), Poll(b, epoch, cursor, strict, light).1)
  {
    var (urgent, middle, _) := Scan(b, epoch, strict);
    ScanAccounts(b, epoch, strict);
    if urgent.None? {
      var (fair, last, _) := Scan(middle, epoch, Rotated(light, cursor));
      ScanAccounts(middle, epoch, Rotated(light, cursor));
      AccountsCompose(b, [], middle, HeldOf(fair), last);
      assert [] + HeldOf(fair) == HeldOf(fair);
    }
  }

  /** Messages waiting in the listed queues. */
  function Size(b: Broker, names: seq<string>): nat {
    if names == [] then 0 else |Waiting(b, names[0])| + Size(b, names[1..])
  }

  predicate AllEmpty(b: Broker, names: seq<string>) {
    forall q :: q in names ==> Waiting(b, q) == []
  }

  /** No queue grew, and if some listed queue held anything then one of them shrank. */
  ghost predicate Shrinks(before: Broker, after: Broker, names: seq<string>) {
    && (forall q :: |Waiting(after, q)| <= |Waiting(before, q)|)
    && (!AllEmpty(before, names) ==> exists q :: q in names && |Waiting(after, q)| < |Waiting(before, q)|)
  }

  lemma {:induction false} ScanShrinks(b: Broker, epoch: nat, names: seq<string>)
    ensures Shrinks(b, Scan(b, epoch, names).1, names)
    decreases |names|
  {
    if names != [] {
      var (got, next) := GetOne(b, epoch, names[0]);
      GetOneFrame(b, epoch, names[0]);
      assert forall q :: |Waiting(next, q)| <= |Waiting(b, q)|;
      if got.None? {
        ScanShrinks(next, epoch, names[1..]);
        var last := Scan(next, epoch, names[1..]).1;
        if Waiting(b, names[0]) != [] {
          assert |Waiting(last, names[0])| < |Waiting(b, names[0])|;
        } else if !AllEmpty(b, names) {
          var q :| q in names && Waiting(b, q) != [];
          assert q in names[1..] && !AllEmpty(next, names[1..]);
        }
      }
    }
  }

  lemma {:induction false} ScanDelivers(b: Broker, epoch: nat, names: seq<string>)
    requires Scan(b, epoch, names).0.Some?
    ensures !AllEmpty(b, names)
    decreases |names|
  {
    var (got, next) := GetOne(b, epoch, names[0]);
    GetOneFrame(b, epoch, names[0]);
    if got.None? {
      ScanDelivers(next, epoch, names[1..]);
      var q :| q in names[1..] && Waiting(next, q) != [];
      assert q in names;
    }
  }

  lemma {:induction false} SizeFalls(before: Broker, after: Broker, names: seq<string>)
    requires forall q :: |Waiting(after, q)| <= |Waiting(before, q)|
    ensures Size(after, names) <= Size(before, names)
    ensures (exists q :: q in names && |Waiting(after, q)| < |Waiting(before, q)|) ==>
            Size(after, names) < Size(before, names)
  {
    if names != [] {
      SizeFalls(before, after, names[1..]);
    }
  }

  /** Every poll removes a message unless all listed queues are empty. */
  lemma PollMakesProgress(b: Broker, epoch: nat, cursor: nat, strict: seq<string>, light: seq<string>)
    ensures Shrinks(b, Poll(b, epoch, cursor, strict, light).1, strict + light)
    ensures !AllEmpty(b, strict + light) ==>
              Size(Poll(b, epoch, cursor, strict, light).1, strict + light) < Size(b, strict + light)
  {
    var (urgent, middle, _) := Scan(b, epoch, strict);
    ScanShrinks(b, epoch, strict);
    ScanMeaning(b, epoch, strict);
    var last := Poll(b, epoch, cursor, strict, light).1;
    assert forall q :: q in strict ==> q in strict + light;
    if urgent.Some? {
      ScanDelivers(b, epoch, strict);
    } else {
      ScanShrinks(middle, epoch, Rotated(light, cursor));
      RotatedWithin(light, cursor);
      if !AllEmpty(b, strict + light) && AllEmpty(b, strict) {
        var q :| q in strict + light && Waiting(b, q) != [];
        assert q in light && q !in strict;
        var i := RotatedReaches(light, cursor, q);
        assert q in Rotated(light, cursor) && Waiting(middle, q) != [];
        var p :| p in Rotated(light, cursor) && |Waiting(last, p)| < |Waiting(middle, p)|;
        assert p in light;
      }
    }
    SizeFalls(b, last, strict + light);
  }

  /** Poll until every listed queue is empty, collecting what was delivered. */
  function Drain(b: Broker, epoch: nat, cursor: nat, strict: seq<string>, light: seq<string>): (seq<Held>, Broker)
    decreases Size(b, strict + light)
  {
    if AllEmpty(b, strict + light) then
      ([], b)
    else
      var (got, next, cursor') := Poll(b, epoch, cursor, strict, light);
      PollMakesProgress(b, epoch, cursor, strict, light);
      var (rest, last) := Drain(next, epoch, cursor', strict, light);
      (HeldOf(got) + rest, last)
  }

  lemma {:induction false} DrainAccounts(b: Broker, epoch: nat, cursor: nat, strict: seq<string>, light: seq<string>)
    ensures
      var (delivered, last) := Drain(b, epoch, cursor, strict, light);
      AllEmpty(last, strict + light) && Accounts(b, delivered, last)
    decreases Size(b, strict + light)
  {
    if AllEmpty(b, strict + light) {
      NothingAccounts(b);
    } else {
      var (got, next, cursor') := Poll(b, epoch, cursor, strict, light);
      var (rest, last) := Drain(next, epoch, cursor', strict, light);
      PollMakesProgress(b, epoch, cursor, strict, light);
      PollAccounts(b, epoch, cursor, strict, light);
      DrainAccounts(next, epoch, cursor', strict, light);
      AccountsCompose(b, HeldOf(got), next, rest, last);
    }
  }

  lemma NothingAccounts(b: Broker)
    ensures Accounts(b, [], b)
  {
    forall q ensures AccountsFor(b, [], b, q) {
      assert Waiting(b, q)[..0] == [];
    }
  }

  /**
   Draining a fixed backlog ends with the listed queues empty; each queue's
   decodable messages were delivered exactly once in queue order, and its spoiled
   ones dead-lettered exactly once in queue order.
   */
  lemma DrainDeliversOnce(b: Broker, epoch: nat, cursor: nat, strict: seq<string>, light: seq<string>)
    ensures
      var (delivered, last) := Drain(b, epoch, cursor, strict, light);
      && AllEmpty(last, strict + light)
      && Accounts(b, delivered, last)
      && (forall q :: q in strict + light ==>
            && BodiesFrom(delivered, q) == Decodables(Waiting(b, q))
            && BodiesFrom(last.dead, q) == BodiesFrom(b.dead, q) + Spoils(Waiting(b, q)))
  {
    var (delivered, last) := Drain(b, epoch, cursor, strict, light);
    DrainAccounts(b, epoch, cursor, strict, light);
    forall q | q in strict + light
      ensures BodiesFrom(delivered, q) == Decodables(Waiting(b, q))
      ensures BodiesFrom(last.dead, q) == BodiesFrom(b.dead, q) + Spoils(Waiting(b, q))
    {
      assert AccountsFor(b, delivered, last, q);
      assert Waiting(last, q) == [] && Waiting(b, q)[..|Waiting(b, q)|] == Waiting(b, q);
    }
  }
}
