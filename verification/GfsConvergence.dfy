/**
 What the per-tick budget of src/data_sources/gfs_producer_source.py adds up to: no unit
 is emitted twice in a tick, and enough ticks leave nothing missing.
 */
module GfsConvergence {
  import opened Arithmetic
  import opened Calendar
  import opened Common
  import opened GfsNames
  import opened GfsScheduler
  import opened Sorting

  // ----------------------------------------------------------------- what is missing

  lemma {:induction false} FlattenHas(lists: seq<seq<Unit>>, u: Unit)
    ensures u in Flatten(lists) <==> exists i :: 0 <= i < |lists| && u in lists[i]
  {
    if lists != [] {
      FlattenHas(lists[1..], u);
      if i :| 0 <= i < |lists| && u in lists[i] {
        if i > 0 {
          assert lists[1..][i - 1] == lists[i];
        }
      }
      if i :| 0 <= i < |lists[1..]| && u in lists[1..][i] {
        assert lists[i + 1] == lists[1..][i];
      }
    }
  }

  lemma UnitsOfHas(cycle: nat, u: Unit)
    ensures u in UnitsOf(cycle) <==> u.cycle == cycle && u.step in ForecastSteps()
    ensures Distinct(UnitsOf(cycle))
  {
    ForecastStepsRise();
    if u.cycle == cycle && u.step in ForecastSteps() {
      var i :| 0 <= i < 33 && ForecastSteps()[i] == u.step;
      assert UnitsOf(cycle)[i] == u;
    }
    forall i, j | 0 <= i < j < 33 ensures UnitsOf(cycle)[i] != UnitsOf(cycle)[j] {
      assert ForecastSteps()[i] != ForecastSteps()[j];
    }
  }

  /** The forecast steps of the eligible candidate cycles that are neither cached nor in flight. */
  ghost predicate IsMissing(w: World, s: Settings, cycles: seq<nat>, u: Unit) {
    u.cycle in cycles && Eligible(w, s, u.cycle) && u.step in ForecastSteps() && !Settled(w, u)
  }

  lemma MissingHas(w: World, s: Settings, cycle: nat, u: Unit)
    ensures u in Missing(w, s, cycle) <==>
              u.cycle == cycle && Eligible(w, s, cycle) && u.step in ForecastSteps() && !Settled(w, u)
  {
    UnitsOfHas(cycle, u);
    FilterElements(UnitsOf(cycle), Unsettled(w), u);
  }

  lemma AllMissingMeans(w: World, s: Settings, cycles: seq<nat>, u: Unit)
    ensures u in AllMissing(w, s, cycles) <==> IsMissing(w, s, cycles, u)
  {
    var lists := MissingLists(w, s, cycles);
    FlattenHas(lists, u);
    if i :| 0 <= i < |lists| && u in lists[i] {
      MissingHas(w, s, cycles[i], u);
    }
    if IsMissing(w, s, cycles, u) {
      var i :| 0 <= i < |cycles| && cycles[i] == u.cycle;
      MissingHas(w, s, cycles[i], u);
      assert u in lists[i];
    }
  }

  predicate AnyOrder(u: Unit, v: Unit) {
    true
  }

  lemma {:induction false} FlattenDistinct(lists: seq<seq<Unit>>)
    requires forall i :: 0 <= i < |lists| ==> Distinct(lists[i])
    requires forall i, j, u :: 0 <= i < j < |lists| && u in lists[i] ==> u !in lists[j]
    ensures Distinct(Flatten(lists))
  {
    if lists != [] {
      var rest := Flatten(lists[1..]);
      FlattenDistinct(lists[1..]);
      forall u | u in lists[0] ensures u !in rest {
        FlattenHas(lists[1..], u);
      }
      ConcatDistinct(lists[0], rest);
    }
  }

  lemma ConcatDistinct(a: seq<Unit>, b: seq<Unit>)
    requires Distinct(a) && Distinct(b) && forall u :: u in a ==> u !in b
    ensures Distinct(a + b)
  {
    forall i, j | 0 <= i < j < |a + b| ensures (a + b)[i] != (a + b)[j] {
      if i < |a| <= j {
        assert a[i] in a && b[j - |a|] in b;
      }
    }
  }

  lemma AllMissingDistinct(w: World, s: Settings, cycles: seq<nat>)
    requires Distinct(cycles)
    ensures Distinct(AllMissing(w, s, cycles))
  {
    var lists := MissingLists(w, s, cycles);
    forall i | 0 <= i < |lists| ensures Distinct(lists[i]) {
      UnitsOfHas(cycles[i], Unit(0, 0));
      FilterKeepsOrder(UnitsOf(cycles[i]), Unsettled(w), AnyOrder);
    }
    forall i, j, u | 0 <= i < j < |lists| && u in lists[i] ensures u !in lists[j] {
      MissingHas(w, s, cycles[i], u);
      MissingHas(w, s, cycles[j], u);
    }
    FlattenDistinct(lists);
  }

  /**
   What is missing, in the settings' own hours: a forecast step of a candidate cycle,
   neither cached nor in flight, of a cycle at least `probeFromHours` old, and of one more
   than `probeToHours` old only if something of it is cached.
   */
  lemma MissingByAge(w: World, s: Settings, cycles: seq<nat>, u: Unit)
    ensures u in AllMissing(w, s, cycles) <==>
              && u.cycle in cycles && u.step in ForecastSteps()
              && u.step !in Cached(w, u.cycle) && ImageId(u.cycle, u.step) !in w.inProgress
              && w.now >= u.cycle + s.probeFromHours * HOUR
              && (w.now <= u.cycle + s.probeToHours * HOUR || Cached(w, u.cycle) != {})
  {
    AllMissingMeans(w, s, cycles, u);
  }

  /** A cold cycle between the two ages has all its 33 steps missing; before and after, none. */
  lemma ColdCycle(w: World, s: Settings, cycles: seq<nat>, cycle: nat, step: nat)
    requires cycle in cycles && step in ForecastSteps()
    requires w.bucket == [] && w.inProgress == {}
    ensures Unit(cycle, step) in AllMissing(w, s, cycles)
            <==> s.probeFromHours * HOUR <= w.now - cycle <= s.probeToHours * HOUR
  {
    MissingByAge(w, s, cycles, Unit(cycle, step));
  }

  /** With the default ages of 3 and 8 hours an empty bucket is worked on from the third to the eighth hour. */
  lemma ColdStartWithDefaults(w: World, cap: int, cycles: seq<nat>, cycle: nat, hours: nat, step: nat)
    requires cycle in cycles && w.bucket == [] && w.inProgress == {} && w.now == cycle + hours * HOUR
    requires step in ForecastSteps()
    ensures Unit(cycle, step) in AllMissing(w, Settings(1, cap, 3, 8), cycles) <==> 3 <= hours <= 8
  {
    ColdCycle(w, Settings(1, cap, 3, 8), cycles, cycle, step);
  }

  // ------------------------------------------------------------------------ one tick

  function Candidates(w: World, s: Settings): seq<nat>
    requires w.now >= 48 * HOUR
  {
    Cycles(w.now, CycleCount(s.cyclesToMaintain))
  }

  /** What DiscoverImages emits. */
  function Emitted(w: World, s: Settings): seq<Unit>
    requires w.now >= 48 * HOUR
  {
    Take(AllMissing(w, s, Candidates(w, s)), s.cap)
  }

  /** A tick emits at most the cap, only missing units, and no image id twice. */
  lemma EmittedUnits(w: World, s: Settings)
    requires w.now >= 48 * HOUR && Instant(w.now)
    ensures |Emitted(w, s)| <= if s.cap < 0 then 0 else s.cap
    ensures forall u :: u in Emitted(w, s) ==> IsMissing(w, s, Candidates(w, s), u)
    ensures var n := if s.cyclesToMaintain <= 1 then 1 else if s.cyclesToMaintain >= 8 then 8 else s.cyclesToMaintain;
            forall u :: u in Emitted(w, s) ==> LatestCycle(w.now) - 6 * HOUR * n < u.cycle <= w.now
    ensures forall i, j :: 0 <= i < j < |Emitted(w, s)| ==>
                             ImageId(Emitted(w, s)[i].cycle, Emitted(w, s)[i].step)
                             != ImageId(Emitted(w, s)[j].cycle, Emitted(w, s)[j].step)
  {
    var cycles, units := Candidates(w, s), Emitted(w, s);
    CyclesDistinct(w.now, CycleCount(s.cyclesToMaintain));
    AllMissingDistinct(w, s, cycles);
    forall u | u in units
      ensures IsMissing(w, s, cycles, u)
      ensures LatestCycle(w.now) - CYCLE_STEP * CycleCount(s.cyclesToMaintain) < u.cycle <= w.now
    {
      AllMissingMeans(w, s, cycles, u);
      CandidatesAreNewest(w.now, CycleCount(s.cyclesToMaintain), u.cycle);
    }
    forall i, j | 0 <= i < j < |units|
      ensures ImageId(units[i].cycle, units[i].step) != ImageId(units[j].cycle, units[j].step)
    {
      assert units[i] in units && units[j] in units;
      CandidateOnMinute(w, s, units[i].cycle);
      CandidateOnMinute(w, s, units[j].cycle);
      ForecastStepsRise();
      ImageIdIsFaithful(units[i].cycle, units[i].step, units[j].cycle, units[j].step);
    }
  }

  lemma CandidateOnMinute(w: World, s: Settings, c: nat)
    requires w.now >= 48 * HOUR && Instant(w.now) && c in Candidates(w, s)
    ensures Instant(c) && c % MINUTE == 0
  {
    CandidatesAreNewest(w.now, CycleCount(s.cyclesToMaintain), c);
    MultipleOfMultiple(c, MINUTE, 360);
  }

  // ---------------------------------------------------------------------- over ticks

  /** Between two ticks: LISTs succeed, stored files stay, and what was emitted or in flight is so or is stored. */
  ghost predicate Follows(w: World, next: World, s: Settings) {
    && w.now >= 48 * HOUR && next.now >= 48 * HOUR
    && Candidates(next, s) == Candidates(w, s)
    && (forall c :: c in Candidates(w, s) ==> c !in w.failing && c !in next.failing)
    && (forall c :: c in Candidates(w, s) ==> Eligible(next, s, c) == Eligible(w, s, c))
    && (forall k :: k in w.bucket ==> k in next.bucket)
    && (forall u :: u in Emitted(w, s) ==> Kept(next, u))
    && (forall u: Unit :: ImageId(u.cycle, u.step) in w.inProgress ==> Kept(next, u))
  }

  ghost predicate Kept(w: World, u: Unit) {
    ImageId(u.cycle, u.step) in w.inProgress || GribKey(u.cycle, u.step) in w.bucket
  }

  lemma {:induction false} StepHasKey(keys: seq<string>, cycle: nat, step: int) returns (i: nat)
    requires step in StepsOf(keys, cycle)
    ensures i < |keys| && IsGrib(keys[i], cycle) && StepFromKey(keys[i]) == Some(step)
  {
    var n := |keys| - 1;
    if step in StepsOf(keys[..n], cycle) {
      i := StepHasKey(keys[..n], cycle, step);
    } else {
      i := n;
    }
  }

  lemma CachedStays(w: World, next: World, cycle: nat, step: int)
    requires cycle !in next.failing && step in Cached(w, cycle)
    requires forall k :: k in w.bucket ==> k in next.bucket
    ensures step in Cached(next, cycle)
  {
    var i := StepHasKey(w.bucket, cycle, step);
    assert w.bucket[i] in next.bucket;
    var j :| 0 <= j < |next.bucket| && next.bucket[j] == w.bucket[i];
    StepsOfKeys(next.bucket, cycle, j);
  }

  lemma KeptIsSettled(w: World, u: Unit)
    requires Kept(w, u) && u.cycle !in w.failing && u.step < 1000
    ensures Settled(w, u)
  {
    if GribKey(u.cycle, u.step) in w.bucket {
      StoredStepIsCached(w, u.cycle, u.step);
    }
  }

  /** What is missing next was missing before and was not emitted. */
  lemma NextMissing(w: World, next: World, s: Settings, u: Unit)
    requires Follows(w, next, s) && u in AllMissing(next, s, Candidates(w, s))
    ensures u in AllMissing(w, s, Candidates(w, s)) && u !in Emitted(w, s)
  {
    var cycles := Candidates(w, s);
    AllMissingMeans(next, s, cycles, u);
    AllMissingMeans(w, s, cycles, u);
    ForecastStepsRise();
    if u in Emitted(w, s) || ImageId(u.cycle, u.step) in w.inProgress {
      KeptIsSettled(next, u);
    }
    if u.step in Cached(w, u.cycle) {
      CachedStays(w, next, u.cycle, u.step);
    }
  }

  /** Distinct elements of a list are no more than the list is long. */
  lemma {:induction false} DistinctFit<T>(a: seq<T>, b: seq<T>)
    requires Distinct(a) && forall u :: u in a ==> u in b
    ensures |a| <= |b|
  {
    if a != [] {
      assert a[0] in a;
      var i :| 0 <= i < |b| && b[i] == a[0];
      var rest := b[..i] + b[i + 1..];
      forall u | u in a[1..] ensures u in rest {
        var k :| 0 <= k < |a[1..]| && a[1..][k] == u;
        assert a[k + 1] == u && u in a && u != a[0];
        assert b == b[..i] + [b[i]] + b[i + 1..];
      }
      DistinctFit(a[1..], rest);
    }
  }

  function MissingCount(w: World, s: Settings): nat
    requires w.now >= 48 * HOUR
  {
    |AllMissing(w, s, Candidates(w, s))|
  }

  /** Every tick works off a full cap, or all that is left. */
  lemma TickShrinks(w: World, next: World, s: Settings)
    requires s.cap > 0 && Follows(w, next, s)
    ensures MissingCount(next, s) <= if MissingCount(w, s) <= s.cap then 0 else MissingCount(w, s) - s.cap
  {
    var cycles := Candidates(w, s);
    var after := AllMissing(next, s, cycles);
    CyclesDistinct(w.now, CycleCount(s.cyclesToMaintain));
    AllMissingDistinct(next, s, cycles);
    forall u | u in after ensures u in AllMissing(w, s, cycles) && u !in Emitted(w, s) {
      NextMissing(w, next, s, u);
    }
    WorkedOff(AllMissing(w, s, cycles), s.cap, after);
  }

  lemma WorkedOff(before: seq<Unit>, cap: nat, after: seq<Unit>)
    requires Distinct(after) && forall u :: u in after ==> u in before && u !in Take(before, cap)
    ensures |after| <= if |before| <= cap then 0 else |before| - cap
  {
    var emitted := Take(before, cap);
    var rest := before[|emitted|..];
    assert before == emitted + rest;
    DistinctFit(after, rest);
  }

  lemma {:induction false} TicksShrink(ws: seq<World>, s: Settings)
    requires s.cap > 0 && |ws| > 0 && ws[0].now >= 48 * HOUR
    requires forall i :: 0 <= i < |ws| - 1 ==> Follows(ws[i], ws[i + 1], s)
    ensures ws[|ws| - 1].now >= 48 * HOUR
    ensures MissingCount(ws[|ws| - 1], s) == 0 ||
            MissingCount(ws[|ws| - 1], s) + s.cap * (|ws| - 1) <= MissingCount(ws[0], s)
  {
    if |ws| > 1 {
      var n := |ws| - 2;
      var front := ws[..n + 1];
      forall i | 0 <= i < n ensures Follows(front[i], front[i + 1], s) {
        assert Follows(ws[i], ws[i + 1], s);
      }
      TicksShrink(front, s);
      assert Follows(ws[n], ws[n + 1], s);
      TickShrinks(ws[n], ws[n + 1], s);
      assert s.cap * (n + 1) == s.cap * n + s.cap;
    }
  }

  ghost predicate NothingMissing(w: World, s: Settings)
    requires w.now >= 48 * HOUR
  {
    forall u :: !IsMissing(w, s, Candidates(w, s), u)
  }

  /** After enough ticks for the backlog nothing is missing, and the next tick emits nothing. */
  lemma BacklogFillsUp(ws: seq<World>, s: Settings)
    requires s.cap > 0 && |ws| > 0 && ws[0].now >= 48 * HOUR
    requires forall i :: 0 <= i < |ws| - 1 ==> Follows(ws[i], ws[i + 1], s)
    requires s.cap * (|ws| - 1) >= MissingCount(ws[0], s)
    ensures ws[|ws| - 1].now >= 48 * HOUR
    ensures Emitted(ws[|ws| - 1], s) == []
    ensures NothingMissing(ws[|ws| - 1], s)
  {
    TicksShrink(ws, s);
    var last := ws[|ws| - 1];
    assert AllMissing(last, s, Candidates(last, s)) == [];
    forall u ensures !IsMissing(last, s, Candidates(last, s), u) {
      AllMissingMeans(last, s, Candidates(last, s), u);
    }
  }
}
