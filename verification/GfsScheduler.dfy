/**
 The budgeted discovery of src/data_sources/gfs_producer_source.py: which forecast
 steps of which cycles a tick emits, and why a cold start fills up.
 */
module GfsScheduler {
  import opened Arithmetic
  import opened Calendar
  import opened Common
  import opened GfsNames
  import opened Sorting
  import opened Text

  // --------------------------------------------------------------- settings and world

  datatype Settings = Settings(cyclesToMaintain: int, cap: int, probeFromHours: int, probeToHours: int)

  /** What one tick sees: the clock, the bucket, the cycles whose LIST fails, and the ids in flight. */
  datatype World = World(now: nat, bucket: seq<string>, failing: set<nat>, inProgress: set<string>)

  datatype Unit = Unit(cycle: nat, step: nat)

  // ------------------------------------------------------------------ forecast steps

  /** 0, 3, ..., 48, then 54, 60, ..., 144 (forecast_steps of src/models/gfs_config.py). */
  function ForecastSteps(): (steps: seq<nat>)
    ensures |steps| == 33
    ensures forall i :: 0 <= i < 33 ==> steps[i] == if i < 17 then 3 * i else 48 + 6 * (i - 16)
  {
    seq(17, i requires 0 <= i < 17 => 3 * i) + seq(16, i requires 0 <= i < 16 => 48 + 6 * (i + 1))
  }

  lemma ForecastStepsRise()
    ensures Distinct(ForecastSteps())
    ensures forall s :: s in ForecastSteps() ==> s <= 144
  {
  }

  // ---------------------------------------------------------------- candidate cycles

  const CYCLE_STEP := 6 * HOUR

  /** The last cycle time that is not after `now`. */
  function LatestCycle(now: nat): nat {
    Floor(now, CYCLE_STEP)
  }

  function CycleCount(cyclesToMaintain: int): (k: nat)
    ensures 1 <= k <= 8
  {
    if cyclesToMaintain < 1 then 1 else if cyclesToMaintain > 8 then 8 else cyclesToMaintain
  }

  /** The newest cycle times, six hours apart, newest first. */
  function Cycles(now: nat, k: nat): (cycles: seq<nat>)
    requires now >= 48 * HOUR && k <= 8
    ensures |cycles| == k && forall i :: 0 <= i < k ==> cycles[i] == LatestCycle(now) - CYCLE_STEP * i
  {
    LatestCycleFacts(now);
    seq(k, i requires 0 <= i < k => LatestCycle(now) - CYCLE_STEP * i)
  }

  lemma LatestCycleFacts(now: nat)
    ensures LatestCycle(now) <= now < LatestCycle(now) + CYCLE_STEP
    ensures LatestCycle(now) % CYCLE_STEP == 0
    ensures now >= 48 * HOUR ==> LatestCycle(now) >= 48 * HOUR
  {
    MultipleBelow(now, CYCLE_STEP);
    if now >= 48 * HOUR {
      assert 48 * HOUR == CYCLE_STEP * 8;
      QuotientFirst(CYCLE_STEP, now / CYCLE_STEP, now - LatestCycle(now), 8, 0);
      MulAtLeast(CYCLE_STEP, now / CYCLE_STEP - 8);
      assert CYCLE_STEP * (now / CYCLE_STEP - 8) == LatestCycle(now) - CYCLE_STEP * 8;
    }
  }

  /** An hour of the day at which a cycle is issued. */
  predicate CycleHour(h: nat) {
    h == 0 || h == 6 || h == 12 || h == 18
  }

  lemma CycleHoursAreEverySix(h: nat)
    requires h < 24
    ensures CycleHour(h) <==> h % 6 == 0
  {
  }

  /** Whole hours: the hour of the day is a cycle hour exactly at multiples of six hours. */
  lemma ProbeHour(h: nat)
    ensures HourOf(HOUR * h) < 24 && (CycleHour(HourOf(HOUR * h)) <==> h % 6 == 0)
  {
    var d, r := h / 24, h % 24;
    Split(h, 24);
    assert HOUR * h == DAY * d + HOUR * r;
    Recompose(HOUR * h, d, r, 0, 0, 0);
    CycleHoursAreEverySix(r);
    assert h % 6 == r % 6 by {
      Split(r, 6);
      assert h == 6 * (4 * d + r / 6) + r % 6;
      DivModOf(h, 4 * d + r / 6, r % 6, 6);
    }
  }

  /** How many of the first j probes, hour by hour downward, met a cycle, if the first is r hours past one. */
  function Found(r: nat, j: nat): nat
    requires r < 6
  {
    (j + 5 - r) / 6
  }

  lemma FoundAtMostEight(r: nat, j: nat)
    requires r < 6 && j < 48 && Found(r, j + 1) == Found(r, j) + 1
    ensures Found(r, j) < 8
  {
  }

  /** The j-th probe is a cycle exactly when it raises the count, and then it is the next cycle of the list. */
  lemma ProbeMeetsNextCycle(now: nat, j: nat)
    requires now >= 48 * HOUR && j < 48
    ensures var top, r := now / HOUR, now / HOUR % 6;
            && j <= top
            && (CycleHour(HourOf(HOUR * (top - j))) <==> Found(r, j + 1) == Found(r, j) + 1)
            && (!CycleHour(HourOf(HOUR * (top - j))) <==> Found(r, j + 1) == Found(r, j))
            && (CycleHour(HourOf(HOUR * (top - j))) ==> HOUR * (top - j) == LatestCycle(now) - CYCLE_STEP * Found(r, j))
  {
    var top, r := now / HOUR, now / HOUR % 6;
    HoursSinceStart(now);
    ProbeHour(top - j);
    DivStep(j + 5 - r, 6);
    SameMod6(top, r, j);
    if (j + 6 - r) % 6 == 0 {
      Split(j + 6 - r, 6);
      assert j == r + 6 * Found(r, j);
      assert HOUR * (top - j) == HOUR * (top - r) - CYCLE_STEP * Found(r, j);
    }
  }

  lemma SameMod6(top: nat, r: nat, j: nat)
    requires r == top % 6 && j <= top
    ensures (top - j) % 6 == 0 <==> (j + 6 - r) % 6 == 0
  {
  }

  lemma HoursSinceStart(now: nat)
    requires now >= 48 * HOUR
    ensures now / HOUR >= 48
    ensures LatestCycle(now) == HOUR * (now / HOUR - now / HOUR % 6)
  {
    var top := now / HOUR;
    Split(now, HOUR);
    QuotientFirst(HOUR, top, now % HOUR, 48, 0);
    Split(top, 6);
    assert now == CYCLE_STEP * (top / 6) + (HOUR * (top % 6) + now % HOUR);
    DivModOf(now, top / 6, HOUR * (top % 6) + now % HOUR, CYCLE_STEP);
  }

  lemma CyclesNext(now: nat, k: nat)
    requires now >= 48 * HOUR && k < 8
    ensures LatestCycle(now) - CYCLE_STEP * k >= 0
    ensures Cycles(now, k + 1) == Cycles(now, k) + [LatestCycle(now) - CYCLE_STEP * k]
    ensures LatestCycle(now) - CYCLE_STEP * k !in Cycles(now, k)
  {
    LatestCycleFacts(now);
  }

  /** The j-th probe: j hours before the current hour. */
  function ProbeAt(now: nat, j: nat): nat
    requires now >= 48 * HOUR && j <= 48
  {
    HoursSinceStart(now);
    HOUR * (now / HOUR - j)
  }

  /** The list after j probes that were all looked at. */
  ghost predicate Met(cycles: seq<nat>, now: nat, j: nat)
    requires now >= 48 * HOUR
  {
    |cycles| == Found(now / HOUR % 6, j) <= 8 && cycles == Cycles(now, |cycles|)
  }

  lemma MetNext(cycles: seq<nat>, now: nat, j: nat)
    requires now >= 48 * HOUR && j < 48 && Met(cycles, now, j)
    ensures ProbeAt(now, j) >= HOUR && ProbeAt(now, j + 1) == ProbeAt(now, j) - HOUR
    ensures CycleHour(HourOf(ProbeAt(now, j))) ==>
              ProbeAt(now, j) !in cycles && Met(cycles + [ProbeAt(now, j)], now, j + 1)
    ensures !CycleHour(HourOf(ProbeAt(now, j))) ==> Met(cycles, now, j + 1)
  {
    HoursSinceStart(now);
    ProbeMeetsNextCycle(now, j);
    if CycleHour(HourOf(ProbeAt(now, j))) {
      FoundAtMostEight(now / HOUR % 6, j);
      CyclesNext(now, |cycles|);
    }
  }

  lemma MetAll(cycles: seq<nat>, now: nat)
    requires now >= 48 * HOUR && Met(cycles, now, 48)
    ensures |cycles| == 8
  {
  }

  /** The probe loop: 48 hours back from the current hour, until enough cycles are found. */
  method CandidateCycles(now: nat, cyclesToMaintain: int) returns (cycles: seq<nat>)
    requires now >= 48 * HOUR
    ensures cycles == Cycles(now, CycleCount(cyclesToMaintain))
    ensures |cycles| == if cyclesToMaintain <= 1 then 1 else if cyclesToMaintain >= 8 then 8 else cyclesToMaintain
  {
    cycles := [];
    var probe := HOUR * (now / HOUR);
    for j := 0 to 48
      invariant probe == ProbeAt(now, j) && Met(cycles, now, j)
      invariant |cycles| == 0 || |cycles| < cyclesToMaintain
    {
      MetNext(cycles, now, j);
      if CycleHour(HourOf(probe)) {
        if probe !in cycles {
          cycles := cycles + [probe];
        }
        if |cycles| >= cyclesToMaintain {
          return;
        }
      }
      probe := probe - HOUR;
    }
    MetAll(cycles, now);
  }

  /** The candidates are the cycle times among the newest k, and no others. */
  lemma CandidatesAreNewest(now: nat, k: nat, c: nat)
    requires now >= 48 * HOUR && k <= 8
    ensures c in Cycles(now, k) <==>
              c % CYCLE_STEP == 0 && c <= now && LatestCycle(now) - CYCLE_STEP * k < c
    ensures Distinct(Cycles(now, k))
  {
    LatestCycleFacts(now);
    var latest := LatestCycle(now);
    if c % CYCLE_STEP == 0 && c <= now && latest - CYCLE_STEP * k < c {
      MultiplesBelow(latest, c, CYCLE_STEP, k);
      if c > latest {
        SameRemainder(c, latest, CYCLE_STEP);
        MultipleGap(c - latest, CYCLE_STEP);
      }
      assert Cycles(now, k)[(latest - c) / CYCLE_STEP] == c;
    }
    if c in Cycles(now, k) {
      var i :| 0 <= i < k && Cycles(now, k)[i] == c;
      QuotientFirst(CYCLE_STEP, i, 0, k, 0);
      MulAtLeast(CYCLE_STEP, i);
      DivModOf(latest - c, i, 0, CYCLE_STEP);
      SameRemainder(latest, c, CYCLE_STEP);
    }
    CyclesDistinct(now, k);
  }

  lemma CyclesDistinct(now: nat, k: nat)
    requires now >= 48 * HOUR && k <= 8
    ensures Distinct(Cycles(now, k))
  {
  }

  /** Two multiples less than k steps apart. */
  lemma MultiplesBelow(x: int, y: int, n: nat, k: nat)
    requires n > 0 && x % n == 0 && y % n == 0 && x - n * k < y
    ensures (x - y) / n < k && x - n * ((x - y) / n) == y
  {
    SameRemainder(x, y, n);
    Split(x - y, n);
    QuotientFirst(n, (x - y) / n, 0, k, 0);
  }

  // ------------------------------------------------------------------ cached steps

  /** S3Client.list_files(prefix, ".grib2"): not folder markers, below the prefix, with the pattern anywhere. */
  predicate IsGrib(key: string, cycle: nat) {
    StartsWith(key, GribFolder(cycle)) && !EndsWith(key, "/") && Contains(key, SUFFIX)
  }

  /** A folder marker is no GRIB, whatever it is called. */
  lemma FolderMarkersAreSkipped(folder: string, cycle: nat)
    ensures !IsGrib(folder + "/", cycle)
  {
    assert (folder + "/")[|folder + "/"| - 1..] == "/";
  }

  function StepsOf(keys: seq<string>, cycle: nat): set<int> {
    if keys == [] then {} else
    var last := keys[|keys| - 1];
    StepsOf(keys[..|keys| - 1], cycle)
    + if IsGrib(last, cycle) && StepFromKey(last).Some? then {StepFromKey(last).value} else {}
  }

  /** A failed LIST reads as nothing cached. */
  function Cached(w: World, cycle: nat): set<int> {
    if cycle in w.failing then {} else StepsOf(w.bucket, cycle)
  }

  method CachedSteps(w: World, cycle: nat) returns (steps: set<int>)
    ensures steps == Cached(w, cycle)
  {
    steps := {};
    if cycle in w.failing {
      return;
    }
    for i := 0 to |w.bucket|
      invariant steps == StepsOf(w.bucket[..i], cycle)
    {
      assert w.bucket[..i + 1][..i] == w.bucket[..i];
      if IsGrib(w.bucket[i], cycle) {
        match StepFromKey(w.bucket[i]) {
          case None =>
          case Some(step) => steps := steps + {step};
        }
      }
    }
    assert w.bucket[..|w.bucket|] == w.bucket;
  }

  lemma {:induction false} StepsOfKeys(keys: seq<string>, cycle: nat, i: nat)
    requires i < |keys| && IsGrib(keys[i], cycle) && StepFromKey(keys[i]).Some?
    ensures StepFromKey(keys[i]).value in StepsOf(keys, cycle)
  {
    if i < |keys| - 1 {
      StepsOfKeys(keys[..|keys| - 1], cycle, i);
    }
  }

  lemma KeyIsGrib(cycle: nat, step: nat)
    ensures IsGrib(GribKey(cycle, step), cycle)
  {
    var key, folder, name := GribKey(cycle, step), GribFolder(cycle), ImageId(cycle, step) + SUFFIX;
    assert key == folder + name;
    assert key[..|folder|] == folder;
    var i := |folder| + |ImageId(cycle, step)|;
    assert i + |SUFFIX| == |key| && key[i..i + |SUFFIX|] == SUFFIX;
    assert FoundAt(key, SUFFIX, i);
    assert key[|key| - 1] == '2' && key[|key| - 1..][0] == '2';
  }

  /** A stored step is seen as cached by the next successful LIST. */
  lemma StoredStepIsCached(w: World, cycle: nat, step: nat)
    requires step < 1000 && cycle !in w.failing && GribKey(cycle, step) in w.bucket
    ensures step in Cached(w, cycle)
  {
    var key := GribKey(cycle, step);
    KeyRoundTrip(cycle, step);
    KeyIsGrib(cycle, step);
    var i :| 0 <= i < |w.bucket| && w.bucket[i] == key;
    StepsOfKeys(w.bucket, cycle, i);
  }

  // ---------------------------------------------------------------- what is missing

  /** Old enough to be published, and not given up: past the last probe only if something is cached. */
  predicate Eligible(w: World, s: Settings, cycle: nat) {
    && w.now - cycle >= s.probeFromHours * HOUR
    && (w.now - cycle > s.probeToHours * HOUR ==> Cached(w, cycle) != {})
  }

  /** Nothing to do for the unit: it is cached or in flight. */
  predicate Settled(w: World, u: Unit) {
    u.step in Cached(w, u.cycle) || ImageId(u.cycle, u.step) in w.inProgress
  }

  function UnitsOf(cycle: nat): (units: seq<Unit>)
    ensures |units| == 33 && forall i :: 0 <= i < 33 ==> units[i] == Unit(cycle, ForecastSteps()[i])
  {
    seq(33, i requires 0 <= i < 33 => Unit(cycle, ForecastSteps()[i]))
  }

  function Unsettled(w: World): Unit -> bool {
    u => !Settled(w, u)
  }

  /** The missing steps of one cycle, in forecast order. */
  function Missing(w: World, s: Settings, cycle: nat): seq<Unit> {
    if Eligible(w, s, cycle) then Filter(UnitsOf(cycle), Unsettled(w)) else []
  }

  function MissingLists(w: World, s: Settings, cycles: seq<nat>): (lists: seq<seq<Unit>>)
    ensures |lists| == |cycles| && forall i :: 0 <= i < |lists| ==> lists[i] == Missing(w, s, cycles[i])
  {
    seq(|cycles|, i requires 0 <= i < |cycles| => Missing(w, s, cycles[i]))
  }

  function Flatten(lists: seq<seq<Unit>>): seq<Unit> {
    if lists == [] then [] else lists[0] + Flatten(lists[1..])
  }

  lemma {:induction false} FlattenOfConcat(a: seq<seq<Unit>>, b: seq<seq<Unit>>)
    ensures Flatten(a + b) == Flatten(a) + Flatten(b)
  {
    if a == [] {
      assert a + b == b;
    } else {
      FlattenOfConcat(a[1..], b);
      assert (a + b)[1..] == a[1..] + b;
    }
  }

  /** The missing steps of all candidate cycles, newest cycle first. */
  function AllMissing(w: World, s: Settings, cycles: seq<nat>): seq<Unit> {
    Flatten(MissingLists(w, s, cycles))
  }

  function Take(units: seq<Unit>, budget: int): seq<Unit> {
    if budget <= 0 then [] else if budget >= |units| then units else units[..budget]
  }

  // ------------------------------------------------------------------------- a tick

  method DiscoverCycle(w: World, s: Settings, cycle: nat, budget: int) returns (units: seq<Unit>)
    requires budget > 0
    ensures units == Take(Missing(w, s, cycle), budget)
  {
    if w.now - cycle < s.probeFromHours * HOUR {
      return [];
    }
    var cached := CachedSteps(w, cycle);
    if w.now - cycle > s.probeToHours * HOUR && cached == {} {
      return [];
    }
    var missing := Filter(UnitsOf(cycle), Unsettled(w));
    if missing == [] {
      return [];
    }
    units := if budget >= |missing| then missing else missing[..budget];
  }

  /** One tick emits the first `cap` missing steps, newest cycle first; a cap of zero or less emits none. */
  method DiscoverImages(w: World, s: Settings) returns (emitted: seq<Unit>)
    requires w.now >= 48 * HOUR
    ensures emitted == Take(AllMissing(w, s, Cycles(w.now, CycleCount(s.cyclesToMaintain))), s.cap)
  {
    var cycles := CandidateCycles(w.now, s.cyclesToMaintain);
    ghost var lists := MissingLists(w, s, cycles);
    emitted := [];
    for i := 0 to |cycles|
      invariant emitted == Take(Flatten(lists[..i]), s.cap)
    {
      NextList(lists, i, s.cap);
      var budget := s.cap - |emitted|;
      if budget <= 0 {
        break;
      }
      var more := DiscoverCycle(w, s, cycles[i], budget);
      emitted := emitted + more;
    }
    assert lists[..|cycles|] == lists;
  }

  /** One more cycle uses what the budget leaves; without budget the rest could add nothing. */
  lemma NextList(lists: seq<seq<Unit>>, i: nat, cap: int)
    requires i < |lists|
    ensures var emitted := Take(Flatten(lists[..i]), cap);
            && (cap - |emitted| > 0 ==> Take(Flatten(lists[..i + 1]), cap) == emitted + Take(lists[i], cap - |emitted|))
            && (cap - |emitted| <= 0 ==> Take(Flatten(lists), cap) == emitted)
  {
    assert lists[..i + 1] == lists[..i] + [lists[i]];
    FlattenOfConcat(lists[..i], [lists[i]]);
    assert Flatten([lists[i]]) == lists[i];
    FlattenOfConcat(lists[..i], lists[i..]);
    assert lists == lists[..i] + lists[i..];
  }
}
