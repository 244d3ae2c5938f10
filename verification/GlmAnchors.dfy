/**
 The clock-aligned windows a file belongs to: _anchors_covering of
 src/data_sources/goes19_glm.py.  Times are microseconds; the two cadence settings
 are whole minutes, which the source's constructor requires to be positive.
 */
module GlmAnchors {
  import opened Arithmetic
  import opened Calendar
  import opened Common

  datatype Cadence = Cadence(accumMinutes: nat, stepMinutes: nat) {
    predicate Valid() { accumMinutes > 0 && stepMinutes > 0 }

    function Accum(): (d: nat)
      ensures Valid() ==> d > 0
    {
      MINUTE * accumMinutes
    }

    function Step(): (d: nat)
      ensures Valid() ==> d > 0
    {
      MINUTE * stepMinutes
    }
  }

  function HourStart(t: nat): nat {
    Floor(t, HOUR)
  }

  /** The last multiple of the step past the hour that is not after `t`. */
  function Latest(t: nat, step: nat): nat
    requires step > 0
  {
    HourStart(t) + Floor(t - HourStart(t), step)
  }

  lemma LatestFacts(t: nat, step: nat)
    requires step > 0
    ensures t - HOUR < HourStart(t) <= Latest(t, step) <= t < Latest(t, step) + step
    ensures HourStart(t) % HOUR == 0
  {
    MultipleBelow(t, HOUR);
    MultipleBelow(t - HourStart(t), step);
  }

  /** The window [a, a + accum) holds `t`. */
  predicate Covers(a: int, t: int, accum: nat) {
    a <= t < a + accum
  }

  /** The anchors from `anchor` downward whose windows hold `t`, latest first. */
  function AnchorsFrom(anchor: int, t: int, accum: nat, step: nat): seq<int>
    requires step > 0
    decreases anchor + accum - t
  {
    if Covers(anchor, t, accum) then [anchor] + AnchorsFrom(anchor - step, t, accum, step) else []
  }

  function Anchors(t: nat, cadence: Cadence): seq<int>
    requires cadence.Valid()
  {
    AnchorsFrom(Latest(t, cadence.Step()), t, cadence.Accum(), cadence.Step())
  }

  /** The loop of the source. */
  method AnchorsCovering(t: nat, cadence: Cadence) returns (anchors: seq<int>)
    requires cadence.Valid()
    ensures anchors == Anchors(t, cadence)
  {
    var step, accum := cadence.Step(), cadence.Accum();
    var anchor: int := Latest(t, step);
    anchors := [];
    while anchor <= t < anchor + accum
      invariant anchors + AnchorsFrom(anchor, t, accum, step) == Anchors(t, cadence)
      decreases anchor + accum - t
    {
      var rest := AnchorsFrom(anchor - step, t, accum, step);
      assert anchors + ([anchor] + rest) == (anchors + [anchor]) + rest;
      anchors := anchors + [anchor];
      anchor := anchor - step;
    }
  }

  /** Membership: whole steps below the starting anchor, and still covering. */
  lemma {:induction false} AnchorsFromMembers(anchor: int, t: int, accum: nat, step: nat, a: int)
    requires step > 0 && anchor <= t
    ensures a in AnchorsFrom(anchor, t, accum, step) <==>
              a <= anchor && (anchor - a) % step == 0 && Covers(a, t, accum)
    decreases anchor + accum - t
  {
    if Covers(anchor, t, accum) {
      AnchorsFromMembers(anchor - step, t, accum, step, a);
      ModMinus(anchor - a, step);
      if a < anchor && (anchor - a) % step == 0 {
        MultipleGap(anchor - a, step);
      }
      if a == anchor {
        DivModOf(0, 0, 0, step);
      }
    }
  }

  lemma {:induction false} AnchorsDescend(anchor: int, t: int, accum: nat, step: nat)
    requires step > 0
    ensures forall i :: 0 <= i < |AnchorsFrom(anchor, t, accum, step)| ==>
            AnchorsFrom(anchor, t, accum, step)[i] <= anchor
    ensures Distinct(AnchorsFrom(anchor, t, accum, step))
    decreases anchor + accum - t
  {
    if Covers(anchor, t, accum) {
      AnchorsDescend(anchor - step, t, accum, step);
    }
  }

  lemma AnchorsDistinct(t: nat, cadence: Cadence)
    requires cadence.Valid()
    ensures Distinct(Anchors(t, cadence))
  {
    AnchorsDescend(Latest(t, cadence.Step()), t, cadence.Accum(), cadence.Step());
  }

  // -------------------------------------------------------------- aligned to the clock

  /** At a multiple of the step past its own hour. */
  predicate Aligned(a: int, step: nat)
    requires step > 0
  {
    (a % HOUR) % step == 0
  }

  /** What the docstring promises: all clock-aligned anchors whose window holds the file. */
  ghost predicate ListsAlignedAnchors(t: nat, cadence: Cadence)
    requires cadence.Valid()
  {
    forall a: int :: a in Anchors(t, cadence) <==> Aligned(a, cadence.Step()) && Covers(a, t, cadence.Accum())
  }

  /** Remainders by a divisor of n can be taken after the remainder by n. */
  lemma RemainderOfRemainder(x: int, n: int, d: int)
    requires n > 0 && d > 0 && n % d == 0
    ensures (x % n) % d == x % d
  {
    Split(x, n);
    Split(n, d);
    assert x - x % n == d * ((n / d) * (x / n));
    DivModOf(x - x % n, (n / d) * (x / n), 0, d);
    SameRemainder(x, x % n, d);
  }

  lemma LatestRemainder(t: nat, step: nat)
    requires step > 0
    ensures (Latest(t, step) - HourStart(t)) % step == 0
  {
    DivModOf(Latest(t, step) - HourStart(t), (t - HourStart(t)) / step, 0, step);
  }

  /** Within the file's own hour the two notions agree, whatever the step. */
  lemma AlignedInHour(t: nat, step: nat, a: int)
    requires step > 0 && HourStart(t) <= a <= t
    ensures Aligned(a, step) <==> a <= Latest(t, step) && (Latest(t, step) - a) % step == 0
  {
    LatestFacts(t, step);
    DivModOf(a, t / HOUR, a - HourStart(t), HOUR);
    LatestRemainder(t, step);
    var x, y := Latest(t, step) - HourStart(t), a - HourStart(t);
    SameRemainder(x, y, step);
    assert x - y == Latest(t, step) - a;
    if y % step == 0 && a > Latest(t, step) {
      SameRemainder(y, x, step);
      MultipleGap(y - x, step);
    }
  }

  /** When the step divides the hour, hours do not matter. */
  lemma AlignedAcrossHours(t: nat, step: nat, a: int)
    requires step > 0 && HOUR % step == 0 && a <= t
    ensures Aligned(a, step) <==> a <= Latest(t, step) && (Latest(t, step) - a) % step == 0
  {
    LatestFacts(t, step);
    LatestRemainder(t, step);
    RemainderOfRemainder(a, HOUR, step);
    RemainderOfRemainder(HourStart(t), HOUR, step);
    DivModOf(0, 0, 0, step);
    SameRemainder(Latest(t, step), HourStart(t), step);
    SameRemainder(Latest(t, step), a, step);
    if a % step == 0 && a > Latest(t, step) {
      SameRemainder(a, Latest(t, step), step);
      MultipleGap(a - Latest(t, step), step);
    }
  }

  /** An aligned anchor of an earlier hour is at least the remainder before this hour. */
  lemma AlignedBeforeHour(h: int, step: nat, a: int)
    requires step > 0 && h % HOUR == 0 && a < h && Aligned(a, step)
    ensures a + HOUR % step <= h
  {
    BlockEnds(a, h, HOUR);
    LastMultiple(a % HOUR, HOUR, step);
  }

  /** Short windows never reach across an hour. */
  lemma ShortWindowsStayInHour(t: nat, cadence: Cadence, a: int)
    requires cadence.Valid() && cadence.Accum() <= HOUR % cadence.Step()
    requires Covers(a, t, cadence.Accum())
    requires || Aligned(a, cadence.Step())
             || (a <= Latest(t, cadence.Step()) && (Latest(t, cadence.Step()) - a) % cadence.Step() == 0)
    ensures HourStart(t) <= a
  {
    var step := cadence.Step();
    LatestFacts(t, step);
    if a < HourStart(t) {
      if Aligned(a, step) {
        AlignedBeforeHour(HourStart(t), step, a);
      } else {
        LatestRemainder(t, step);
        SameRemainder(Latest(t, step), a, step);
        SameRemainder(Latest(t, step), HourStart(t), step);
        SameRemainder(HourStart(t), a, step);
        MultipleGap(HourStart(t) - a, step);
        Split(HOUR, step);
      }
    }
  }

  lemma AlignedAnchorsListed(t: nat, cadence: Cadence)
    requires cadence.Valid()
    requires HOUR % cadence.Step() == 0 || cadence.Accum() <= HOUR % cadence.Step()
    ensures ListsAlignedAnchors(t, cadence)
  {
    var step, accum := cadence.Step(), cadence.Accum();
    LatestFacts(t, step);
    forall a: int
      ensures a in Anchors(t, cadence) <==> Aligned(a, step) && Covers(a, t, accum)
    {
      AnchorsFromMembers(Latest(t, step), t, accum, step, a);
      if Covers(a, t, accum) {
        if HOUR % step == 0 {
          AlignedAcrossHours(t, step, a);
        } else if HourStart(t) <= a {
          AlignedInHour(t, step, a);
        } else if Aligned(a, step) || (a <= Latest(t, step) && (Latest(t, step) - a) % step == 0) {
          ShortWindowsStayInHour(t, cadence, a);
        }
      }
    }
  }

  /** On the hour, the last aligned anchor of the previous hour is missed. */
  lemma MissedAcrossHour(cadence: Cadence)
    requires cadence.Valid()
    requires HOUR % cadence.Step() != 0 && cadence.Accum() > HOUR % cadence.Step()
    ensures Aligned(HOUR - HOUR % cadence.Step(), cadence.Step())
    ensures Covers(HOUR - HOUR % cadence.Step(), HOUR, cadence.Accum())
    ensures HOUR - HOUR % cadence.Step() !in Anchors(HOUR, cadence)
  {
    var step, r := cadence.Step(), HOUR % cadence.Step();
    WithoutRemainder(HOUR, step);
    LatestOnTheHour(step);
    AnchorsFromMembers(HOUR, HOUR, cadence.Accum(), step, HOUR - r);
    SmallMod(r, step);
    SmallMod(HOUR - r, HOUR);
  }

  lemma LatestOnTheHour(step: nat)
    requires step > 0
    ensures Latest(HOUR, step) == HOUR
  {
    DivModOf(HOUR, 1, 0, HOUR);
    SmallMod(0, step);
  }

  /** The same condition in minutes. */
  lemma ConditionInMinutes(cadence: Cadence)
    requires cadence.Valid()
    ensures HOUR % cadence.Step() == MINUTE * (60 % cadence.stepMinutes)
  {
    var n := cadence.stepMinutes;
    Split(60, n);
    assert HOUR == cadence.Step() * (60 / n) + MINUTE * (60 % n) by {
      assert MINUTE * (n * (60 / n)) == (MINUTE * n) * (60 / n);
    }
    assert MINUTE * (60 % n) < cadence.Step();
    DivModOf(HOUR, 60 / n, MINUTE * (60 % n), cadence.Step());
  }

  /**
   Every file gets exactly its clock-aligned windows if and only if the step divides
   the hour or the windows are no longer than what the steps leave of an hour.
   */
  lemma AnchorsAlignedExactlyWhen(cadence: Cadence)
    requires cadence.Valid()
    ensures (forall t: nat :: ListsAlignedAnchors(t, cadence)) <==>
              || 60 % cadence.stepMinutes == 0
              || cadence.accumMinutes <= 60 % cadence.stepMinutes
  {
    ConditionInMinutes(cadence);
    if 60 % cadence.stepMinutes == 0 || cadence.accumMinutes <= 60 % cadence.stepMinutes {
      forall t: nat ensures ListsAlignedAnchors(t, cadence) {
        AlignedAnchorsListed(t, cadence);
      }
    } else {
      MissedAcrossHour(cadence);
      assert !ListsAlignedAnchors(HOUR, cadence);
    }
  }

  // ---------------------------------------------------------- how many windows per file

  lemma {:induction false} CountFrom(anchor: int, t: int, accum: nat, step: nat, m: nat)
    requires step > 0 && anchor <= t
    requires step * (m - 1) < anchor + accum - t <= step * m
    ensures |AnchorsFrom(anchor, t, accum, step)| == m
    decreases m
  {
    if m > 0 {
      assert step * (m - 1) == step * m - step;
      if m == 1 {
        assert AnchorsFrom(anchor - step, t, accum, step) == [];
      } else {
        assert step * (m - 2) == step * m - 2 * step;
        MulAtLeast(step, m - 1);
        CountFrom(anchor - step, t, accum, step, m - 1);
      }
    }
  }

  /** With whole steps per window, every file is in exactly that many windows. */
  lemma WindowsPerFile(t: nat, cadence: Cadence)
    requires cadence.Valid() && cadence.accumMinutes % cadence.stepMinutes == 0
    ensures |Anchors(t, cadence)| == cadence.accumMinutes / cadence.stepMinutes
  {
    var step, m := cadence.Step(), cadence.accumMinutes / cadence.stepMinutes;
    Split(cadence.accumMinutes, cadence.stepMinutes);
    assert cadence.Accum() == step * m by {
      assert MINUTE * (cadence.stepMinutes * m) == (MINUTE * cadence.stepMinutes) * m;
    }
    LatestFacts(t, step);
    assert step * (m - 1) == step * m - step;
    CountFrom(Latest(t, step), t, cadence.Accum(), step, m);
  }

  /** Equal step and length that divide the hour: every file has one window, the aligned one that holds it. */
  lemma EqualCadencePartitions(t: nat, cadence: Cadence, a: int)
    requires cadence.Valid() && cadence.accumMinutes == cadence.stepMinutes && 60 % cadence.stepMinutes == 0
    ensures Anchors(t, cadence) == [Latest(t, cadence.Step())]
    ensures Aligned(a, cadence.Step()) && Covers(a, t, cadence.Accum()) <==> a == Latest(t, cadence.Step())
  {
    var n := cadence.stepMinutes;
    DivModOf(n, 1, 0, n);
    WindowsPerFile(t, cadence);
    LatestFacts(t, cadence.Step());
    ConditionInMinutes(cadence);
    AlignedAnchorsListed(t, cadence);
    assert Anchors(t, cadence)[0] == Latest(t, cadence.Step());
    assert a in Anchors(t, cadence) <==> a == Latest(t, cadence.Step());
  }
}
