/**
 datetime.isoformat() of UTC instants, as the progress table and the metrics database
 store and compare them (src/clients/progress_tracker.py,
 src/clients/metrics_repository.py).  Python drops the fraction when it is zero, so
 the strings differ in length; they still sort in time order.
 */
module IsoTimestamps {
  import opened Arithmetic
  import opened Text
  import opened Calendar

  const LAYOUT: seq<Slot> :=
    [Slot(4, "-"), Slot(2, "-"), Slot(2, "T"), Slot(2, ":"), Slot(2, ":"), Slot(2, "")]

  function DateAndTime(t: nat): seq<nat> {
    var day := DayNumber(t);
    [YearOf(day), MonthOf(day), DayOfMonth(day), HourOf(t), MinuteOf(t), SecondOf(t)]
  }

  function Fraction(microsecond: nat): string {
    (if microsecond == 0 then "" else "." + Digits(microsecond, 6)) + "+00:00"
  }

  function IsoFormat(t: nat): string
    requires Instant(t)
  {
    Render(DateAndTime(t), LAYOUT, Fraction(MicrosecondOf(t)))
  }

  /** The text shows the date, a "T" and the time; a zero fraction is left out. */
  lemma IsoShowsTheDate(year: nat, month: nat, day: nat, hour: nat, minute: nat, second: nat, microsecond: nat)
    requires ValidDate(year, month, day) && ValidTime(hour, minute, second, microsecond)
    requires Instant(DateTime(year, month, day, hour, minute, second, microsecond))
    ensures
      var fraction := if microsecond == 0 then "+00:00" else "." + Digits(microsecond, 6) + "+00:00";
      var clock := Digits(hour, 2) + (":" + (Digits(minute, 2) + (":" + (Digits(second, 2) + fraction))));
      IsoFormat(DateTime(year, month, day, hour, minute, second, microsecond))
      == Digits(year, 4) + ("-" + (Digits(month, 2) + ("-" + (Digits(day, 2) + ("T" + clock)))))
  {
    hide DateTime, Digits, Render;
    DateTimeFields(year, month, day, hour, minute, second, microsecond);
    assert DateAndTime(DateTime(year, month, day, hour, minute, second, microsecond))
        == [year, month, day, hour, minute, second];
    RenderSix([year, month, day, hour, minute, second], Fraction(microsecond));
    assert "" + "+00:00" == "+00:00";
  }

  lemma RenderSix(v: seq<nat>, tail: string)
    requires |v| == 6
    ensures
      var clock := Digits(v[3], 2) + (":" + (Digits(v[4], 2) + (":" + (Digits(v[5], 2) + tail))));
      Render(v, LAYOUT, tail) == Digits(v[0], 4) + ("-" + (Digits(v[1], 2) + ("-" + (Digits(v[2], 2) + ("T" + clock)))))
  {
    assert Render([], [], tail) == tail && "" + tail == tail;
    hide Digits, Render;
    RenderFirst(v[5..], LAYOUT[5..], tail);
    RenderFirst(v[4..], LAYOUT[4..], tail);
    RenderFirst(v[3..], LAYOUT[3..], tail);
    RenderFirst(v[2..], LAYOUT[2..], tail);
    RenderFirst(v[1..], LAYOUT[1..], tail);
    RenderFirst(v, LAYOUT, tail);
    assert v[5..][1..] == [] && v[4..][1..] == v[5..] && v[3..][1..] == v[4..];
    assert v[2..][1..] == v[3..] && v[1..][1..] == v[2..];
    assert LAYOUT[5..][1..] == [] && LAYOUT[4..][1..] == LAYOUT[5..] && LAYOUT[3..][1..] == LAYOUT[4..];
    assert LAYOUT[2..][1..] == LAYOUT[3..] && LAYOUT[1..][1..] == LAYOUT[2..];
  }

  lemma FractionOrder(u: nat, v: nat)
    requires u < SECOND && v < SECOND
    ensures Before(Fraction(u), Fraction(v)) <==> u < v
  {
    assert SECOND == Pow10(6) by {
      assert Pow10(2) == 100 && Pow10(4) == 100 * Pow10(2) && Pow10(6) == 100 * Pow10(4);
    }
    if u > 0 && v > 0 {
      DigitsOrder(u, v, 6);
      DigitsAreFaithful(u, v, 6);
      BeforeOfConcat("." + Digits(u, 6), "+00:00", "." + Digits(v, 6), "+00:00");
      BeforeOfConcat(".", Digits(u, 6), ".", Digits(v, 6));
      BeforeIsStrict(".");
      BeforeIsStrict("+00:00");
      if Digits(u, 6) != Digits(v, 6) {
        assert ("." + Digits(u, 6))[1..] == Digits(u, 6);
        assert ("." + Digits(v, 6))[1..] == Digits(v, 6);
      }
    } else if u == 0 && v == 0 {
      BeforeIsStrict(Fraction(0));
    } else {
      assert Fraction(0)[0] == '+';
    }
  }

  lemma FieldsFit(t: nat)
    requires Instant(t)
    ensures Fits(DateAndTime(t), LAYOUT)
  {
    InstantYears(t);
    SmallPowers();
  }

  /** Instants sort by date, then by time of day. */
  lemma InstantOrder(t: nat, u: nat)
    ensures t < u <==> DayNumber(t) < DayNumber(u) || (DayNumber(t) == DayNumber(u) && TimeOfDay(t) < TimeOfDay(u))
  {
    QuotientFirst(DAY, DayNumber(t), TimeOfDay(t), DayNumber(u), TimeOfDay(u));
  }

  lemma TimeOfDayOrder(t: nat, u: nat)
    ensures TimeOfDay(t) < TimeOfDay(u) <==>
              || Precedes(Clock(t), Clock(u))
              || (Clock(t) == Clock(u) && MicrosecondOf(t) < MicrosecondOf(u))
  {
    ClockOrder(t, u);
    ClockOrder(u, t);
    MicrosecondsLast(t, u);
    PrecedesThree(HourOf(t), MinuteOf(t), SecondOf(t), HourOf(u), MinuteOf(u), SecondOf(u));
  }

  lemma PrecedesThree(a: nat, b: nat, c: nat, x: nat, y: nat, z: nat)
    ensures Precedes([a, b, c], [x, y, z]) <==> a < x || (a == x && (b < y || (b == y && c < z)))
    ensures [a, b, c] == [x, y, z] <==> a == x && b == y && c == z
  {
    assert [c][1..] == [z][1..] == [];
    assert Precedes([c], [z]) <==> c < z;
    assert [b, c][1..] == [c] && [y, z][1..] == [z];
    assert Precedes([b, c], [y, z]) <==> b < y || (b == y && c < z);
    assert [a, b, c][1..] == [b, c] && [x, y, z][1..] == [y, z];
    assert [a, b, c] == [x, y, z] ==>
           [a, b, c][0] == [x, y, z][0] && [a, b, c][1] == [x, y, z][1] && [a, b, c][2] == [x, y, z][2];
  }

  lemma {:induction false} PrecedesOfConcat(a: seq<nat>, x: seq<nat>, b: seq<nat>, y: seq<nat>)
    requires |a| == |b| && |x| == |y|
    ensures Precedes(a + x, b + y) <==> Precedes(a, b) || (a == b && Precedes(x, y))
  {
    if a == [] {
      assert a + x == x && b + y == y;
    } else {
      assert (a + x)[1..] == a[1..] + x && (b + y)[1..] == b[1..] + y;
      PrecedesOfConcat(a[1..], x, b[1..], y);
      assert a == [a[0]] + a[1..] && b == [b[0]] + b[1..];
    }
  }

  /** The six fields sort by date, then by time of day. */
  lemma FieldsOrder(t: nat, u: nat)
    ensures Precedes(DateAndTime(t), DateAndTime(u)) <==>
              || DayNumber(t) < DayNumber(u)
              || (DayNumber(t) == DayNumber(u) && Precedes(Clock(t), Clock(u)))
    ensures DateAndTime(t) == DateAndTime(u) <==> DayNumber(t) == DayNumber(u) && Clock(t) == Clock(u)
  {
    var a, b := DayNumber(t), DayNumber(u);
    var d, e := [YearOf(a), MonthOf(a), DayOfMonth(a)], [YearOf(b), MonthOf(b), DayOfMonth(b)];
    assert DateAndTime(t) == d + Clock(t) && DateAndTime(u) == e + Clock(u);
    assert DateAndTime(t) == DateAndTime(u) ==> d == e && Clock(t) == Clock(u) by {
      assert DateAndTime(t)[..3] == d && DateAndTime(u)[..3] == e;
      assert DateAndTime(t)[3..] == Clock(t) && DateAndTime(u)[3..] == Clock(u);
    }
    PrecedesOfConcat(d, Clock(t), e, Clock(u));
    PrecedesThree(d[0], d[1], d[2], e[0], e[1], e[2]);
    DateOrder(a, b);
  }

  /** Comparing the strings compares the times, whatever fractions were dropped. */
  lemma IsoOrder(t: nat, u: nat)
    requires Instant(t) && Instant(u)
    ensures Before(IsoFormat(t), IsoFormat(u)) <==> t < u
  {
    FieldsFit(t);
    FieldsFit(u);
    RenderOrder(DateAndTime(t), DateAndTime(u), LAYOUT, Fraction(MicrosecondOf(t)), Fraction(MicrosecondOf(u)));
    FractionOrder(MicrosecondOf(t), MicrosecondOf(u));
    FieldsOrder(t, u);
    InstantOrder(t, u);
    TimeOfDayOrder(t, u);
  }
}
