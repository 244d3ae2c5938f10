/**
 Cycle names, image ids and cached keys of src/data_sources/gfs_producer_source.py
 (_fmt_cycle, _image_id, _step_from_key) and the key the worker stores a GRIB under
 (src/worker/gfs_grib_downloader.py).
 */
module GfsNames {
  import opened Calendar
  import opened Common
  import opened Text

  const CYCLE_LAYOUT: seq<Slot> := [Slot(4, ""), Slot(2, ""), Slot(2, "T"), Slot(2, ""), Slot(2, "Z")]
  const GRIB_PREFIX := "grib/gfs"
  const SUFFIX := ".grib2"

  function CycleFields(cycle: nat): seq<nat> {
    var day := DayNumber(cycle);
    [YearOf(day), MonthOf(day), DayOfMonth(day), HourOf(cycle), MinuteOf(cycle)]
  }

  function FmtCycle(cycle: nat): string {
    Render(CycleFields(cycle), CYCLE_LAYOUT, "")
  }

  /** `:03d`; three digits hold every forecast step. */
  function ImageId(cycle: nat, step: nat): string {
    FmtCycle(cycle) + ("_f" + Digits(step, 3))
  }

  function GribFolder(cycle: nat): string {
    GRIB_PREFIX + ("/" + (FmtCycle(cycle) + "/"))
  }

  function GribKey(cycle: nat, step: nat): string {
    GribFolder(cycle) + (ImageId(cycle, step) + SUFFIX)
  }

  /** A cycle is named by its date and time of day, a unit by its cycle and step, a key by both. */
  lemma NamesShowTheDate(year: nat, month: nat, day: nat, hour: nat, step: nat)
    requires ValidDate(year, month, day) && hour < 24
    ensures
      var cycle := DateTime(year, month, day, hour, 0, 0, 0);
      var name := Digits(year, 4) + (Digits(month, 2) + (Digits(day, 2) + ("T" + (Digits(hour, 2) + "00Z"))));
      && FmtCycle(cycle) == name
      && ImageId(cycle, step) == name + ("_f" + Digits(step, 3))
      && GribKey(cycle, step) == "grib/gfs" + ("/" + (name + "/")) + (name + ("_f" + Digits(step, 3)) + ".grib2")
  {
    hide DateTime, Digits, Render;
    var cycle := DateTime(year, month, day, hour, 0, 0, 0);
    DateTimeFields(year, month, day, hour, 0, 0, 0);
    assert CycleFields(cycle) == [year, month, day, hour, 0];
    RenderCycle([year, month, day, hour, 0]);
    ZeroMinutes();
  }

  lemma RenderCycle(v: seq<nat>)
    requires |v| == 5
    ensures Render(v, CYCLE_LAYOUT, "")
         == Digits(v[0], 4) + (Digits(v[1], 2) + (Digits(v[2], 2)
            + ("T" + (Digits(v[3], 2) + (Digits(v[4], 2) + "Z")))))
  {
    assert Render([], [], "") == "" && "Z" + "" == "Z";
    hide Digits, Render;
    RenderFirst(v[4..], CYCLE_LAYOUT[4..], "");
    RenderFirst(v[3..], CYCLE_LAYOUT[3..], "");
    RenderFirst(v[2..], CYCLE_LAYOUT[2..], "");
    RenderFirst(v[1..], CYCLE_LAYOUT[1..], "");
    RenderFirst(v, CYCLE_LAYOUT, "");
    assert v[4..][1..] == [] && v[3..][1..] == v[4..] && v[2..][1..] == v[3..] && v[1..][1..] == v[2..];
    assert CYCLE_LAYOUT[4..][1..] == [] && CYCLE_LAYOUT[3..][1..] == CYCLE_LAYOUT[4..];
    assert CYCLE_LAYOUT[2..][1..] == CYCLE_LAYOUT[3..] && CYCLE_LAYOUT[1..][1..] == CYCLE_LAYOUT[2..];
    EmptySeparator(Render(v[4..], CYCLE_LAYOUT[4..], ""));
    EmptySeparator(Render(v[2..], CYCLE_LAYOUT[2..], ""));
    EmptySeparator(Render(v[1..], CYCLE_LAYOUT[1..], ""));
  }

  lemma EmptySeparator(s: string)
    ensures "" + s == s
  {
  }

  lemma ZeroMinutes()
    ensures Digits(0, 2) + "Z" == "00Z"
  {
    assert Digits(0, 2) == "00" by { assert Digits(0, 1) == "0"; }
  }

  // ------------------------------------------------------------------- key parsing

  function WithoutSuffix(s: string): string {
    if EndsWith(s, SUFFIX) then s[..|s| - |SUFFIX|] else s
  }

  /** stem.rfind("_f"): the start of the last marker. */
  function LastMarker(s: string): (i: Option<nat>)
    ensures i.Some? ==> i.value + 2 <= |s|
  {
    if |s| < 2 then None
    else if s[|s| - 2..] == "_f" then Some(|s| - 2)
    else LastMarker(s[..|s| - 1])
  }

  /** int() of an optional sign and decimal digits. */
  function ParseInt(s: string): Option<int> {
    if s == "" then None
    else if AllDigits(s) then Some(Value(s))
    else if (s[0] == '-' || s[0] == '+') && |s| > 1 && AllDigits(s[1..]) then
      var magnitude: int := Value(s[1..]);
      Some(if s[0] == '-' then -magnitude else magnitude)
    else None
  }

  /** Digits with at most one sign in front are a number, and nothing else is. */
  lemma ParseIntMeans(s: string)
    ensures
      var signed := s != "" && (s[0] == '-' || s[0] == '+');
      var digits := if signed then s[1..] else s;
      && (ParseInt(s).Some? <==> digits != "" && AllDigits(digits))
      && (ParseInt(s).Some? ==> ParseInt(s).value == if s[0] == '-' then -(Value(digits) as int) else Value(digits))
  {
  }

  function StepFromKey(key: string): Option<int> {
    var stem := WithoutSuffix(AfterLast(key, '/'));
    match LastMarker(stem)
    case None => None
    case Some(marker) => ParseInt(stem[marker + 2..])
  }

  lemma {:induction false} MarkerBeforeDigits(head: string, digits: string)
    requires AllDigits(digits)
    ensures LastMarker(head + ("_f" + digits)) == Some(|head|)
  {
    var s := head + ("_f" + digits);
    if digits == "" {
      assert s[|s| - 2..] == "_f";
    } else {
      var front := digits[..|digits| - 1];
      assert s[..|s| - 1] == head + ("_f" + front);
      assert s[|s| - 2..][1] == digits[|digits| - 1];
      MarkerBeforeDigits(head, front);
    }
  }

  lemma {:induction false} RenderHasNoSlash(values: seq<nat>, layout: seq<Slot>, tail: string)
    requires |values| == |layout| && '/' !in tail
    requires forall i :: 0 <= i < |layout| ==> '/' !in layout[i].after
    ensures '/' !in Render(values, layout, tail)
  {
    if values != [] {
      RenderHasNoSlash(values[1..], layout[1..], tail);
      assert AllDigits(Digits(values[0], layout[0].width));
    }
  }

  /** The step read from a cached key is the step that named it. */
  lemma KeyRoundTrip(cycle: nat, step: nat)
    requires step < 1000
    ensures StepFromKey(GribKey(cycle, step)) == Some(step)
  {
    IdHasNoSlash(cycle, step);
    AfterLastOfConcat(GribFolder(cycle), ImageId(cycle, step) + SUFFIX, '/');
    SuffixComesOff(ImageId(cycle, step));
    var digits := Digits(step, 3);
    MarkerBeforeDigits(FmtCycle(cycle), digits);
    assert ImageId(cycle, step)[|FmtCycle(cycle)| + 2..] == digits;
    SmallPowers();
    ValueOfDigits(step, 3);
  }

  lemma IdHasNoSlash(cycle: nat, step: nat)
    ensures '/' !in ImageId(cycle, step) + SUFFIX
  {
    RenderHasNoSlash(CycleFields(cycle), CYCLE_LAYOUT, "");
    assert AllDigits(Digits(step, 3));
  }

  lemma SuffixComesOff(stem: string)
    ensures WithoutSuffix(stem + SUFFIX) == stem
  {
    assert (stem + SUFFIX)[|stem|..] == SUFFIX && (stem + SUFFIX)[..|stem|] == stem;
  }

  // ---------------------------------------------------------------------- distinct ids

  lemma {:induction false} RenderWidth(values: seq<nat>, layout: seq<Slot>, other: seq<nat>, tail: string)
    requires |values| == |layout| == |other|
    ensures |Render(values, layout, tail)| == |Render(other, layout, tail)|
  {
    if values != [] {
      RenderWidth(values[1..], layout[1..], other[1..], tail);
    }
  }

  lemma {:induction false} PrecedesOrEqual(a: seq<nat>, b: seq<nat>)
    requires |a| == |b|
    ensures a == b || Precedes(a, b) || Precedes(b, a)
  {
    if a != [] {
      PrecedesOrEqual(a[1..], b[1..]);
      assert a == [a[0]] + a[1..] && b == [b[0]] + b[1..];
    }
  }

  lemma CycleFieldsFit(cycle: nat)
    requires Instant(cycle)
    ensures Fits(CycleFields(cycle), CYCLE_LAYOUT)
  {
    InstantYears(cycle);
    SmallPowers();
  }

  /** Cycles on whole minutes have names of their own. */
  lemma FmtCycleIsFaithful(c: nat, d: nat)
    requires Instant(c) && Instant(d) && c % MINUTE == 0 && d % MINUTE == 0
    ensures FmtCycle(c) == FmtCycle(d) <==> c == d
  {
    var a, b := CycleFields(c), CycleFields(d);
    CycleFieldsFit(c);
    CycleFieldsFit(d);
    RenderOrder(a, b, CYCLE_LAYOUT, "", "");
    RenderOrder(b, a, CYCLE_LAYOUT, "", "");
    BeforeIsStrict(FmtCycle(c));
    PrecedesOrEqual(a, b);
    if a == b {
      SameFieldsSameCycle(c, d);
    }
  }

  lemma SameFieldsSameCycle(c: nat, d: nat)
    requires c % MINUTE == 0 && d % MINUTE == 0 && CycleFields(c) == CycleFields(d)
    ensures c == d
  {
    var a, b := CycleFields(c), CycleFields(d);
    assert a[0] == b[0] && a[1] == b[1] && a[2] == b[2] && a[3] == b[3] && a[4] == b[4];
    DateOrder(DayNumber(c), DayNumber(d));
    OnTheMinute(c);
    OnTheMinute(d);
    Decompose(c);
    Decompose(d);
  }

  /** An image id determines its cycle and its step. */
  lemma ImageIdIsFaithful(c: nat, s: nat, d: nat, r: nat)
    requires Instant(c) && Instant(d) && c % MINUTE == 0 && d % MINUTE == 0 && s < 1000 && r < 1000
    ensures ImageId(c, s) == ImageId(d, r) <==> c == d && s == r
  {
    var x, y := "_f" + Digits(s, 3), "_f" + Digits(r, 3);
    SmallPowers();
    RenderWidth(CycleFields(c), CYCLE_LAYOUT, CycleFields(d), "");
    assert ImageId(c, s)[..|FmtCycle(c)|] == FmtCycle(c) && ImageId(c, s)[|FmtCycle(c)|..] == x;
    assert ImageId(d, r)[..|FmtCycle(d)|] == FmtCycle(d) && ImageId(d, r)[|FmtCycle(d)|..] == y;
    assert x[2..] == Digits(s, 3) && y[2..] == Digits(r, 3);
    DigitsAreFaithful(s, r, 3);
    FmtCycleIsFaithful(c, d);
  }
}
