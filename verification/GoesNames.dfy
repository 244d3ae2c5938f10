/**
 GOES-style names: the window image id of src/data_sources/goes19_glm.py and the
 filename parser of src/models/goes19_glm_config.py, which must agree on the same
 YYYYJJJHHMMSSD calendar text.
 */
module GoesNames {
  import opened Arithmetic
  import opened Text
  import opened Calendar

  const LAYOUT: seq<Slot> := [Slot(4, ""), Slot(3, ""), Slot(2, ""), Slot(2, ""), Slot(2, "")]

  /** Year, day of the year, hour, minute, second. */
  function Stamp(t: nat): seq<nat> {
    [YearOf(DayNumber(t)), DayOfYear(DayNumber(t))] + Clock(t)
  }

  function WindowImageId(t: nat): string
    requires Instant(t)
  {
    Render(Stamp(t), LAYOUT, "0")
  }

  function WholeSecond(t: nat): nat {
    t - MicrosecondOf(t)
  }

  datatype Parsed<+T> = Parsed(value: T) | ValueError | OverflowError

  function Fields(token: string): (v: seq<nat>)
    requires |token| == 14 && AllDigits(token)
    ensures |v| == 5
  {
    [Value(token[..4]), Value(token[4..7]), Value(token[7..9]), Value(token[9..11]), Value(token[11..13])]
  }

  function Decisecond(token: string): nat
    requires |token| == 14 && AllDigits(token)
  {
    DigitValue(token[13])
  }

  /** A datetime for 1 January plus a timedelta, whose parts are not range-checked. */
  function Moment(f: seq<nat>, microseconds: nat): int
    requires |f| == 5 && f[0] >= 1
  {
    DAY * (DaysBefore(f[0]) + f[1] - 1) + HOUR * f[2] + MINUTE * f[3] + SECOND * f[4] + microseconds
  }

  function ParseTimestamp(token: string): (r: Parsed<nat>)
    ensures r.Parsed? ==> Instant(r.value)
  {
    if |token| != 14 || !AllDigits(token) then
      ValueError
    else
      var f := Fields(token);
      if f[0] == 0 then
        ValueError
      else
        var t := Moment(f, 100_000 * Decisecond(token));
        if Instant(t) then Parsed(t) else OverflowError
  }

  // ------------------------------------------------------------ tokens and fields

  lemma FitsStamp(t: nat)
    requires Instant(t)
    ensures Fits(Stamp(t), LAYOUT)
  {
    InstantYears(t);
    SmallPowers();
  }

  /** A token is its five fields and its last digit. */
  lemma TokenIsItsFields(token: string)
    requires |token| == 14 && AllDigits(token)
    ensures Fits(Fields(token), LAYOUT)
    ensures Render(Fields(token), LAYOUT, token[13..]) == token
  {
    RenderedFields(token[..4], token[4..7], token[7..9], token[9..11], token[11..13], token[13..]);
    assert token == token[..4] + (token[4..7] + (token[7..9] + (token[9..11] + (token[11..13] + token[13..]))));
  }

  lemma RenderedFields(a: string, b: string, c: string, d: string, e: string, tail: string)
    requires AllDigits(a) && AllDigits(b) && AllDigits(c) && AllDigits(d) && AllDigits(e)
    requires |a| == 4 && |b| == 3 && |c| == |d| == |e| == 2
    ensures Fits([Value(a), Value(b), Value(c), Value(d), Value(e)], LAYOUT)
    ensures Render([Value(a), Value(b), Value(c), Value(d), Value(e)], LAYOUT, tail) == a + (b + (c + (d + (e + tail))))
  {
    DigitsOfValue(a);
    DigitsOfValue(b);
    DigitsOfValue(c);
    DigitsOfValue(d);
    DigitsOfValue(e);
    RenderFive([Value(a), Value(b), Value(c), Value(d), Value(e)], tail);
  }

  lemma RenderFive(v: seq<nat>, tail: string)
    requires |v| == 5
    ensures Render(v, LAYOUT, tail) ==
            Digits(v[0], 4) + (Digits(v[1], 3) + (Digits(v[2], 2) + (Digits(v[3], 2) + (Digits(v[4], 2) + tail))))
  {
    RenderOne(v[4..], LAYOUT[4..], tail);
    RenderOne(v[3..], LAYOUT[3..], tail);
    RenderOne(v[2..], LAYOUT[2..], tail);
    RenderOne(v[1..], LAYOUT[1..], tail);
    RenderOne(v, LAYOUT, tail);
    assert v[4..][1..] == [] && v[3..][1..] == v[4..] && v[2..][1..] == v[3..] && v[1..][1..] == v[2..];
    assert LAYOUT[3..][1..] == LAYOUT[4..] && LAYOUT[2..][1..] == LAYOUT[3..] && LAYOUT[1..][1..] == LAYOUT[2..];
  }

  lemma RenderOne(v: seq<nat>, layout: seq<Slot>, tail: string)
    requires |v| == |layout| > 0 && layout[0].after == ""
    ensures Render(v, layout, tail) == Digits(v[0], layout[0].width) + Render(v[1..], layout[1..], tail)
  {
    assert "" + Render(v[1..], layout[1..], tail) == Render(v[1..], layout[1..], tail);
  }

  /** Rendering five fields and one digit gives a token with those fields. */
  lemma FieldsOfRender(v: seq<nat>, tail: string)
    requires Fits(v, LAYOUT) && |tail| == 1 && IsDigit(tail[0])
    ensures |Render(v, LAYOUT, tail)| == 14 && AllDigits(Render(v, LAYOUT, tail))
    ensures Fields(Render(v, LAYOUT, tail)) == v && Render(v, LAYOUT, tail)[13] == tail[0]
  {
    RenderFive(v, tail);
    Cuts(Digits(v[0], 4), Digits(v[1], 3), Digits(v[2], 2), Digits(v[3], 2), Digits(v[4], 2), tail);
    assert forall i :: 0 <= i < 5 ==> v[i] < Pow10(LAYOUT[i].width);
    ValueOfDigits(v[0], 4);
    ValueOfDigits(v[1], 3);
    ValueOfDigits(v[2], 2);
    ValueOfDigits(v[3], 2);
    ValueOfDigits(v[4], 2);
    assert v == [v[0], v[1], v[2], v[3], v[4]];
  }

  lemma Cuts(a: string, b: string, c: string, d: string, e: string, tail: string)
    requires |a| == 4 && |b| == 3 && |c| == |d| == |e| == 2 && |tail| == 1
    requires AllDigits(a) && AllDigits(b) && AllDigits(c) && AllDigits(d) && AllDigits(e) && AllDigits(tail)
    ensures var s := a + (b + (c + (d + (e + tail))));
            && |s| == 14 && AllDigits(s)
            && s[..4] == a && s[4..7] == b && s[7..9] == c && s[9..11] == d && s[11..13] == e && s[13] == tail[0]
  {
  }

  // ----------------------------------------------------------- round trips and order

  predicate InRange(f: seq<nat>)
    requires |f| == 5
  {
    f[0] >= 1 && 1 <= f[1] <= DaysInYear(f[0]) && f[2] < 24 && f[3] < 60 && f[4] < 60
  }

  /** A token whose fields are in calendar range and whose decisecond is zero. */
  predicate Canonical(token: string) {
    |token| == 14 && AllDigits(token) && InRange(Fields(token)) && token[13] == '0'
  }

  /** In-range fields are the fields of the moment they add up to. */
  lemma MomentOfFields(f: seq<nat>, microseconds: nat)
    requires |f| == 5 && InRange(f) && f[0] <= 9999 && microseconds < SECOND
    ensures Instant(Moment(f, microseconds))
    ensures Stamp(Moment(f, microseconds)) == f && MicrosecondOf(Moment(f, microseconds)) == microseconds
  {
    var day := DaysBefore(f[0]) + f[1] - 1;
    DayOfFields(f[0], f[1]);
    BelowMultiple(DAY, day, HOUR * f[2] + MINUTE * f[3] + SECOND * f[4] + microseconds, DaysBefore(10000));
    Recompose(Moment(f, microseconds), day, f[2], f[3], f[4], microseconds);
  }

  lemma DayOfFields(year: nat, yday: nat)
    requires 1 <= year <= 9999 && 1 <= yday <= DaysInYear(year)
    ensures YearOf(DaysBefore(year) + yday - 1) == year
    ensures DayOfYear(DaysBefore(year) + yday - 1) == yday
    ensures DaysBefore(year) + yday <= DaysBefore(10000)
  {
    NextYear(year);
    YearIsUnique(DaysBefore(year) + yday - 1, year);
    YearsGrow(year + 1, 10000);
  }

  /** An instant is the moment of its fields. */
  lemma MomentOfStamp(t: nat)
    requires Instant(t)
    ensures InRange(Stamp(t)) && Stamp(t)[0] <= 9999
    ensures Moment(Stamp(t), MicrosecondOf(t)) == t
  {
    Decompose(t);
    InstantYears(t);
  }

  lemma MomentAdds(f: seq<nat>, microseconds: nat)
    requires |f| == 5 && f[0] >= 1
    ensures Moment(f, microseconds) == Moment(f, 0) + microseconds
  {
  }

  lemma FourDigitYear(token: string)
    requires |token| == 14 && AllDigits(token)
    ensures Fields(token)[0] <= 9999
  {
    SmallPowers();
    DigitsOfValue(token[..4]);
  }

  /** In-range tokens always parse, to the instant whose fields they show. */
  lemma InRangeParses(token: string)
    requires |token| == 14 && AllDigits(token) && InRange(Fields(token))
    ensures ParseTimestamp(token) == Parsed(Moment(Fields(token), 100_000 * Decisecond(token)))
    ensures Stamp(ParseTimestamp(token).value) == Fields(token)
  {
    FourDigitYear(token);
    MomentOfFields(Fields(token), 100_000 * Decisecond(token));
  }

  lemma FieldsOfId(t: nat)
    requires Instant(t)
    ensures |WindowImageId(t)| == 14 && AllDigits(WindowImageId(t)) && WindowImageId(t)[13] == '0'
    ensures Fields(WindowImageId(t)) == Stamp(t)
  {
    FitsStamp(t);
    FieldsOfRender(Stamp(t), "0");
  }

  /** An id shows the year, the day of the year and the time of day, and a zero decisecond. */
  lemma IdShowsTheDate(year: nat, month: nat, day: nat, hour: nat, minute: nat, second: nat, microsecond: nat)
    requires ValidDate(year, month, day) && ValidTime(hour, minute, second, microsecond)
    requires Instant(DateTime(year, month, day, hour, minute, second, microsecond))
    ensures WindowImageId(DateTime(year, month, day, hour, minute, second, microsecond))
         == Digits(year, 4) + Digits(DaysOfMonths(year, month) + day, 3)
            + Digits(hour, 2) + Digits(minute, 2) + Digits(second, 2) + "0"
  {
    hide DateTime, Digits, DaysOfMonths;
    DateTimeFields(year, month, day, hour, minute, second, microsecond);
    assert Stamp(DateTime(year, month, day, hour, minute, second, microsecond))
        == [year, DaysOfMonths(year, month) + day, hour, minute, second];
    RenderFive([year, DaysOfMonths(year, month) + day, hour, minute, second], "0");
  }

  /** An id parses back to its own instant, to the second. */
  lemma IdRoundTrip(t: nat)
    requires Instant(t)
    ensures Canonical(WindowImageId(t))
    ensures ParseTimestamp(WindowImageId(t)) == Parsed(WholeSecond(t))
  {
    hide Moment, Stamp, WindowImageId, ParseTimestamp, Fields;
    FieldsOfId(t);
    MomentOfStamp(t);
    InRangeParses(WindowImageId(t));
    MomentAdds(Stamp(t), MicrosecondOf(t));
  }

  /** Exactly the canonical tokens survive parsing and naming again. */
  lemma TokenRoundTrip(token: string)
    requires ParseTimestamp(token).Parsed?
    ensures WindowImageId(ParseTimestamp(token).value) == token <==> Canonical(token)
  {
    var t := ParseTimestamp(token).value;
    if Canonical(token) {
      InRangeParses(token);
      TokenIsItsFields(token);
      assert token[13..] == "0";
    }
    if WindowImageId(t) == token {
      IdRoundTrip(t);
    }
  }

  /** Ids sort as strings in time order, and are equal only within one second. */
  lemma IdOrder(t: nat, u: nat)
    requires Instant(t) && Instant(u)
    ensures Before(WindowImageId(t), WindowImageId(u)) <==> WholeSecond(t) < WholeSecond(u)
    ensures WindowImageId(t) == WindowImageId(u) <==> WholeSecond(t) == WholeSecond(u)
  {
    FitsStamp(t);
    FitsStamp(u);
    RenderOrder(Stamp(t), Stamp(u), LAYOUT, "0", "0");
    BeforeIsStrict("0");
    IdsShowSeconds(t, u);
    StampOrder(t, u);
  }

  lemma IdsShowSeconds(t: nat, u: nat)
    requires Instant(t) && Instant(u)
    ensures WindowImageId(t) == WindowImageId(u) <==> WholeSecond(t) == WholeSecond(u)
  {
    IdRoundTrip(t);
    IdRoundTrip(u);
    if WholeSecond(t) == WholeSecond(u) {
      StampOrder(t, u);
      StampOrder(u, t);
      RendersAlike(t, u);
    }
  }

  lemma RendersAlike(t: nat, u: nat)
    requires Instant(t) && Instant(u) && !Precedes(Stamp(t), Stamp(u)) && !Precedes(Stamp(u), Stamp(t))
    ensures WindowImageId(t) == WindowImageId(u)
  {
    PrecedesFive(Stamp(t), Stamp(u));
    PrecedesFive(Stamp(u), Stamp(t));
    assert Stamp(t) == Stamp(u);
  }

  lemma StampOrder(t: nat, u: nat)
    ensures WholeSecond(t) < WholeSecond(u) <==> Precedes(Stamp(t), Stamp(u))
  {
    assert t == DAY * DayNumber(t) + TimeOfDay(t) && u == DAY * DayNumber(u) + TimeOfDay(u);
    QuotientFirst(DAY, DayNumber(t), ClockTime(t), DayNumber(u), ClockTime(u));
    ClockOrder(t, u);
    DayOrder(DayNumber(t), DayNumber(u));
    PrecedesFive(Stamp(t), Stamp(u));
  }

  lemma PrecedesFive(a: seq<nat>, b: seq<nat>)
    requires |a| == |b| == 5
    ensures Precedes(a, b) <==>
              || a[0] < b[0]
              || (a[0] == b[0] && (a[1] < b[1]
              || (a[1] == b[1] && (a[2] < b[2]
              || (a[2] == b[2] && (a[3] < b[3]
              || (a[3] == b[3] && a[4] < b[4])))))))
  {
    assert a[4..][1..] == b[4..][1..] == [];
    assert a[3..][1..] == a[4..] && b[3..][1..] == b[4..];
    assert a[2..][1..] == a[3..] && b[2..][1..] == b[3..];
    assert a[1..][1..] == a[2..] && b[1..][1..] == b[2..];
    assert Precedes(a[4..], b[4..]) <==> a[4] < b[4];
    assert Precedes(a[3..], b[3..]) <==> a[3] < b[3] || (a[3] == b[3] && a[4] < b[4]);
    assert Precedes(a[2..], b[2..]) <==> a[2] < b[2] || (a[2] == b[2] && Precedes(a[3..], b[3..]));
    assert Precedes(a[1..], b[1..]) <==> a[1] < b[1] || (a[1] == b[1] && Precedes(a[2..], b[2..]));
  }

  // -------------------------------------------------------------------- filenames

  /** str.split with a one-character separator. */
  function SplitOn(s: string, sep: char): (parts: seq<string>)
    ensures |parts| >= 1
  {
    if s == "" then [""]
    else if s[0] == sep then [""] + SplitOn(s[1..], sep)
    else var rest := SplitOn(s[1..], sep); [[s[0]] + rest[0]] + rest[1..]
  }

  function JoinWith(parts: seq<string>, sep: char): string
    requires |parts| >= 1
  {
    if |parts| == 1 then parts[0] else parts[0] + ([sep] + JoinWith(parts[1..], sep))
  }

  /** Splitting loses nothing, and no part holds the separator. */
  lemma {:induction false} JoinOfSplit(s: string, sep: char)
    ensures JoinWith(SplitOn(s, sep), sep) == s
    ensures forall i :: 0 <= i < |SplitOn(s, sep)| ==> sep !in SplitOn(s, sep)[i]
  {
    if s != "" {
      var rest := SplitOn(s[1..], sep);
      JoinOfSplit(s[1..], sep);
      assert s == [s[0]] + s[1..];
      if s[0] == sep {
        assert ([""] + rest)[1..] == rest;
      } else {
        var parts := [[s[0]] + rest[0]] + rest[1..];
        assert parts[1..] == rest[1..];
        if |rest| > 1 {
          assert ([s[0]] + rest[0]) + ([sep] + JoinWith(rest[1..], sep))
              == [s[0]] + (rest[0] + ([sep] + JoinWith(rest[1..], sep)));
        }
      }
    }
  }

  /** Joining separator-free parts and splitting again gives them back. */
  lemma {:induction false} SplitOfJoin(parts: seq<string>, sep: char)
    requires |parts| >= 1 && forall i :: 0 <= i < |parts| ==> sep !in parts[i]
    ensures SplitOn(JoinWith(parts, sep), sep) == parts
    decreases |parts|, |parts[0]|
  {
    var s := JoinWith(parts, sep);
    if parts[0] == "" {
      if |parts| == 1 {
        assert parts == [""];
      } else {
        SplitOfJoin(parts[1..], sep);
        assert s == [sep] + JoinWith(parts[1..], sep);
        assert parts == [""] + parts[1..];
      }
    } else {
      var shorter := [parts[0][1..]] + parts[1..];
      assert shorter[1..] == parts[1..];
      SplitOfJoin(shorter, sep);
      assert parts[0] == [parts[0][0]] + parts[0][1..];
      assert s[1..] == JoinWith(shorter, sep);
      assert parts == [parts[0]] + parts[1..];
    }
  }

  const FAMILY := "GLM-L2-GLMF-"

  datatype NameParts = NameParts(platform: string, mode: string, start: nat, end: nat)

  function Stem(filename: string): string {
    if EndsWith(filename, ".nc") then filename[..|filename| - 3] else filename
  }

  /** The checks in the order the code makes them. */
  function ParseFilename(filename: string): (r: Parsed<NameParts>)
    ensures r.Parsed? ==> Instant(r.value.start)
  {
    var parts := SplitOn(Stem(filename), '_');
    if |parts| < 6 || parts[0] != "CG" || !StartsWith(parts[1], FAMILY) then
      ValueError
    else if !StartsWith(parts[3], "s") || !StartsWith(parts[4], "e") then
      ValueError
    else
      match ParseTimestamp(parts[3][1..])
      case ValueError => ValueError
      case OverflowError => OverflowError
      case Parsed(start) =>
        match ParseTimestamp(parts[4][1..])
        case ValueError => ValueError
        case OverflowError => OverflowError
        case Parsed(end) => Parsed(NameParts(parts[2], AfterLast(parts[1], '-'), start, end))
  }

  /** The documented pattern, with arbitrary text where the code ignores the rest. */
  function PatternName(mode: string, platform: string, s: string, e: string, rest: seq<string>): string {
    JoinWith(["CG", FAMILY + mode, platform, "s" + s, "e" + e] + rest, '_') + ".nc"
  }

  /** A file named after two instants is read back as those instants. */
  lemma NamedFileParses(mode: string, platform: string, start: nat, end: nat, rest: seq<string>)
    requires '-' !in mode && '_' !in mode && '_' !in platform
    requires |rest| >= 1 && forall i :: 0 <= i < |rest| ==> '_' !in rest[i]
    requires Instant(start) && Instant(end)
    ensures ParseFilename(PatternName(mode, platform, WindowImageId(start), WindowImageId(end), rest))
         == Parsed(NameParts(platform, mode, WholeSecond(start), WholeSecond(end)))
  {
    var s, e := WindowImageId(start), WindowImageId(end);
    IdRoundTrip(start);
    IdRoundTrip(end);
    assert '_' !in s by { assert AllDigits(s); }
    assert '_' !in e by { assert AllDigits(e); }
    var parts := ["CG", FAMILY + mode, platform, "s" + s, "e" + e] + rest;
    var name := PatternName(mode, platform, s, e, rest);
    assert name[|name| - 3..] == ".nc" && Stem(name) == JoinWith(parts, '_');
    SplitOfJoin(parts, '_');
    assert ("s" + s)[1..] == s && ("e" + e)[1..] == e;
    AfterLastOfConcat(FAMILY, mode, '-');
  }

  /** The documented shape: fixed first segment and letters, at least one segment after the end time. */
  ghost predicate Segments(parts: seq<string>, family: string, platform: string, s: string, e: string,
      rest: seq<string>) {
    && |rest| >= 1
    && parts == ["CG", FAMILY + family, platform, "s" + s, "e" + e] + rest
    && (forall i :: 0 <= i < |parts| ==> '_' !in parts[i])
  }

  lemma CutSegments(parts: seq<string>)
    requires |parts| >= 6 && parts[0] == "CG" && forall i :: 0 <= i < |parts| ==> '_' !in parts[i]
    requires StartsWith(parts[1], FAMILY) && StartsWith(parts[3], "s") && StartsWith(parts[4], "e")
    ensures Segments(parts, parts[1][|FAMILY|..], parts[2], parts[3][1..], parts[4][1..], parts[5..])
  {
    assert parts[3] == parts[3][..1] + parts[3][1..];
    assert parts[4] == parts[4][..1] + parts[4][1..];
    assert parts[1] == FAMILY + parts[1][|FAMILY|..];
  }

  /** The name, without its optional extension, has the shape with these two time tokens. */
  ghost predicate Shaped(filename: string, s: string, e: string) {
    exists parts: seq<string>, family: string, platform: string, rest: seq<string> ::
      Segments(parts, family, platform, s, e, rest) && JoinWith(parts, '_') == Stem(filename)
  }

  /** A shaped name is judged by its two tokens, and read as its own segments. */
  lemma ShapedNameParses(filename: string, parts: seq<string>, family: string, platform: string, s: string, e: string,
      rest: seq<string>)
    requires Segments(parts, family, platform, s, e, rest) && JoinWith(parts, '_') == Stem(filename)
    ensures ParseFilename(filename).Parsed? <==> ParseTimestamp(s).Parsed? && ParseTimestamp(e).Parsed?
    ensures ParseFilename(filename).Parsed? ==>
              ParseFilename(filename).value
              == NameParts(platform, AfterLast(FAMILY + family, '-'), ParseTimestamp(s).value, ParseTimestamp(e).value)
  {
    SplitOfJoin(parts, '_');
    assert ("s" + s)[1..] == s && ("e" + e)[1..] == e;
  }

  /**
   Exactly these names parse: the documented pattern with the extension optional, any
   text in place of the creation time, and further segments allowed, if both times parse.
   */
  lemma ParsesExactlyWhen(filename: string)
    ensures ParseFilename(filename).Parsed? <==>
              exists s: string, e: string ::
                Shaped(filename, s, e) && ParseTimestamp(s).Parsed? && ParseTimestamp(e).Parsed?
  {
    if ParseFilename(filename).Parsed? {
      var parts := SplitOn(Stem(filename), '_');
      JoinOfSplit(Stem(filename), '_');
      CutSegments(parts);
      assert Shaped(filename, parts[3][1..], parts[4][1..]);
    }
    if s: string, e: string :| Shaped(filename, s, e) && ParseTimestamp(s).Parsed? && ParseTimestamp(e).Parsed? {
      var parts: seq<string>, family: string, platform: string, rest: seq<string> :|
        Segments(parts, family, platform, s, e, rest) && JoinWith(parts, '_') == Stem(filename);
      ShapedNameParses(filename, parts, family, platform, s, e, rest);
    }
  }
}
