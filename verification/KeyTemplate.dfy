/**
 Date-partitioned key templates: expand_time_prefixes and _floor of
 src/models/s3_key_template.py.  A template is the parsed form of a format string;
 Source gives back the text in which the code looks for "{HH}".
 */
module KeyTemplate {
  import opened Arithmetic
  import opened Calendar
  import opened Common
  import opened Text

  datatype Name = Year | Month | Day | YearDay | Hour

  /** Literal text, or a placeholder, possibly written with the `!s` conversion. */
  datatype Piece = Literal(text: string) | Field(name: Name, converted: bool)

  type Template = seq<Piece>

  function Label(name: Name): string {
    match name
    case Year => "yyyy"
    case Month => "mm"
    case Day => "dd"
    case YearDay => "jjj"
    case Hour => "HH"
  }

  /** str.format writes a literal brace as two. */
  function Escaped(text: string): string {
    if text == "" then ""
    else (if text[0] == '{' || text[0] == '}' then [text[0], text[0]] else [text[0]]) + Escaped(text[1..])
  }

  function PieceSource(piece: Piece): string {
    match piece
    case Literal(text) => Escaped(text)
    case Field(name, converted) => "{" + Label(name) + (if converted then "!s" else "") + "}"
  }

  function Source(template: Template): string {
    if template == [] then "" else PieceSource(template[0]) + Source(template[1..])
  }

  /** The placeholders as they stand in a format string, and a literal brace as two. */
  lemma SourcesAsWritten()
    ensures PieceSource(Field(Year, false)) == "{yyyy}" && PieceSource(Field(Month, false)) == "{mm}"
    ensures PieceSource(Field(Day, false)) == "{dd}" && PieceSource(Field(YearDay, false)) == "{jjj}"
    ensures PieceSource(Field(Hour, false)) == "{HH}" && PieceSource(Field(Hour, true)) == "{HH!s}"
    ensures Escaped("a{b}") == "a{{b}}"
  {
    assert "a{b}"[1..] == "{b}" && "{b}"[1..] == "b}" && "b}"[1..] == "}" && "}"[1..] == "";
    assert Escaped("b}") == "b}}" by { assert Escaped("}") == "}}"; }
    assert Escaped("{b}") == "{{b}}";
  }

  predicate Hourly(template: Template) {
    Contains(Source(template), "{HH}")
  }

  predicate NamesHour(template: Template) {
    exists i :: 0 <= i < |template| && template[i].Field? && template[i].name == Hour
  }

  lemma ContainsInConcat(a: string, b: string, part: string)
    requires Contains(a, part) || Contains(b, part)
    ensures Contains(a + b, part)
  {
    if i :| 0 <= i <= |a| && FoundAt(a, part, i) {
      assert (a + b)[i..i + |part|] == a[i..i + |part|];
      assert FoundAt(a + b, part, i);
    } else {
      var i :| 0 <= i <= |b| && FoundAt(b, part, i);
      assert (a + b)[|a| + i..|a| + i + |part|] == b[i..i + |part|];
      assert FoundAt(a + b, part, |a| + i);
    }
  }

  /** A plain hour placeholder is what selects the hourly step. */
  lemma {:induction false} PlainHourIsHourly(template: Template, i: nat)
    requires i < |template| && template[i] == Field(Hour, false)
    ensures Hourly(template)
  {
    var head, rest := PieceSource(template[0]), Source(template[1..]);
    if i == 0 {
      assert head == "{HH}" && FoundAt(head, "{HH}", 0);
    } else {
      PlainHourIsHourly(template[1..], i - 1);
    }
    ContainsInConcat(head, rest, "{HH}");
  }

  // ------------------------------------------------------------------ filling one time

  function FieldText(name: Name, t: nat): (s: string)
    ensures |s| == |FieldText(name, 0)|
  {
    var day := DayNumber(t);
    match name
    case Year => Digits(YearOf(day), 4)
    case Month => Digits(MonthOf(day), 2)
    case Day => Digits(DayOfMonth(day), 2)
    case YearDay => Digits(DayOfYear(day), 3)
    case Hour => Digits(HourOf(t), 2)
  }

  /** Each placeholder spells its part of the date, zero-padded. */
  lemma FieldsSpellTheDate(name: Name, year: nat, month: nat, day: nat, hour: nat, minute: nat, second: nat, micro: nat)
    requires ValidDate(year, month, day) && ValidTime(hour, minute, second, micro)
    ensures FieldText(name, DateTime(year, month, day, hour, minute, second, micro)) ==
            match name
            case Year => Digits(year, 4)
            case Month => Digits(month, 2)
            case Day => Digits(day, 2)
            case YearDay => Digits(DaysOfMonths(year, month) + day, 3)
            case Hour => Digits(hour, 2)
  {
    hide DateTime, Digits, DaysOfMonths, YearOf, MonthOf, DayOfMonth, DayOfYear, DayNumber, HourOf;
    DateTimeFields(year, month, day, hour, minute, second, micro);
  }

  function PieceText(piece: Piece, t: nat): string {
    match piece
    case Literal(text) => text
    case Field(name, _) => FieldText(name, t)
  }

  /** The partition folder of time `t`. */
  function Fill(template: Template, t: nat): string {
    if template == [] then "" else PieceText(template[0], t) + Fill(template[1..], t)
  }

  /** Year, month, day, day of the year and hour, each in a folder of its own. */
  function DatedFolders(): Template {
    var slash := Literal("/");
    [Field(Year, false), slash] + ([Field(Month, false), slash] + ([Field(Day, false), slash]
    + ([Field(YearDay, false), slash] + [Field(Hour, false), slash])))
  }

  /** The folders of six o'clock on 15 March 2026, the 74th day of the year. */
  lemma ExampleFolders()
    ensures Fill(DatedFolders(), DateTime(2026, 3, 15, 6, 0, 0, 0)) == "2026/03/15/074/06/"
  {
    hide Digits, FieldText, DateTime;
    var t := DateTime(2026, 3, 15, 6, 0, 0, 0);
    var slash := Literal("/");
    var hour := [Field(Hour, false), slash];
    var yday := [Field(YearDay, false), slash] + hour;
    var day := [Field(Day, false), slash] + yday;
    ExampleTexts();
    assert Fill([], t) == "";
    hide Fill;
    FillTwo(Hour, [], t);
    assert hour + [] == hour;
    FillTwo(YearDay, hour, t);
    FillTwo(Day, yday, t);
    FillTwo(Month, day, t);
    FillTwo(Year, [Field(Month, false), slash] + day, t);
  }

  lemma ExampleTexts()
    ensures
      var t := DateTime(2026, 3, 15, 6, 0, 0, 0);
      && FieldText(Year, t) == "2026" && FieldText(Month, t) == "03" && FieldText(Day, t) == "15"
      && FieldText(YearDay, t) == "074" && FieldText(Hour, t) == "06"
  {
    hide DateTime, FieldText, Digits, DaysOfMonths;
    ExampleDigits();
    FieldsSpellTheDate(Year, 2026, 3, 15, 6, 0, 0, 0);
    FieldsSpellTheDate(Month, 2026, 3, 15, 6, 0, 0, 0);
    FieldsSpellTheDate(Day, 2026, 3, 15, 6, 0, 0, 0);
    FieldsSpellTheDate(YearDay, 2026, 3, 15, 6, 0, 0, 0);
    FieldsSpellTheDate(Hour, 2026, 3, 15, 6, 0, 0, 0);
  }

  lemma ExampleDigits()
    ensures Digits(2026, 4) == "2026" && Digits(3, 2) == "03" && Digits(15, 2) == "15" && Digits(6, 2) == "06"
    ensures DaysOfMonths(2026, 3) == 59 && Digits(74, 3) == "074"
  {
    assert DaysOfMonths(2026, 3) == DaysOfMonths(2026, 2) + 28 == DaysOfMonths(2026, 1) + 59;
    assert Digits(2026, 4) == "2026" by {
      assert Digits(202, 3) == "202" by { assert Digits(20, 2) == "20"; }
    }
    assert Digits(74, 3) == "074" by { assert Digits(7, 2) == "07"; }
  }

  lemma FillTwo(name: Name, rest: Template, t: nat)
    ensures Fill([Field(name, false), Literal("/")] + rest, t) == FieldText(name, t) + ("/" + Fill(rest, t))
  {
    var all := [Field(name, false), Literal("/")] + rest;
    assert all[1..] == [Literal("/")] + rest && all[1..][1..] == rest;
  }

  /** Same day, and the same hour if the template names the hour: same partition. */
  lemma {:induction false} SamePartition(template: Template, t: nat, u: nat)
    requires DayNumber(t) == DayNumber(u)
    requires HourOf(t) == HourOf(u) || !NamesHour(template)
    ensures Fill(template, t) == Fill(template, u)
  {
    if template != [] {
      if HourOf(t) != HourOf(u) {
        assert !(template[0].Field? && template[0].name == Hour);
        forall i | 0 <= i < |template[1..]| ensures !(template[1..][i].Field? && template[1..][i].name == Hour) {
          assert template[1..][i] == template[i + 1];
        }
      }
      SamePartition(template[1..], t, u);
    }
  }

  /** With the hour named, two hours of a day are two partitions. */
  lemma {:induction false} HoursArePartitions(template: Template, i: nat, t: nat, u: nat)
    requires i < |template| && template[i].Field? && template[i].name == Hour
    requires DayNumber(t) == DayNumber(u) && HourOf(t) != HourOf(u)
    ensures Fill(template, t) != Fill(template, u)
  {
    var a, b := PieceText(template[0], t), PieceText(template[0], u);
    var x, y := Fill(template[1..], t), Fill(template[1..], u);
    PiecesEquallyWide(template[0], t, u);
    assert (a + x)[..|a|] == a && (b + y)[..|b|] == b;
    assert (a + x)[|a|..] == x && (b + y)[|b|..] == y;
    if i == 0 {
      SmallPowers();
      DigitsAreFaithful(HourOf(t), HourOf(u), 2);
    } else {
      HoursArePartitions(template[1..], i - 1, t, u);
    }
  }

  lemma PiecesEquallyWide(piece: Piece, t: nat, u: nat)
    ensures |PieceText(piece, t)| == |PieceText(piece, u)|
  {
    if piece.Field? {
      assert |FieldText(piece.name, t)| == |FieldText(piece.name, u)|;
    }
  }

  // ---------------------------------------------------------------- expanding a window

  function Step(template: Template): (step: nat)
    ensures step > 0
  {
    if Hourly(template) then HOUR else DAY
  }

  /** The k-th moment of the walk. */
  function Tick(first: nat, step: nat, k: nat): nat {
    first + step * k
  }

  lemma TicksGrow(first: nat, step: nat, j: nat, k: nat)
    requires j < k
    ensures Tick(first, step, j) + step <= Tick(first, step, k)
    ensures Tick(first, step, j + 1) == Tick(first, step, j) + step
  {
    assert step * k - step * (j + 1) == step * (k - j - 1);
    MulAtLeast(step, k - j - 1);
  }

  /** `p` is the partition of one of the first n moments. */
  ghost predicate AmongFirst(p: string, template: Template, first: nat, step: nat, n: nat) {
    exists k: nat :: k < n && p == Fill(template, Tick(first, step, k))
  }

  lemma OneMore(p: string, template: Template, first: nat, step: nat, n: nat)
    ensures AmongFirst(p, template, first, step, n + 1) <==>
              AmongFirst(p, template, first, step, n) || p == Fill(template, Tick(first, step, n))
  {
    if k: nat :| k < n + 1 && p == Fill(template, Tick(first, step, k)) {
      assert k < n || k == n;
    }
  }

  /** `p` is the partition of a moment of the walk that is not after the end. */
  ghost predicate OnWalk(p: string, template: Template, start: nat, end: nat) {
    var step := Step(template);
    exists k: nat :: Tick(Floor(start, step), step, k) <= end && p == Fill(template, Tick(Floor(start, step), step, k))
  }

  /** `prefixes` are, each once, the partitions of the first n moments. */
  ghost predicate Expanded(prefixes: seq<string>, template: Template, first: nat, step: nat, n: nat) {
    Distinct(prefixes) && forall p :: p in prefixes <==> AmongFirst(p, template, first, step, n)
  }

  lemma ExpandedNext(prefixes: seq<string>, template: Template, first: nat, step: nat, n: nat)
    requires Expanded(prefixes, template, first, step, n)
    ensures var p := Fill(template, Tick(first, step, n));
            Expanded(if p in prefixes then prefixes else prefixes + [p], template, first, step, n + 1)
  {
    forall p
      ensures AmongFirst(p, template, first, step, n + 1)
              <==> p in prefixes || p == Fill(template, Tick(first, step, n))
    {
      OneMore(p, template, first, step, n);
    }
  }

  lemma ExpandedAll(prefixes: seq<string>, template: Template, start: nat, end: nat, n: nat)
    requires Expanded(prefixes, template, Floor(start, Step(template)), Step(template), n)
    requires Tick(Floor(start, Step(template)), Step(template), n) > end
    requires n > 0 ==> Tick(Floor(start, Step(template)), Step(template), n - 1) <= end
    ensures forall p :: p in prefixes <==> OnWalk(p, template, start, end)
  {
    forall p ensures p in prefixes <==> OnWalk(p, template, start, end) {
      FirstAreAllOnWalk(p, template, start, end, n);
    }
  }

  /** The partitions of the first n moments, each where it is met first. */
  function FirstPartitions(template: Template, first: nat, step: nat, n: nat): seq<string> {
    if n == 0 then [] else
    var earlier, p := FirstPartitions(template, first, step, n - 1), Fill(template, Tick(first, step, n - 1));
    if p in earlier then earlier else earlier + [p]
  }

  /** How many moments of the walk are not after the end. */
  function TickCount(first: nat, step: nat, end: nat): nat
    requires step > 0
  {
    if end < first then 0 else (end - first) / step + 1
  }

  /** The expansion: the partitions of the hours or days the window touches, in time order. */
  function Expansion(template: Template, start: nat, end: nat): seq<string> {
    var step := Step(template);
    FirstPartitions(template, Floor(start, step), step, TickCount(Floor(start, step), step, end))
  }

  lemma TickCountIs(first: nat, step: nat, end: nat, n: nat)
    requires step > 0 && Tick(first, step, n) > end && (n > 0 ==> Tick(first, step, n - 1) <= end)
    ensures n == TickCount(first, step, end)
  {
    if n > 0 {
      assert step * n == step * (n - 1) + step;
      DivModOf(end - first, n - 1, end - first - step * (n - 1), step);
    }
  }

  lemma {:induction false} FirstPartitionsExpand(template: Template, first: nat, step: nat, n: nat)
    ensures Expanded(FirstPartitions(template, first, step, n), template, first, step, n)
  {
    hide Expanded, Fill;
    if n == 0 {
      NoneExpanded(template, first, step);
    } else {
      var earlier := FirstPartitions(template, first, step, n - 1);
      FirstPartitionsExpand(template, first, step, n - 1);
      ExpandedNext(earlier, template, first, step, n - 1);
    }
  }

  lemma NoneExpanded(template: Template, first: nat, step: nat)
    ensures Expanded([], template, first, step, 0)
  {
  }

  /** The loop: one prefix for every hour or day the window touches, each once, in time order. */
  method ExpandTimePrefixes(template: Template, start: nat, end: nat) returns (prefixes: seq<string>)
    ensures prefixes == Expansion(template, start, end)
    ensures Distinct(prefixes)
    ensures forall p :: p in prefixes <==> OnWalk(p, template, start, end)
  {
    var step := Step(template);
    var first := Floor(start, step);
    var moment := first;
    ghost var k: nat := 0;
    prefixes := [];
    while moment <= end
      invariant moment == Tick(first, step, k)
      invariant prefixes == FirstPartitions(template, first, step, k)
      invariant k > 0 ==> Tick(first, step, k - 1) <= end
      decreases end + 1 - moment
    {
      var prefix := Fill(template, moment);
      if prefix !in prefixes {
        prefixes := prefixes + [prefix];
      }
      TicksGrow(first, step, k, k + 1);
      moment := moment + step;
      k := k + 1;
    }
    TickCountIs(first, step, end, k);
    FirstPartitionsExpand(template, first, step, k);
    ExpandedAll(prefixes, template, start, end, k);
  }

  /** If the n-th moment is the first beyond the end, the first n are the walk. */
  lemma FirstAreAllOnWalk(p: string, template: Template, start: nat, end: nat, n: nat)
    requires Tick(Floor(start, Step(template)), Step(template), n) > end
    requires n > 0 ==> Tick(Floor(start, Step(template)), Step(template), n - 1) <= end
    ensures AmongFirst(p, template, Floor(start, Step(template)), Step(template), n) <==>
            OnWalk(p, template, start, end)
  {
    var step := Step(template);
    var first := Floor(start, step);
    if k: nat :| k < n && p == Fill(template, Tick(first, step, k)) {
      if k < n - 1 {
        TicksGrow(first, step, k, n - 1);
      }
      assert Tick(first, step, k) <= end;
    }
    if k: nat :| Tick(first, step, k) <= end && p == Fill(template, Tick(first, step, k)) {
      if n < k {
        TicksGrow(first, step, n, k);
      }
      assert k < n;
    }
  }

  // ------------------------------------------------------------------------- coverage

  /** The expansion holds the partition of every time in the window. */
  ghost predicate CoversWindow(template: Template, start: nat, end: nat) {
    forall t: nat :: start <= t <= end ==> OnWalk(Fill(template, t), template, start, end)
  }

  lemma FloorKeepsDayAndHour(t: nat)
    ensures DayNumber(Floor(t, DAY)) == DayNumber(t)
    ensures DayNumber(Floor(t, HOUR)) == DayNumber(t) && HourOf(Floor(t, HOUR)) == HourOf(t)
  {
    var day, h := DayNumber(t), HourOf(t);
    Decompose(t);
    var rest := MINUTE * MinuteOf(t) + SECOND * SecondOf(t) + MicrosecondOf(t);
    DivModOf(t, 24 * day + h, rest, HOUR);
    Recompose(Floor(t, DAY), day, 0, 0, 0, 0);
    Recompose(Floor(t, HOUR), day, h, 0, 0, 0);
  }

  /** The floor of a later time is some tick after the floor of the start. */
  lemma FloorIsTick(start: nat, t: nat, step: nat)
    requires step > 0 && start <= t
    ensures t / step >= start / step && Floor(t, step) <= t
    ensures Floor(t, step) == Tick(Floor(start, step), step, t / step - start / step)
  {
    MultipleBelow(t, step);
    Split(t, step);
    Split(start, step);
    QuotientFirst(step, t / step, t % step, start / step, start % step);
  }

  lemma CoveredInstant(template: Template, start: nat, end: nat, t: nat)
    requires Hourly(template) || !NamesHour(template)
    requires start <= t <= end
    ensures OnWalk(Fill(template, t), template, start, end)
  {
    var step := Step(template);
    FloorKeepsDayAndHour(t);
    FloorIsTick(start, t, step);
    SamePartition(template, t, Floor(t, step));
  }

  /** One instant after noon of a day: a daily walk visits only midnight. */
  lemma DailyStepsMissNoon(template: Template, day: nat)
    requires !Hourly(template) && NamesHour(template)
    ensures !CoversWindow(template, DAY * day + 12 * HOUR, DAY * day + 12 * HOUR)
  {
    var noon := DAY * day + 12 * HOUR;
    var i :| 0 <= i < |template| && template[i].Field? && template[i].name == Hour;
    Recompose(noon, day, 12, 0, 0, 0);
    Recompose(DAY * day, day, 0, 0, 0, 0);
    HoursArePartitions(template, i, noon, DAY * day);
    DivModOf(noon, day, 12 * HOUR, DAY);
    if OnWalk(Fill(template, noon), template, noon, noon) {
      OnlyMidnight(template, day, noon);
    }
  }

  lemma OnlyMidnight(template: Template, day: nat, noon: nat)
    requires Step(template) == DAY && Floor(noon, DAY) == DAY * day && noon < DAY * day + DAY
    requires OnWalk(Fill(template, noon), template, noon, noon)
    ensures Fill(template, noon) == Fill(template, DAY * day)
  {
    var k: nat :| Tick(DAY * day, DAY, k) <= noon && Fill(template, noon) == Fill(template, Tick(DAY * day, DAY, k));
    if k > 0 {
      TicksGrow(DAY * day, DAY, 0, k);
    }
    assert Tick(DAY * day, DAY, 0) == DAY * day;
  }

  /**
   The expansion covers every window if and only if an hour placeholder, where there is
   one, can be found as the text "{HH}".
   */
  lemma CoversEveryWindowExactlyWhen(template: Template)
    ensures (forall start: nat, end: nat :: start <= end ==> CoversWindow(template, start, end))
            <==> Hourly(template) || !NamesHour(template)
  {
    if Hourly(template) || !NamesHour(template) {
      forall start: nat, end: nat | start <= end ensures CoversWindow(template, start, end) {
        forall t: nat | start <= t <= end ensures OnWalk(Fill(template, t), template, start, end) {
          CoveredInstant(template, start, end, t);
        }
      }
    } else {
      var day := DaysBefore(2000);
      DailyStepsMissNoon(template, day);
      assert DAY * day + 12 * HOUR >= 0;
    }
  }

  /** `p` is the partition of a time in the window. */
  ghost predicate Touched(p: string, template: Template, start: nat, end: nat) {
    exists t: nat :: start <= t <= end && p == Fill(template, t)
  }

  /** And it lists nothing else: every prefix is the partition of a time in the window. */
  lemma ExpansionIsTight(template: Template, start: nat, end: nat, p: string)
    requires Hourly(template) || !NamesHour(template)
    requires start <= end && OnWalk(p, template, start, end)
    ensures Touched(p, template, start, end)
  {
    var step := Step(template);
    var first := Floor(start, step);
    var k: nat :| Tick(first, step, k) <= end && p == Fill(template, Tick(first, step, k));
    if k > 0 {
      TicksAfterStart(start, step, k);
    } else {
      FirstTickTouches(template, start, end);
    }
  }

  lemma FirstTickTouches(template: Template, start: nat, end: nat)
    requires Hourly(template) || !NamesHour(template)
    requires start <= end
    ensures Touched(Fill(template, Tick(Floor(start, Step(template)), Step(template), 0)), template, start, end)
  {
    var first := Floor(start, Step(template));
    FloorKeepsDayAndHour(start);
    SamePartition(template, first, start);
    assert Tick(first, Step(template), 0) == first;
  }

  lemma TicksAfterStart(start: nat, step: nat, k: nat)
    requires step > 0 && k > 0
    ensures Tick(Floor(start, step), step, k) > start
  {
    MultipleBelow(start, step);
    TicksGrow(Floor(start, step), step, 0, k);
  }

  /** `{HH!s}` formats like `{HH}` but keeps the daily step, so a window can miss partitions. */
  lemma ConvertedHourMisses()
    ensures exists start: nat, end: nat :: start <= end && !CoversWindow([Field(Hour, true)], start, end)
  {
    var template, source := [Field(Hour, true)], "{HH!s}";
    assert Source(template) == source by {
      assert template[1..] == [];
    }
    forall i | 0 <= i <= |source| ensures !FoundAt(source, "{HH}", i) {
      if i <= 2 {
        assert source[i..i + 4][3] == source[i + 3];
        assert source[3] == '!' && source[4] == 's' && source[1] == 'H';
        if i == 2 {
          assert source[i..i + 4][0] == 'H';
        }
      }
    }
    assert template[0].Field? && template[0].name == Hour;
    CoversEveryWindowExactlyWhen(template);
  }
}
