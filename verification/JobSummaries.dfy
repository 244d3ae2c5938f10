/**
 summary of src/clients/metrics_repository.py: grouping the window's jobs by type and
 padding with every other type ever recorded.
 */
module JobSummaries {
  import opened Common
  import opened MetricsRepositories
  import opened Names
  import opened Percentiles
  import opened Sorting
  import opened Text

  datatype Counts = Counts(success: nat, error: nat, dlq: nat, requeued: nat, skipped: nat, total: nat)

  datatype Entry = Entry(jobType: string, productLabel: Option<string>, counts: Counts, errorRate: real,
                         lastFinished: string, totalS: Stats, downloadS: Stats, processS: Stats,
                         stages: map<string, real>)

  function FinishedSince(since: string): Row -> bool {
    (r: Row) => !Before(r.job.finishedAt, since)
  }

  /** The rows the query keeps; an absent `since` is the empty string, which keeps all. */
  function InWindow(rows: seq<Row>, since: string): seq<Row> {
    Filter(rows, FinishedSince(since))
  }

  /** finished_at >= since, for every row unless `since` is absent, in reading order. */
  lemma WindowMeans(rows: seq<Row>, since: string, r: Row)
    ensures r in InWindow(rows, since) <==> r in rows && (since == "" || NameOrder(since, r.job.finishedAt))
    ensures since == "" ==> InWindow(rows, since) == rows
  {
    FilterElements(rows, FinishedSince(since), r);
    BeforeIsTotal(since, r.job.finishedAt);
    if since == "" {
      FilterAll(rows, FinishedSince(since));
    }
  }

  function RowsOf(rows: seq<Row>, t: string): seq<Row> {
    Filter(rows, OfType(t))
  }

  function CountOf(rows: seq<Row>, t: string): nat {
    |RowsOf(rows, t)|
  }

  // ------------------------------------------------------------- the figures of one type

  function HasOutcome(outcome: string): Row -> bool {
    (r: Row) => r.job.outcome == Some(outcome)
  }

  function CountOutcome(rows: seq<Row>, outcome: string): nat {
    |Filter(rows, HasOutcome(outcome))|
  }

  function CountsOf(rows: seq<Row>): Counts {
    Counts(CountOutcome(rows, "success"), CountOutcome(rows, "error"), CountOutcome(rows, "dlq"),
           CountOutcome(rows, "requeued"), CountOutcome(rows, "skipped"), |rows|)
  }

  const OUTCOMES: set<string> := {"success", "error", "dlq", "requeued", "skipped"}

  function ErrorRate(c: Counts): real {
    if c.total == 0 then 0.0 else (c.error + c.dlq) as real / c.total as real
  }

  function Downloads(rows: seq<Row>): seq<Option<real>> {
    seq(|rows|, i requires 0 <= i < |rows| => rows[i].job.downloadS)
  }

  function Processings(rows: seq<Row>): seq<Option<real>> {
    seq(|rows|, i requires 0 <= i < |rows| => rows[i].job.processS)
  }

  function Durations(rows: seq<Row>): seq<Option<real>> {
    seq(|rows|, i requires 0 <= i < |rows| => rows[i].job.totalS)
  }

  lemma CountOutcomeNext(rows: seq<Row>, i: nat, outcome: string)
    requires i < |rows|
    ensures CountOutcome(rows[..i + 1], outcome) ==
            CountOutcome(rows[..i], outcome) + if rows[i].job.outcome == Some(outcome) then 1 else 0
  {
    assert rows[..i + 1] == rows[..i] + [rows[i]];
    FilterOfConcat(rows[..i], [rows[i]], HasOutcome(outcome));
  }

  /** The loop over a type's rows; an unknown outcome counts only towards the total. */
  method CountOutcomes(rows: seq<Row>) returns (counts: Counts)
    ensures counts == CountsOf(rows)
  {
    counts := Counts(0, 0, 0, 0, 0, |rows|);
    for i := 0 to |rows|
      invariant counts == CountsOf(rows[..i]).(total := |rows|)
    {
      CountOutcomeNext(rows, i, "success");
      CountOutcomeNext(rows, i, "error");
      CountOutcomeNext(rows, i, "dlq");
      CountOutcomeNext(rows, i, "requeued");
      CountOutcomeNext(rows, i, "skipped");
      match rows[i].job.outcome {
        case None =>
        case Some(outcome) =>
          if outcome == "success" {
            counts := counts.(success := counts.success + 1);
          } else if outcome == "error" {
            counts := counts.(error := counts.error + 1);
          } else if outcome == "dlq" {
            counts := counts.(dlq := counts.dlq + 1);
          } else if outcome == "requeued" {
            counts := counts.(requeued := counts.requeued + 1);
          } else if outcome == "skipped" {
            counts := counts.(skipped := counts.skipped + 1);
          }
      }
    }
    assert rows[..|rows|] == rows;
  }

  predicate KnownOutcome(r: Row) {
    r.job.outcome.Some? && r.job.outcome.value in OUTCOMES
  }

  /** How many rows the five outcomes tell apart. */
  function Told(c: Counts): nat {
    c.success + c.error + c.dlq + c.requeued + c.skipped
  }

  lemma ToldNext(rows: seq<Row>, i: nat)
    requires i < |rows|
    ensures Told(CountsOf(rows[..i + 1])) == Told(CountsOf(rows[..i])) + if KnownOutcome(rows[i]) then 1 else 0
  {
    CountOutcomeNext(rows, i, "success");
    CountOutcomeNext(rows, i, "error");
    CountOutcomeNext(rows, i, "dlq");
    CountOutcomeNext(rows, i, "requeued");
    CountOutcomeNext(rows, i, "skipped");
  }

  /** The five counts add up to the total exactly if every row has one of the five outcomes. */
  lemma {:induction false} CountsWithinTotal(rows: seq<Row>)
    ensures Told(CountsOf(rows)) <= CountsOf(rows).total
    ensures Told(CountsOf(rows)) == CountsOf(rows).total <==> forall i :: 0 <= i < |rows| ==> KnownOutcome(rows[i])
  {
    if rows == [] {
      assert forall outcome :: Filter(rows, HasOutcome(outcome)) == [];
    } else {
      var n := |rows| - 1;
      CountsWithinTotal(rows[..n]);
      ToldNext(rows, n);
      assert rows[..n + 1] == rows && rows == rows[..n] + [rows[n]];
      assert forall i :: 0 <= i < n ==> rows[..n][i] == rows[i];
    }
  }

  /** The error rate is a fraction: zero without failures, one if all jobs failed. */
  lemma ErrorRateIsFraction(rows: seq<Row>)
    ensures var c := CountsOf(rows); RateIsFraction(c, c.error + c.dlq)
  {
    CountsWithinTotal(rows);
    RateOfCounts(CountsOf(rows));
  }

  predicate RateIsFraction(c: Counts, failed: nat) {
    && 0.0 <= ErrorRate(c) <= 1.0
    && (ErrorRate(c) == 0.0 <==> failed == 0)
    && (ErrorRate(c) == 1.0 <==> failed == c.total > 0)
  }

  lemma RateOfCounts(c: Counts)
    requires c.error + c.dlq <= c.total
    ensures RateIsFraction(c, c.error + c.dlq)
  {
    if c.total > 0 {
      FractionFacts((c.error + c.dlq) as real, c.total as real);
    }
  }

  /** One more row raises the total, and the count of its own outcome if that is one of the five. */
  lemma OneMoreRowCounts(rows: seq<Row>, r: Row)
    ensures
      var before, after := CountsOf(rows), CountsOf(rows + [r]);
      && after.success == before.success + (if r.job.outcome == Some("success") then 1 else 0)
      && after.error == before.error + (if r.job.outcome == Some("error") then 1 else 0)
      && after.dlq == before.dlq + (if r.job.outcome == Some("dlq") then 1 else 0)
      && after.requeued == before.requeued + (if r.job.outcome == Some("requeued") then 1 else 0)
      && after.skipped == before.skipped + (if r.job.outcome == Some("skipped") then 1 else 0)
      && after.total == before.total + 1
    ensures CountsOf([]) == Counts(0, 0, 0, 0, 0, 0)
  {
    assert (rows + [r])[..|rows|] == rows && (rows + [r])[..|rows| + 1] == rows + [r];
    CountOutcomeNext(rows + [r], |rows|, "success");
    CountOutcomeNext(rows + [r], |rows|, "error");
    CountOutcomeNext(rows + [r], |rows|, "dlq");
    CountOutcomeNext(rows + [r], |rows|, "requeued");
    CountOutcomeNext(rows + [r], |rows|, "skipped");
  }

  predicate FailedJob(r: Row) {
    r.job.outcome == Some("error") || r.job.outcome == Some("dlq")
  }

  /** The error rate times the number of rows is the number of rows that failed or were dead-lettered. */
  lemma {:induction false} ErrorRateMeans(rows: seq<Row>)
    ensures CountsOf(rows).error + CountsOf(rows).dlq == |Filter(rows, FailedJob)|
    ensures Times(|rows| as real, ErrorRate(CountsOf(rows))) == |Filter(rows, FailedJob)| as real
    ensures rows == [] ==> ErrorRate(CountsOf(rows)) == 0.0
  {
    if rows != [] {
      var front, last := rows[..|rows| - 1], rows[|rows| - 1];
      assert rows == front + [last];
      ErrorRateMeans(front);
      OneMoreRowCounts(front, last);
      FilterOfConcat(front, [last], FailedJob);
    }
    RateTimesTotal(CountsOf(rows));
  }

  lemma RateTimesTotal(c: Counts)
    requires c.total == 0 ==> c.error + c.dlq == 0
    ensures Times(c.total as real, ErrorRate(c)) == (c.error + c.dlq) as real
  {
  }

  lemma FractionFacts(x: real, n: real)
    requires 0.0 <= x <= n && n > 0.0
    ensures 0.0 <= x / n <= 1.0 && (x / n == 0.0 <==> x == 0.0) && (x / n == 1.0 <==> x == n)
  {
    assert Times(n, 0.0) == 0.0 && Times(n, 1.0) == n;
    QuotientBetween(x, n, 0.0, 1.0);
    assert x / n * n == x;
  }

  // ----------------------------------------------------------------- stage averages

  /** The stage timings of the rows, one after another. */
  function StagesOf(rows: seq<Row>): seq<Stage> {
    if rows == [] then [] else StagesOf(rows[..|rows| - 1]) + rows[|rows| - 1].job.stages
  }

  function SecondsOf(stages: seq<Stage>, name: string): seq<real> {
    if stages == [] then [] else
    var last := stages[|stages| - 1];
    SecondsOf(stages[..|stages| - 1], name) + if last.name == name then [last.seconds] else []
  }

  /** Exactly the stages that occur, each with its average. */
  ghost predicate AveragesOf(averages: map<string, real>, stages: seq<Stage>) {
    && (forall name :: name in averages <==> SecondsOf(stages, name) != [])
    && (forall name :: name in averages ==> averages[name] == Average(SecondsOf(stages, name)))
  }

  ghost predicate TalliedAt(sums: map<string, real>, counts: map<string, nat>, times: seq<real>, name: string) {
    && (name in sums <==> times != []) && (name in counts <==> times != [])
    && (name in sums ==> sums[name] == Sum(times) && name in counts && counts[name] == |times|)
  }

  ghost predicate Tallied(sums: map<string, real>, counts: map<string, nat>, stages: seq<Stage>) {
    forall name :: TalliedAt(sums, counts, SecondsOf(stages, name), name)
  }

  lemma TalliedNext(sums: map<string, real>, counts: map<string, nat>, stages: seq<Stage>, s: Stage)
    requires Tallied(sums, counts, stages)
    ensures var sum := if s.name in sums then sums[s.name] else 0.0;
            var count := if s.name in counts then counts[s.name] else 0;
            Tallied(sums[s.name := sum + s.seconds], counts[s.name := count + 1], stages + [s])
  {
    var sum := if s.name in sums then sums[s.name] else 0.0;
    var count := if s.name in counts then counts[s.name] else 0;
    assert (stages + [s])[..|stages|] == stages;
    forall name
      ensures TalliedAt(sums[s.name := sum + s.seconds], counts[s.name := count + 1],
                        SecondsOf(stages + [s], name), name)
    {
      var times := SecondsOf(stages, name);
      assert TalliedAt(sums, counts, times, name);
      if name == s.name {
        SumSnoc(times, s.seconds);
        assert SecondsOf(stages + [s], name) == times + [s.seconds];
      } else {
        assert SecondsOf(stages + [s], name) == times + [] == times;
      }
    }
  }

  /** The inner loop of _avg_stages: one more row's stages. */
  method TallyStages(sums: map<string, real>, counts: map<string, nat>, ghost before: seq<Stage>, stages: seq<Stage>)
    returns (sums': map<string, real>, counts': map<string, nat>)
    requires Tallied(sums, counts, before)
    ensures Tallied(sums', counts', before + stages)
  {
    hide Tallied;
    sums', counts' := sums, counts;
    assert before + stages[..0] == before;
    for j := 0 to |stages|
      invariant Tallied(sums', counts', before + stages[..j])
    {
      var s := stages[j];
      TalliedNext(sums', counts', before + stages[..j], s);
      assert (before + stages[..j]) + [s] == before + stages[..j + 1];
      var sum := if s.name in sums' then sums'[s.name] else 0.0;
      var count := if s.name in counts' then counts'[s.name] else 0;
      sums', counts' := sums'[s.name := sum + s.seconds], counts'[s.name := count + 1];
    }
    assert stages[..|stages|] == stages;
  }

  /** _avg_stages. */
  method AverageStages(rows: seq<Row>) returns (averages: map<string, real>)
    ensures AveragesOf(averages, StagesOf(rows))
  {
    var sums: map<string, real> := map[];
    var counts: map<string, nat> := map[];
    for i := 0 to |rows|
      invariant Tallied(sums, counts, StagesOf(rows[..i]))
    {
      assert rows[..i + 1][..i] == rows[..i];
      sums, counts := TallyStages(sums, counts, StagesOf(rows[..i]), rows[i].job.stages);
    }
    assert rows[..|rows|] == rows;
    averages := Quotients(sums, counts, StagesOf(rows));
  }

  function Quotients(sums: map<string, real>, counts: map<string, nat>, ghost stages: seq<Stage>)
    : (averages: map<string, real>)
    requires Tallied(sums, counts, stages)
    ensures AveragesOf(averages, stages)
  {
    map name | name in sums ::
      assert TalliedAt(sums, counts, SecondsOf(stages, name), name); sums[name] / counts[name] as real
  }

  /** A type with a job in the window finished last inside the window. */
  lemma WindowHoldsLatest(rows: seq<Row>, since: string, t: string, last: Row)
    requires IsLatest(last, RowsOf(InWindow(rows, since), t))
    ensures IsLatest(last, RowsOf(rows, t))
  {
    var inside, all := RowsOf(InWindow(rows, since), t), RowsOf(rows, t);
    forall r ensures r in inside <==> r in all && !Before(r.job.finishedAt, since) {
      FilterElements(InWindow(rows, since), OfType(t), r);
      FilterElements(rows, FinishedSince(since), r);
      FilterElements(rows, OfType(t), r);
    }
    forall r | r in all ensures NameOrder(r.job.finishedAt, last.job.finishedAt) {
      if Before(r.job.finishedAt, since) {
        BeforeIsTotal(r.job.finishedAt, last.job.finishedAt);
        if Before(last.job.finishedAt, r.job.finishedAt) {
          BeforeIsTransitive(last.job.finishedAt, r.job.finishedAt, since);
        }
      }
    }
  }

  // ------------------------------------------------------------------------ grouping

  /** `order` lists the types met, and `groups` holds each type's rows in reading order. */
  ghost predicate Grouped(order: seq<string>, groups: map<string, seq<Row>>, rows: seq<Row>) {
    && Distinct(order)
    && (forall t :: t in order <==> t in groups)
    && (forall t :: t in groups <==> RowsOf(rows, t) != [])
    && (forall t :: t in groups ==> groups[t] == RowsOf(rows, t))
  }

  /** One more row joins its type's group, which is new if the type has not been met. */
  lemma GroupedNext(order: seq<string>, groups: map<string, seq<Row>>, rows: seq<Row>, i: nat)
    requires i < |rows| && Grouped(order, groups, rows[..i])
    ensures var t := rows[i].job.jobType;
            Grouped(if t in groups then order else order + [t],
                    groups[t := (if t in groups then groups[t] else []) + [rows[i]]],
                    rows[..i + 1])
  {
    var t := rows[i].job.jobType;
    var next := groups[t := (if t in groups then groups[t] else []) + [rows[i]]];
    forall u
      ensures u in next <==> RowsOf(rows[..i + 1], u) != []
      ensures u in next ==> next[u] == RowsOf(rows[..i + 1], u)
    {
      RowsOfTypeNext(rows, i, u);
    }
  }

  lemma RowsOfTypeNext(rows: seq<Row>, i: nat, t: string)
    requires i < |rows|
    ensures RowsOf(rows[..i + 1], t) ==
            RowsOf(rows[..i], t) + if rows[i].job.jobType == t then [rows[i]] else []
  {
    assert rows[..i + 1] == rows[..i] + [rows[i]];
    FilterOfConcat(rows[..i], [rows[i]], OfType(t));
  }

  method GroupByType(rows: seq<Row>) returns (order: seq<string>, groups: map<string, seq<Row>>)
    ensures Grouped(order, groups, rows)
  {
    order, groups := [], map[];
    for i := 0 to |rows|
      invariant Grouped(order, groups, rows[..i])
    {
      var t := rows[i].job.jobType;
      GroupedNext(order, groups, rows, i);
      if t in groups {
        groups := groups[t := groups[t] + [rows[i]]];
      } else {
        order := order + [t];
        groups := groups[t := [rows[i]]];
      }
    }
    assert rows[..|rows|] == rows;
  }

  // ------------------------------------------------------------------------ summary

  /** One type's entry: figures of its jobs in the window, label and time of its last job ever. */
  ghost predicate Describes(e: Entry, rows: seq<Row>, since: string) {
    var inside := RowsOf(InWindow(rows, since), e.jobType);
    var ok := Filter(inside, HasOutcome("success"));
    && Newest(e.productLabel, e.lastFinished, RowsOf(rows, e.jobType))
    && e.counts == CountsOf(inside) && e.errorRate == ErrorRate(e.counts)
    && e.totalS == StatsOf(Durations(ok)) && e.downloadS == StatsOf(Downloads(ok))
    && e.processS == StatsOf(Processings(ok))
    && AveragesOf(e.stages, StagesOf(ok))
  }

  ghost predicate AllDescribed(entries: seq<Entry>, rows: seq<Row>, since: string) {
    forall e :: e in entries ==> Describes(e, rows, since)
  }

  lemma OneMoreDescribed(entries: seq<Entry>, e: Entry, rows: seq<Row>, since: string)
    requires AllDescribed(entries, rows, since) && Describes(e, rows, since)
    ensures AllDescribed(entries + [e], rows, since)
  {
    forall d | d in entries + [e] ensures Describes(d, rows, since) {
      assert d in entries || d == e;
    }
  }

  /** A table of one successful job: its label, its finish time, a clean record, and its own times in their places. */
  lemma OneSuccess(e: Entry, r: Row, total: real, download: real, process: real)
    requires Describes(e, [r], "") && e.jobType == r.job.jobType && r.job.outcome == Some("success")
    requires r.job.totalS == Some(total) && r.job.downloadS == Some(download) && r.job.processS == Some(process)
    ensures e.productLabel == r.job.productLabel && e.lastFinished == r.job.finishedAt
    ensures e.counts == Counts(1, 0, 0, 0, 0, 1) && e.errorRate == 0.0
    ensures e.totalS == Stats(total, total, total, total)
    ensures e.downloadS == Stats(download, download, download, download)
    ensures e.processS == Stats(process, process, process, process)
  {
    hide Describes, StatsOf, CountsOf, Newest, Durations, Downloads, Processings;
    DescribesOneRow(e, r);
    OneRowFigures(r, total, download, process);
    OneNewest(e.productLabel, e.lastFinished, r);
  }

  lemma DescribesOneRow(e: Entry, r: Row)
    requires Describes(e, [r], "") && e.jobType == r.job.jobType && r.job.outcome == Some("success")
    ensures Newest(e.productLabel, e.lastFinished, [r])
    ensures e.counts == CountsOf([r]) && e.errorRate == ErrorRate(e.counts)
    ensures e.totalS == StatsOf(Durations([r]))
    ensures e.downloadS == StatsOf(Downloads([r])) && e.processS == StatsOf(Processings([r]))
  {
    hide Filter, RowsOf, InWindow, StatsOf, CountsOf, Newest, Durations, Downloads, Processings, AveragesOf;
    OneRowTable(r);
  }

  lemma OneRowTable(r: Row)
    ensures InWindow([r], "") == [r] && RowsOf([r], r.job.jobType) == [r]
    ensures r.job.outcome == Some("success") ==> Filter([r], HasOutcome("success")) == [r]
  {
    OneRowKept(r, FinishedSince(""));
    OneRowKept(r, OfType(r.job.jobType));
    if r.job.outcome == Some("success") {
      OneRowKept(r, HasOutcome("success"));
    }
  }

  lemma OneRowFigures(r: Row, total: real, download: real, process: real)
    requires r.job.outcome == Some("success")
    requires r.job.totalS == Some(total) && r.job.downloadS == Some(download) && r.job.processS == Some(process)
    ensures CountsOf([r]) == Counts(1, 0, 0, 0, 0, 1)
    ensures StatsOf(Durations([r])) == Stats(total, total, total, total)
    ensures StatsOf(Downloads([r])) == Stats(download, download, download, download)
    ensures StatsOf(Processings([r])) == Stats(process, process, process, process)
  {
    hide StatsOf, CountsOf;
    assert [] + [r] == [r];
    OneMoreRowCounts([], r);
    assert Durations([r]) == [Some(total)] && Downloads([r]) == [Some(download)] && Processings([r]) == [Some(process)];
    StatsOfOne(total);
    StatsOfOne(download);
    StatsOfOne(process);
  }

  lemma OneNewest(name: Option<string>, finishedAt: string, r: Row)
    requires Newest(name, finishedAt, [r])
    ensures name == r.job.productLabel && finishedAt == r.job.finishedAt
  {
  }

  lemma OneRowKept(r: Row, keep: Row -> bool)
    requires keep(r)
    ensures Filter([r], keep) == [r]
  {
    assert [r][1..] == [];
  }

  predicate BusiestFirst(a: Entry, b: Entry) {
    || a.counts.total > b.counts.total
    || (a.counts.total == b.counts.total && NameOrder(b.lastFinished, a.lastFinished))
  }

  lemma BusiestFirstSorts()
    ensures TotalPreorder(BusiestFirst)
  {
    NamesSort();
  }

  /** The list has an entry for the type. */
  ghost predicate Lists(entries: seq<Entry>, t: string) {
    exists i :: 0 <= i < |entries| && entries[i].jobType == t
  }

  ghost predicate OnePerType(entries: seq<Entry>) {
    forall i, j :: 0 <= i < j < |entries| ==> entries[i].jobType != entries[j].jobType
  }

  /** _summarize_type. */
  method SummariseType(rows: seq<Row>, since: string, t: string, group: seq<Row>) returns (e: Entry)
    requires group == RowsOf(InWindow(rows, since), t) != []
    ensures e.jobType == t && Describes(e, rows, since)
  {
    var counts := CountOutcomes(group);
    var ok := Filter(group, HasOutcome("success"));
    var latest := LatestRow(group);
    WindowHoldsLatest(rows, since, t, latest);
    var stages := AverageStages(ok);
    e := Entry(t, latest.job.productLabel, counts, ErrorRate(counts), latest.job.finishedAt,
               StatsOf(Durations(ok)), StatsOf(Downloads(ok)), StatsOf(Processings(ok)), stages);
  }

  /** _empty_summary: a type without jobs in the window. */
  function EmptySummary(k: KnownType): Entry {
    Entry(k.jobType, k.productLabel, Counts(0, 0, 0, 0, 0, 0), 0.0, k.lastFinished, NoStats, NoStats, NoStats, map[])
  }

  lemma EmptySummaryDescribes(rows: seq<Row>, since: string, k: KnownType)
    requires DescribesType(k, rows) && RowsOf(InWindow(rows, since), k.jobType) == []
    ensures Describes(EmptySummary(k), rows, since)
  {
    assert Filter([], HasOutcome("success")) == [];
    assert StagesOf([]) == [] && Durations([]) == [] && Downloads([]) == [] && Processings([]) == [];
  }

  /** The entries of the types with jobs in the window, in the order the types were met. */
  method Summarise(rows: seq<Row>, since: string) returns (entries: seq<Entry>)
    ensures OnePerType(entries)
    ensures AllDescribed(entries, rows, since)
    ensures forall t :: Lists(entries, t) <==> CountOf(InWindow(rows, since), t) > 0
  {
    hide Grouped, Describes;
    var window := InWindow(rows, since);
    var order, groups := GroupByType(window);
    entries := [];
    for i := 0 to |order|
      invariant |entries| == i && forall j :: 0 <= j < i ==> entries[j].jobType == order[j]
      invariant AllDescribed(entries, rows, since)
    {
      GroupOf(order, groups, window, order[i]);
      var e := SummariseType(rows, since, order[i], groups[order[i]]);
      OneMoreDescribed(entries, e, rows, since);
      entries := entries + [e];
    }
    ListsTheirTypes(entries, order);
    OrderIsBusy(order, groups, window);
  }

  lemma OrderIsBusy(order: seq<string>, groups: map<string, seq<Row>>, rows: seq<Row>)
    requires Grouped(order, groups, rows)
    ensures Distinct(order) && forall t :: t in order <==> CountOf(rows, t) > 0
  {
  }

  lemma GroupOf(order: seq<string>, groups: map<string, seq<Row>>, rows: seq<Row>, t: string)
    requires Grouped(order, groups, rows)
    ensures t in order <==> CountOf(rows, t) > 0
    ensures t in order ==> t in groups && groups[t] == RowsOf(rows, t) != []
  {
  }

  lemma ListsTheirTypes(entries: seq<Entry>, order: seq<string>)
    requires Distinct(order) && |entries| == |order|
    requires forall j :: 0 <= j < |order| ==> entries[j].jobType == order[j]
    ensures OnePerType(entries) && forall t :: Lists(entries, t) <==> t in order
  {
    forall t ensures Lists(entries, t) <==> t in order {
      if t in order {
        var i :| 0 <= i < |order| && order[i] == t;
        assert entries[i].jobType == t;
      }
    }
  }

  /** Every type ever recorded, once: busiest first, types without jobs in the window last. */
  method Summary(rows: seq<Row>, since: string) returns (entries: seq<Entry>)
    ensures OnePerType(entries)
    ensures forall t :: Lists(entries, t) <==> CountOf(rows, t) > 0
    ensures AllDescribed(entries, rows, since)
    ensures forall i, j :: 0 <= i < j < |entries| ==>
              || entries[i].counts.total > entries[j].counts.total
              || (entries[i].counts.total == entries[j].counts.total
                  && NameOrder(entries[j].lastFinished, entries[i].lastFinished))
  {
    var busy := Summarise(rows, since);
    var known := KnownTypesOf(rows);
    var padded := Pad(rows, since, busy, known);
    BusiestFirstSorts();
    SortOrders(padded, BusiestFirst);
    entries := Sort(padded, BusiestFirst);
    SortedEntries(padded);
  }

  method Pad(rows: seq<Row>, since: string, busy: seq<Entry>, known: seq<KnownType>) returns (entries: seq<Entry>)
    requires OnePerType(busy) && AllDescribed(busy, rows, since)
    requires forall t :: Lists(busy, t) <==> CountOf(InWindow(rows, since), t) > 0
    requires ListsTypes(known, rows)
    ensures OnePerType(entries) && AllDescribed(entries, rows, since)
    ensures forall t :: Lists(entries, t) <==> CountOf(rows, t) > 0
  {
    entries := busy;
    for i := 0 to |known|
      invariant OnePerType(entries) && AllDescribed(entries, rows, since)
      invariant forall t :: Lists(entries, t) <==> Lists(busy, t) || NamedIn(known[..i], t)
    {
      NewType(known, i);
      var isBusy := exists j :: 0 <= j < |busy| && busy[j].jobType == known[i].jobType;
      if !isBusy {
        EmptySummaryDescribes(rows, since, known[i]);
        ListsOneMore(entries, EmptySummary(known[i]));
        OneMoreDescribed(entries, EmptySummary(known[i]), rows, since);
        entries := entries + [EmptySummary(known[i])];
      }
    }
    assert known[..|known|] == known;
    AllListed(rows, since, busy, known);
  }

  ghost predicate NamedIn(known: seq<KnownType>, t: string) {
    exists i :: 0 <= i < |known| && known[i].jobType == t
  }

  lemma NewType(known: seq<KnownType>, i: nat)
    requires i < |known| && forall j, k :: 0 <= j < k < |known| ==> Before(known[j].jobType, known[k].jobType)
    ensures !NamedIn(known[..i], known[i].jobType)
    ensures forall t :: NamedIn(known[..i + 1], t) <==> NamedIn(known[..i], t) || t == known[i].jobType
  {
    BeforeIsStrict(known[i].jobType);
    forall t ensures NamedIn(known[..i + 1], t) <==> NamedIn(known[..i], t) || t == known[i].jobType {
      var now, next := known[..i], known[..i + 1];
      assert next == now + [known[i]];
      if j :| 0 <= j < |now| && now[j].jobType == t {
        assert next[j] == now[j];
      }
      if j :| 0 <= j < |next| && next[j].jobType == t {
        assert j == i || now[j] == next[j];
      }
      assert next[i] == known[i];
    }
  }

  /** Busy and known types together are the types of the table. */
  lemma AllListed(rows: seq<Row>, since: string, busy: seq<Entry>, known: seq<KnownType>)
    requires forall t :: Lists(busy, t) <==> CountOf(InWindow(rows, since), t) > 0
    requires ListsTypes(known, rows)
    ensures forall t :: Lists(busy, t) || NamedIn(known, t) <==> CountOf(rows, t) > 0
  {
    forall t ensures Lists(busy, t) || NamedIn(known, t) <==> CountOf(rows, t) > 0 {
      TypeHasRows(rows, t);
      if Lists(busy, t) {
        WindowHoldsLatest(rows, since, t, LatestRow(RowsOf(InWindow(rows, since), t)));
      }
    }
  }

  lemma ListsOneMore(entries: seq<Entry>, e: Entry)
    ensures forall t :: Lists(entries + [e], t) <==> Lists(entries, t) || t == e.jobType
  {
    var all := entries + [e];
    forall t ensures Lists(all, t) <==> Lists(entries, t) || t == e.jobType {
      if i :| 0 <= i < |entries| && entries[i].jobType == t {
        assert all[i] == entries[i];
      }
      if t == e.jobType {
        assert all[|entries|].jobType == t;
      }
    }
  }

  /** Sorting entries keeps what is said of them. */
  lemma SortedEntries(entries: seq<Entry>)
    requires OnePerType(entries)
    ensures OnePerType(Sort(entries, BusiestFirst))
    ensures forall e :: e in Sort(entries, BusiestFirst) <==> e in entries
    ensures forall t :: Lists(Sort(entries, BusiestFirst), t) <==> Lists(entries, t)
  {
    var sorted := Sort(entries, BusiestFirst);
    forall e ensures e in sorted <==> e in entries {
      SortKeepsElements(entries, BusiestFirst, e);
    }
    SortKeepsDistinct(entries, BusiestFirst);
    forall i, j | 0 <= i < j < |sorted| ensures sorted[i].jobType != sorted[j].jobType {
      assert sorted[i] in entries && sorted[j] in entries && sorted[i] != sorted[j];
    }
    forall t ensures Lists(sorted, t) <==> Lists(entries, t) {
      if i :| 0 <= i < |sorted| && sorted[i].jobType == t {
        assert sorted[i] in entries;
      }
      if i :| 0 <= i < |entries| && entries[i].jobType == t {
        assert entries[i] in sorted;
      }
    }
  }

  // -------------------------------------------------------------------- conservation

  function Totals(entries: seq<Entry>): nat {
    if entries == [] then 0 else entries[0].counts.total + Totals(entries[1..])
  }

  function CountsPerType(entries: seq<Entry>, rows: seq<Row>): nat {
    if entries == [] then 0 else CountOf(rows, entries[0].jobType) + CountsPerType(entries[1..], rows)
  }

  lemma {:induction false} CountsOfOneMore(entries: seq<Entry>, rows: seq<Row>, r: Row)
    requires OnePerType(entries)
    ensures CountsPerType(entries, rows + [r]) == CountsPerType(entries, rows)
          + if Lists(entries, r.job.jobType) then 1 else 0
  {
    if entries != [] {
      var t := entries[0].jobType;
      CountsOfOneMore(entries[1..], rows, r);
      FilterOfConcat(rows, [r], OfType(t));
      if Lists(entries[1..], r.job.jobType) {
        var i :| 0 <= i < |entries[1..]| && entries[1..][i].jobType == r.job.jobType;
        assert entries[i + 1].jobType == r.job.jobType;
      }
      if i :| 0 < i < |entries| && entries[i].jobType == r.job.jobType {
        assert entries[1..][i - 1] == entries[i];
      }
    }
  }

  lemma {:induction false} CountsOfNone(entries: seq<Entry>)
    ensures CountsPerType(entries, []) == 0
  {
    if entries != [] {
      CountsOfNone(entries[1..]);
    }
  }

  lemma {:induction false} CountsAddUp(entries: seq<Entry>, rows: seq<Row>)
    requires OnePerType(entries)
    requires forall i :: 0 <= i < |rows| ==> Lists(entries, rows[i].job.jobType)
    ensures CountsPerType(entries, rows) == |rows|
  {
    if rows == [] {
      CountsOfNone(entries);
    } else {
      var n := |rows| - 1;
      CountsAddUp(entries, rows[..n]);
      assert rows == rows[..n] + [rows[n]];
      CountsOfOneMore(entries, rows[..n], rows[n]);
    }
  }

  lemma {:induction false} TotalsAreCounts(entries: seq<Entry>, rows: seq<Row>, since: string)
    requires AllDescribed(entries, rows, since)
    ensures Totals(entries) == CountsPerType(entries, InWindow(rows, since))
  {
    if entries != [] {
      assert entries[0] in entries;
      assert forall e :: e in entries[1..] ==> e in entries;
      TotalsAreCounts(entries[1..], rows, since);
    }
  }

  /** The totals of a summary add up to the number of jobs in the window. */
  lemma TotalsAddUp(entries: seq<Entry>, rows: seq<Row>, since: string)
    requires OnePerType(entries) && AllDescribed(entries, rows, since)
    requires forall t :: Lists(entries, t) <==> CountOf(rows, t) > 0
    ensures Totals(entries) == |InWindow(rows, since)|
  {
    var window := InWindow(rows, since);
    TotalsAreCounts(entries, rows, since);
    forall i | 0 <= i < |window| ensures Lists(entries, window[i].job.jobType) {
      assert window[i] in window;
      FilterElements(rows, FinishedSince(since), window[i]);
      FilterElements(rows, OfType(window[i].job.jobType), window[i]);
    }
    CountsAddUp(entries, window);
  }
}
