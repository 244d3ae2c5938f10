/**
 The v1 columnar timeline of src/metrics_api/timeline_codec.py: rows in stable start
 order, repeated strings sent once and referenced by index, ids and starts as
 differences.  Times are epoch milliseconds, as _epoch_ms yields them.
 */
module TimelineCodec {
  import opened Common
  import opened Sorting

  datatype Row = Row(
    id: int,
    jobType: string,
    productLabel: Option<string>,
    outcome: string,
    worker: Option<string>,
    started: int,
    finished: int)

  datatype Payload = Payload(
    t0: Option<int>,
    types: seq<string>,
    labels: seq<Option<string>>,
    outcomes: seq<string>,
    workers: seq<Option<string>>,
    id: seq<int>,
    jobType: seq<nat>,
    outcome: seq<nat>,
    worker: seq<nat>,
    start: seq<int>,
    dur: seq<int>)

  // --------------------------------------------------------------------- columns

  /** _distinct: unique values in first-seen order. */
  function FirstSeen<T(==)>(values: seq<T>): seq<T> {
    if values == [] then
      []
    else
      var last := values[|values| - 1];
      var earlier := FirstSeen(values[..|values| - 1]);
      if last in earlier then earlier else earlier + [last]
  }

  lemma {:induction false} FirstSeenHas<T>(values: seq<T>, v: T)
    ensures v in FirstSeen(values) <==> v in values
  {
    if values != [] {
      FirstSeenHas(values[..|values| - 1], v);
      assert values == values[..|values| - 1] + [values[|values| - 1]];
    }
  }

  lemma {:induction false} FirstSeenIsDistinct<T>(values: seq<T>)
    ensures Distinct(FirstSeen(values))
  {
    if values != [] {
      FirstSeenIsDistinct(values[..|values| - 1]);
    }
  }

  function IndexOf<T(==)>(values: seq<T>, v: T): (i: nat)
    ensures v in values ==> i < |values| && values[i] == v
  {
    if values == [] || values[0] == v then 0 else 1 + IndexOf(values[1..], v)
  }

  /** The dictionary lists values in the order in which the column first shows them. */
  lemma {:induction false} FirstSeenInOrder<T>(values: seq<T>, i: nat, j: nat)
    requires i < j < |FirstSeen(values)|
    ensures IndexOf(values, FirstSeen(values)[i]) < IndexOf(values, FirstSeen(values)[j])
  {
    var n := |values| - 1;
    var front, last := values[..n], values[n];
    assert values == front + [last];
    var x, y := FirstSeen(values)[i], FirstSeen(values)[j];
    FirstSeenHas(front, x);
    FirstSeenHas(front, y);
    if j < |FirstSeen(front)| {
      FirstSeenInOrder(front, i, j);
      IndexInFront(front, [last], y);
    } else {
      IndexBehind(front, [last], y);
    }
    assert x in FirstSeen(front);
    IndexInFront(front, [last], x);
  }

  lemma {:induction false} IndexInFront<T>(a: seq<T>, b: seq<T>, v: T)
    requires v in a
    ensures IndexOf(a + b, v) == IndexOf(a, v) < |a|
  {
    if a[0] != v {
      assert (a + b)[1..] == a[1..] + b;
      IndexInFront(a[1..], b, v);
    }
  }

  lemma {:induction false} IndexBehind<T>(a: seq<T>, b: seq<T>, v: T)
    requires v !in a
    ensures IndexOf(a + b, v) >= |a|
  {
    if a != [] {
      assert (a + b)[1..] == a[1..] + b;
      IndexBehind(a[1..], b, v);
    }
  }

  /** _indices: positions of the column's values in their dictionary. */
  function Indices<T(==)>(column: seq<T>, values: seq<T>): (r: seq<nat>)
    ensures |r| == |column| && forall i :: 0 <= i < |column| ==> r[i] == IndexOf(values, column[i])
  {
    seq(|column|, i requires 0 <= i < |column| => IndexOf(values, column[i]))
  }

  /** Looking an index up in the first-seen dictionary gives the value back. */
  lemma IndexPointsBack<T>(column: seq<T>, i: nat)
    requires i < |column|
    ensures
      var index := Indices(column, FirstSeen(column))[i];
      index < |FirstSeen(column)| && FirstSeen(column)[index] == column[i]
  {
    FirstSeenHas(column, column[i]);
  }

  function Differences(values: seq<int>, origin: int): (r: seq<int>)
    ensures |r| == |values|
  {
    if values == [] then [] else [values[0] - origin] + Differences(values[1..], values[0])
  }

  function Sums(differences: seq<int>, origin: int): (r: seq<int>)
    ensures |r| == |differences|
  {
    if differences == [] then [] else [origin + differences[0]] + Sums(differences[1..], origin + differences[0])
  }

  /** _deltas. */
  method Deltas(values: seq<int>, origin: int) returns (out: seq<int>)
    ensures out == Differences(values, origin)
  {
    out := [];
    var previous := origin;
    for i := 0 to |values|
      invariant out + Differences(values[i..], previous) == Differences(values, origin)
    {
      assert values[i..][0] == values[i] && values[i..][1..] == values[i + 1..];
      out := out + [values[i] - previous];
      previous := values[i];
    }
    assert values[|values|..] == [];
  }

  // -------------------------------------------------------------------- encoding

  function ByStart(): (Row, Row) -> bool {
    (a: Row, b: Row) => a.started <= b.started
  }

  function StartOrder(rows: seq<Row>): seq<Row> {
    Sort(rows, ByStart())
  }

  function Ids(rows: seq<Row>): (r: seq<int>)
    ensures |r| == |rows| && forall i :: 0 <= i < |rows| ==> r[i] == rows[i].id
  {
    seq(|rows|, i requires 0 <= i < |rows| => rows[i].id)
  }

  function Starts(rows: seq<Row>): (r: seq<int>)
    ensures |r| == |rows| && forall i :: 0 <= i < |rows| ==> r[i] == rows[i].started
  {
    seq(|rows|, i requires 0 <= i < |rows| => rows[i].started)
  }

  function Durations(rows: seq<Row>): (r: seq<int>)
    ensures |r| == |rows| && forall i :: 0 <= i < |rows| ==> r[i] == rows[i].finished - rows[i].started
  {
    seq(|rows|, i requires 0 <= i < |rows| => rows[i].finished - rows[i].started)
  }

  function JobTypes(rows: seq<Row>): (r: seq<string>)
    ensures |r| == |rows| && forall i :: 0 <= i < |rows| ==> r[i] == rows[i].jobType
  {
    seq(|rows|, i requires 0 <= i < |rows| => rows[i].jobType)
  }

  function Outcomes(rows: seq<Row>): (r: seq<string>)
    ensures |r| == |rows| && forall i :: 0 <= i < |rows| ==> r[i] == rows[i].outcome
  {
    seq(|rows|, i requires 0 <= i < |rows| => rows[i].outcome)
  }

  function Workers(rows: seq<Row>): (r: seq<Option<string>>)
    ensures |r| == |rows| && forall i :: 0 <= i < |rows| ==> r[i] == rows[i].worker
  {
    seq(|rows|, i requires 0 <= i < |rows| => rows[i].worker)
  }

  /** The label the dict keeps for a job type: that of its last row. */
  function LatestLabel(rows: seq<Row>, jobType: string): Option<string> {
    if rows == [] then
      None
    else if rows[|rows| - 1].jobType == jobType then
      rows[|rows| - 1].productLabel
    else
      LatestLabel(rows[..|rows| - 1], jobType)
  }

  function Labels(rows: seq<Row>, types: seq<string>): (r: seq<Option<string>>)
    ensures |r| == |types| && forall i :: 0 <= i < |types| ==> r[i] == LatestLabel(rows, types[i])
  {
    seq(|types|, i requires 0 <= i < |types| => LatestLabel(rows, types[i]))
  }

  function EpochOf(ordered: seq<Row>): int {
    if ordered == [] then 0 else ordered[0].started
  }

  /** The payload of rows already in start order. */
  function EncodeOrdered(ordered: seq<Row>): Payload {
    Payload(
      if ordered == [] then None else Some(ordered[0].started),
      FirstSeen(JobTypes(ordered)),
      Labels(ordered, FirstSeen(JobTypes(ordered))),
      FirstSeen(Outcomes(ordered)),
      FirstSeen(Workers(ordered)),
      Differences(Ids(ordered), 0),
      Indices(JobTypes(ordered), FirstSeen(JobTypes(ordered))),
      Indices(Outcomes(ordered), FirstSeen(Outcomes(ordered))),
      Indices(Workers(ordered), FirstSeen(Workers(ordered))),
      Differences(Starts(ordered), EpochOf(ordered)),
      Durations(ordered))
  }

  function EncodeTimeline(rows: seq<Row>): Payload {
    EncodeOrdered(StartOrder(rows))
  }

  // -------------------------------------------------------------------- decoding

  /** What the dashboard draws for one row. */
  datatype Bar = Bar(id: int, jobType: string, outcome: string, worker: Option<string>, started: int, finished: int)

  predicate IndicesInRange(p: Payload, i: nat)
    requires i < |p.jobType| == |p.outcome| == |p.worker|
  {
    p.jobType[i] < |p.types| && p.outcome[i] < |p.outcomes| && p.worker[i] < |p.workers|
  }

  predicate Decodable(p: Payload) {
    && |p.jobType| == |p.outcome| == |p.worker| == |p.start| == |p.dur| == |p.id|
    && forall i :: 0 <= i < |p.id| ==> IndicesInRange(p, i)
  }

  /** The client's reading of one column position: running sums, look-ups, finish = start + dur. */
  function BarAt(p: Payload, i: nat): Bar
    requires i < |p.jobType| == |p.outcome| == |p.worker| == |p.start| == |p.dur| == |p.id| && IndicesInRange(p, i)
  {
    var start := Sums(p.start, if p.t0.Some? then p.t0.value else 0)[i];
    Bar(Sums(p.id, 0)[i], p.types[p.jobType[i]], p.outcomes[p.outcome[i]], p.workers[p.worker[i]],
        start, start + p.dur[i])
  }

  function DecodeTimeline(p: Payload): (bars: seq<Bar>)
    requires Decodable(p)
    ensures |bars| == |p.id| && forall i :: 0 <= i < |p.id| ==> bars[i] == BarAt(p, i)
  {
    seq(|p.id|, i requires 0 <= i < |p.id| => BarAt(p, i))
  }

  function Bars(rows: seq<Row>): (r: seq<Bar>)
    ensures |r| == |rows|
    ensures forall i :: 0 <= i < |rows| ==>
              r[i] == Bar(rows[i].id, rows[i].jobType, rows[i].outcome, rows[i].worker, rows[i].started,
                  rows[i].finished)
  {
    seq(|rows|, i requires 0 <= i < |rows| =>
      Bar(rows[i].id, rows[i].jobType, rows[i].outcome, rows[i].worker, rows[i].started, rows[i].finished))
  }

  lemma {:induction false} SumsUndoDifferences(values: seq<int>, origin: int)
    ensures Sums(Differences(values, origin), origin) == values
  {
    if values != [] {
      SumsUndoDifferences(values[1..], values[0]);
      var d := Differences(values, origin);
      assert d[1..] == Differences(values[1..], values[0]);
      assert values == [values[0]] + values[1..];
    }
  }

  lemma {:induction false} DifferenceAt(values: seq<int>, origin: int, i: nat)
    requires i < |values|
    ensures Differences(values, origin)[i] == values[i] - if i == 0 then origin else values[i - 1]
  {
    if i > 0 {
      DifferenceAt(values[1..], values[0], i - 1);
    }
  }

  lemma StartOrderIsOrdered(rows: seq<Row>)
    ensures forall i, j :: 0 <= i < j < |rows| ==> StartOrder(rows)[i].started <= StartOrder(rows)[j].started
  {
    SortOrders(rows, ByStart());
  }

  /** Rows that start together stay in their original order, and no row is lost or invented. */
  lemma StartOrderIsStable(rows: seq<Row>, started: int)
    ensures multiset(StartOrder(rows)) == multiset(rows)
    ensures Filter(StartOrder(rows), (r: Row) => r.started == started) == Filter(rows, (r: Row) => r.started == started)
  {
    SortIsStable(rows, ByStart(), (r: Row) => r.started == started);
  }

  lemma BarComesBack(ordered: seq<Row>, i: nat)
    requires i < |ordered|
    ensures IndicesInRange(EncodeOrdered(ordered), i)
    ensures BarAt(EncodeOrdered(ordered), i) == Bars(ordered)[i]
  {
    SumsUndoDifferences(Ids(ordered), 0);
    SumsUndoDifferences(Starts(ordered), EpochOf(ordered));
    IndexPointsBack(JobTypes(ordered), i);
    IndexPointsBack(Outcomes(ordered), i);
    IndexPointsBack(Workers(ordered), i);
  }

  /** Decoding recovers every row's drawn fields, in stable start order. */
  lemma RoundTrip(rows: seq<Row>)
    ensures Decodable(EncodeTimeline(rows))
    ensures DecodeTimeline(EncodeTimeline(rows)) == Bars(StartOrder(rows))
  {
    var ordered := StartOrder(rows);
    forall i | 0 <= i < |ordered|
      ensures IndicesInRange(EncodeOrdered(ordered), i) && BarAt(EncodeOrdered(ordered), i) == Bars(ordered)[i]
    {
      BarComesBack(ordered, i);
    }
  }

  /** Start differences are never negative, the first is zero, and dictionaries hold no repeats. */
  lemma PayloadIsCompact(rows: seq<Row>)
    ensures
      var p := EncodeTimeline(rows);
      && (forall i :: 0 <= i < |p.start| ==> p.start[i] >= 0)
      && (p.start != [] ==> p.start[0] == 0)
      && Distinct(p.types) && Distinct(p.outcomes) && Distinct(p.workers)
      && |p.labels| == |p.types|
  {
    var ordered := StartOrder(rows);
    var p := EncodeTimeline(rows);
    StartOrderIsOrdered(rows);
    FirstSeenIsDistinct(JobTypes(ordered));
    FirstSeenIsDistinct(Outcomes(ordered));
    FirstSeenIsDistinct(Workers(ordered));
    forall i | 0 <= i < |p.start| ensures p.start[i] >= 0 && (i == 0 ==> p.start[i] == 0) {
      DifferenceAt(Starts(ordered), EpochOf(ordered), i);
    }
  }

  /** The type dictionary lists exactly the job types of the rows. */
  lemma TypesAreTheRowsTypes(rows: seq<Row>, t: string)
    ensures t in EncodeTimeline(rows).types <==> exists r :: r in rows && r.jobType == t
  {
    var ordered := StartOrder(rows);
    var jobTypes := JobTypes(ordered);
    FirstSeenHas(jobTypes, t);
    if t in jobTypes {
      var i :| 0 <= i < |jobTypes| && jobTypes[i] == t;
      SortKeepsElements(rows, ByStart(), ordered[i]);
    }
    if r :| r in rows && r.jobType == t {
      SortKeepsElements(rows, ByStart(), r);
      var i :| 0 <= i < |ordered| && ordered[i] == r;
      assert jobTypes[i] == t;
    }
  }

  /** Each type's label is that of its latest-starting row, the later one among equals. */
  lemma LabelIsLatest(rows: seq<Row>, k: nat) returns (i: nat)
    requires k < |EncodeTimeline(rows).types|
    ensures
      var p := EncodeTimeline(rows);
      var ordered := StartOrder(rows);
      && i < |ordered|
      && ordered[i].jobType == p.types[k]
      && ordered[i].productLabel == p.labels[k]
      && forall j :: 0 <= j < |ordered| && ordered[j].jobType == p.types[k] ==>
           j <= i && ordered[j].started <= ordered[i].started
  {
    var ordered := StartOrder(rows);
    var t := FirstSeen(JobTypes(ordered))[k];
    var w := TypeOccurs(ordered, t);
    i := LatestLabelAt(ordered, t, w);
    StartOrderIsOrdered(rows);
  }

  lemma TypeOccurs(rows: seq<Row>, t: string) returns (w: nat)
    requires t in FirstSeen(JobTypes(rows))
    ensures w < |rows| && rows[w].jobType == t
  {
    FirstSeenHas(JobTypes(rows), t);
    w :| w < |rows| && JobTypes(rows)[w] == t;
  }

  lemma {:induction false} LatestLabelAt(rows: seq<Row>, jobType: string, w: nat) returns (i: nat)
    requires w < |rows| && rows[w].jobType == jobType
    ensures i < |rows| && rows[i].jobType == jobType && rows[i].productLabel == LatestLabel(rows, jobType)
    ensures forall j :: 0 <= j < |rows| && rows[j].jobType == jobType ==> j <= i
  {
    var n := |rows| - 1;
    if rows[n].jobType == jobType {
      i := n;
    } else {
      i := LatestLabelAt(rows[..n], jobType, w);
    }
  }
}
