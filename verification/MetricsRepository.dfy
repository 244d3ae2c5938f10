/**
 The job_metrics table of src/clients/metrics_repository.py: record, import_jobs,
 prune_to_max_rows and the skip-scan of job types with each type's newest row.  Rows are
 in id order; ids come from an autoincrement counter.
 */
module MetricsRepositories {
  import opened Common
  import opened Names
  import opened Sorting
  import opened Text

  datatype Stage = Stage(name: string, seconds: real)

  /** The columns of a job that the modelled operations look at, and the rest; no stages if they are null or no JSON. */
  datatype Job = Job(workUnitId: Option<string>, imageId: Option<string>, finishedAt: string, outcome: Option<string>,
                     jobType: string, productLabel: Option<string>,
                     downloadS: Option<real>, processS: Option<real>, totalS: Option<real>,
                     stages: seq<Stage>, details: string)

  datatype Row = Row(id: nat, job: Job)

  /** The natural key of an exported job. */
  type Key = (Option<string>, Option<string>, string, Option<string>)

  function KeyOf(job: Job): Key {
    (job.workUnitId, job.imageId, job.finishedAt, job.outcome)
  }

  /** Jobs count as the same exactly if unit, image, finish time and outcome agree. */
  lemma SameKey(a: Job, b: Job)
    ensures KeyOf(a) == KeyOf(b) <==>
              && a.workUnitId == b.workUnitId && a.imageId == b.imageId
              && a.finishedAt == b.finishedAt && a.outcome == b.outcome
  {
  }

  // ------------------------------------------------------------------------ import

  /** The jobs of a batch whose key is neither in `seen` nor on an earlier job of the batch. */
  function Accepted(jobs: seq<Job>, seen: set<Key>): seq<Job> {
    if jobs == [] then []
    else if KeyOf(jobs[0]) in seen then Accepted(jobs[1..], seen)
    else [jobs[0]] + Accepted(jobs[1..], seen + {KeyOf(jobs[0])})
  }

  lemma AcceptNext(taken: seq<Job>, jobs: seq<Job>, i: nat, seen: set<Key>)
    requires i < |jobs|
    ensures taken + Accepted(jobs[i..], seen) ==
            if KeyOf(jobs[i]) in seen then taken + Accepted(jobs[i + 1..], seen)
            else (taken + [jobs[i]]) + Accepted(jobs[i + 1..], seen + {KeyOf(jobs[i])})
  {
    assert jobs[i..][0] == jobs[i] && jobs[i..][1..] == jobs[i + 1..];
    if KeyOf(jobs[i]) !in seen {
      var rest := Accepted(jobs[i + 1..], seen + {KeyOf(jobs[i])});
      assert taken + ([jobs[i]] + rest) == (taken + [jobs[i]]) + rest;
    }
  }

  function Numbered(jobs: seq<Job>, from: nat): (rows: seq<Row>)
    ensures |rows| == |jobs| && forall i :: 0 <= i < |rows| ==> rows[i] == Row(from + i, jobs[i])
  {
    seq(|jobs|, i requires 0 <= i < |jobs| => Row(from + i, jobs[i]))
  }

  function Keys(rows: seq<Row>): set<Key> {
    set r | r in rows :: KeyOf(r.job)
  }

  ghost predicate HasKey(jobs: seq<Job>, key: Key) {
    exists i :: 0 <= i < |jobs| && KeyOf(jobs[i]) == key
  }

  /** Exactly the new keys are accepted, each once, on its first job. */
  lemma {:induction false} AcceptedKeys(jobs: seq<Job>, seen: set<Key>, key: Key)
    ensures HasKey(Accepted(jobs, seen), key) <==> HasKey(jobs, key) && key !in seen
  {
    if jobs != [] {
      var first := KeyOf(jobs[0]);
      var next := if first in seen then seen else seen + {first};
      var rest := Accepted(jobs[1..], next);
      AcceptedKeys(jobs[1..], next, key);
      assert HasKey(jobs, key) <==> first == key || HasKey(jobs[1..], key) by {
        HasKeyCons(jobs[0], jobs[1..], key);
        assert jobs == [jobs[0]] + jobs[1..];
      }
      if first !in seen {
        HasKeyCons(jobs[0], rest, key);
      }
    }
  }

  lemma HasKeyCons(job: Job, jobs: seq<Job>, key: Key)
    ensures HasKey([job] + jobs, key) <==> KeyOf(job) == key || HasKey(jobs, key)
  {
    var all := [job] + jobs;
    if KeyOf(job) == key {
      assert all[0] == job;
    }
    if i :| 0 <= i < |jobs| && KeyOf(jobs[i]) == key {
      assert all[i + 1] == jobs[i];
    }
    if i :| 0 <= i < |all| && KeyOf(all[i]) == key {
      assert i == 0 || all[i] == jobs[i - 1];
    }
  }

  /** No key is accepted twice. */
  lemma {:induction false} AcceptedOnce(jobs: seq<Job>, seen: set<Key>)
    ensures forall i, j :: 0 <= i < j < |Accepted(jobs, seen)| ==>
            KeyOf(Accepted(jobs, seen)[i]) != KeyOf(Accepted(jobs, seen)[j])
  {
    if jobs != [] {
      var first := KeyOf(jobs[0]);
      if first in seen {
        AcceptedOnce(jobs[1..], seen);
      } else {
        var rest := Accepted(jobs[1..], seen + {first});
        AcceptedOnce(jobs[1..], seen + {first});
        AcceptedKeys(jobs[1..], seen + {first}, first);
        assert forall j :: 0 <= j < |rest| ==> KeyOf(rest[j]) != first;
      }
    }
  }

  /** A batch whose keys are all known adds nothing. */
  lemma {:induction false} KnownBatchIsNoOp(jobs: seq<Job>, seen: set<Key>)
    requires forall i :: 0 <= i < |jobs| ==> KeyOf(jobs[i]) in seen
    ensures Accepted(jobs, seen) == []
  {
    if jobs != [] {
      KnownBatchIsNoOp(jobs[1..], seen);
    }
  }

  /** What the table holds after an import. */
  function Imported(rows: seq<Row>, jobs: seq<Job>, from: nat): seq<Row> {
    rows + Numbered(Accepted(jobs, Keys(rows)), from)
  }

  /** Importing the same batch again changes nothing, and so does importing the table's own export. */
  lemma ImportIsIdempotent(rows: seq<Row>, jobs: seq<Job>, from: nat, again: nat, exported: seq<Job>)
    requires forall i :: 0 <= i < |exported| ==> exists j :: 0 <= j < |rows| && rows[j].job == exported[i]
    ensures Imported(Imported(rows, jobs, from), jobs, again) == Imported(rows, jobs, from)
    ensures Imported(rows, exported, from) == rows
  {
    var after, added := Imported(rows, jobs, from), Accepted(jobs, Keys(rows));
    forall i | 0 <= i < |jobs| ensures KeyOf(jobs[i]) in Keys(after) {
      var key := KeyOf(jobs[i]);
      AcceptedKeys(jobs, Keys(rows), key);
      if key in Keys(rows) {
        var r :| r in rows && KeyOf(r.job) == key;
        assert r in after;
      } else {
        var j :| 0 <= j < |added| && KeyOf(added[j]) == key;
        assert after[|rows| + j].job == added[j];
        assert after[|rows| + j] in after;
      }
    }
    KnownBatchIsNoOp(jobs, Keys(after));
    forall i | 0 <= i < |exported| ensures KeyOf(exported[i]) in Keys(rows) {
      var j :| 0 <= j < |rows| && rows[j].job == exported[i];
      assert rows[j] in rows;
    }
    KnownBatchIsNoOp(exported, Keys(rows));
  }

  // ------------------------------------------------------------------- the job types

  /** MIN(job_type) over the types above `bound`. */
  function MinAbove(types: seq<string>, bound: Option<string>): (least: Option<string>)
    ensures least.Some? ==> least.value in types && Above(least.value, bound)
    ensures forall t :: t in types && Above(t, bound) ==> least.Some? && NameOrder(least.value, t)
  {
    if types == [] then None else
    var last := types[|types| - 1];
    var least := MinAbove(types[..|types| - 1], bound);
    assert types == types[..|types| - 1] + [last];
    if !Above(last, bound) then least
    else if least.None? then Some(last)
    else
      BeforeIsTotal(last, least.value);
      if Before(last, least.value) then
        LowerBound(types[..|types| - 1], last, least.value, bound);
        Some(last)
      else least
  }

  predicate Above(t: string, bound: Option<string>) {
    bound.Some? ==> Before(bound.value, t)
  }

  lemma LowerBound(types: seq<string>, x: string, y: string, bound: Option<string>)
    requires Before(x, y) && forall t :: t in types && Above(t, bound) ==> NameOrder(y, t)
    ensures forall t :: t in types && Above(t, bound) ==> NameOrder(x, t)
  {
    forall t | t in types && Above(t, bound) ensures NameOrder(x, t) {
      if t != y {
        BeforeIsTransitive(x, y, t);
      }
    }
  }

  function TypesAbove(types: seq<string>, bound: Option<string>): set<string> {
    set t | t in types && Above(t, bound)
  }

  /** The recursive query: hop from each type to the next larger one. */
  function SkipScan(types: seq<string>, bound: Option<string>): seq<string>
    decreases TypesAbove(types, bound)
  {
    var next := MinAbove(types, bound);
    if next.None? then []
    else
      HopShrinks(types, bound, next.value);
      [next.value] + SkipScan(types, next)
  }

  lemma HopShrinks(types: seq<string>, bound: Option<string>, t: string)
    requires t in types && Above(t, bound)
    ensures TypesAbove(types, Some(t)) < TypesAbove(types, bound)
  {
    forall u | u in TypesAbove(types, Some(t)) ensures u in TypesAbove(types, bound) {
      if bound.Some? {
        BeforeIsTransitive(bound.value, t, u);
      }
    }
    BeforeIsStrict(t);
    assert t in TypesAbove(types, bound) && t !in TypesAbove(types, Some(t));
  }

  ghost predicate Ascending(names: seq<string>) {
    forall i, j :: 0 <= i < j < |names| ==> Before(names[i], names[j])
  }

  /** The scan ends, and lists every type above the bound exactly once, in order. */
  lemma {:induction false} SkipScanIsDistinctTypes(types: seq<string>, bound: Option<string>)
    ensures Ascending(SkipScan(types, bound))
    ensures forall t :: t in SkipScan(types, bound) <==> t in types && Above(t, bound)
    decreases TypesAbove(types, bound)
  {
    var next := MinAbove(types, bound);
    if next.Some? {
      HopShrinks(types, bound, next.value);
      SkipScanIsDistinctTypes(types, next);
      var rest := SkipScan(types, next);
      assert forall j :: 0 <= j < |rest| ==> rest[j] in rest;
      forall t ensures t in [next.value] + rest <==> t in types && Above(t, bound) {
        if t in rest && bound.Some? {
          BeforeIsTransitive(bound.value, next.value, t);
        }
      }
    }
  }

  function OfType(t: string): Row -> bool {
    (r: Row) => r.job.jobType == t
  }

  /** No row of the list finished later. */
  ghost predicate IsLatest(r: Row, rows: seq<Row>) {
    r in rows && forall s :: s in rows ==> NameOrder(s.job.finishedAt, r.job.finishedAt)
  }

  function LatestRow(rows: seq<Row>): (r: Row)
    requires rows != []
    ensures IsLatest(r, rows)
  {
    var newest, front := rows[|rows| - 1], rows[..|rows| - 1];
    assert rows == front + [newest];
    if front == [] then newest else
    var earlier := LatestRow(front);
    NamesSort();
    if NameOrder(newest.job.finishedAt, earlier.job.finishedAt) then earlier else newest
  }

  /** A job type with the label and finish time of a row of it that finished last. */
  datatype KnownType = KnownType(jobType: string, productLabel: Option<string>, lastFinished: string)

  ghost predicate Newest(name: Option<string>, finishedAt: string, rows: seq<Row>) {
    exists r :: IsLatest(r, rows) && r.job.productLabel == name && r.job.finishedAt == finishedAt
  }

  ghost predicate DescribesType(k: KnownType, rows: seq<Row>) {
    Newest(k.productLabel, k.lastFinished, Filter(rows, OfType(k.jobType)))
  }

  /** The rows of a type exist exactly if the type column has it. */
  lemma TypeHasRows(rows: seq<Row>, t: string)
    ensures Filter(rows, OfType(t)) != [] <==> t in TypeColumn(rows)
  {
    if Filter(rows, OfType(t)) != [] {
      var r := Filter(rows, OfType(t))[0];
      FilterElements(rows, OfType(t), r);
      var i :| 0 <= i < |rows| && rows[i] == r;
      assert TypeColumn(rows)[i] == t;
    }
    if t in TypeColumn(rows) {
      var i :| 0 <= i < |rows| && rows[i].job.jobType == t;
      FilterElements(rows, OfType(t), rows[i]);
    }
  }

  function Describe(rows: seq<Row>, t: string): (k: KnownType)
    requires t in TypeColumn(rows)
    ensures k.jobType == t && DescribesType(k, rows)
  {
    TypeHasRows(rows, t);
    var newest := LatestRow(Filter(rows, OfType(t)));
    KnownType(t, newest.job.productLabel, newest.job.finishedAt)
  }

  // ------------------------------------------------------------------------ the table

  /** What DELETE ... WHERE id < pivot leaves. */
  function NotBelow(pivot: nat): Row -> bool {
    (r: Row) => r.id >= pivot
  }

  class MetricsRepository {
    var rows: seq<Row>
    var nextId: nat

    /** Ids rise, and every id given out is below the counter. */
    ghost predicate Valid()
      reads this
    {
      && (forall i, j :: 0 <= i < j < |rows| ==> rows[i].id < rows[j].id)
      && (forall i :: 0 <= i < |rows| ==> rows[i].id < nextId)
    }

    constructor ()
      ensures Valid() && rows == []
    {
      rows, nextId := [], 1;
    }

    /** A failed insert is logged, not raised. */
    method Record(job: Job, fails: bool)
      requires Valid()
      modifies this
      ensures Valid()
      ensures rows == if fails then old(rows) else old(rows) + [Row(old(nextId), job)]
      ensures nextId >= old(nextId)
    {
      if !fails {
        rows := rows + [Row(nextId, job)];
        nextId := nextId + 1;
      }
    }

    /** The counts of a successful import; None when the insert failed and was rolled back. */
    method ImportJobs(jobs: seq<Job>, insertFails: bool) returns (result: Option<(nat, nat)>)
      requires Valid()
      modifies this
      ensures Valid()
      ensures result.None? <==> insertFails && Accepted(jobs, Keys(old(rows))) != []
      ensures result.None? ==> rows == old(rows) && nextId == old(nextId)
      ensures result.Some? ==>
                && rows == Imported(old(rows), jobs, old(nextId))
                && result.value.0 == |Accepted(jobs, Keys(old(rows)))|
                && result.value.0 + result.value.1 == |jobs|
    {
      var seen := set r | r in rows :: KeyOf(r.job);
      var skipped: nat := 0;
      var toInsert := [];
      for i := 0 to |jobs|
        invariant toInsert + Accepted(jobs[i..], seen) == Accepted(jobs, Keys(rows))
        invariant |toInsert| + skipped == i
        invariant rows == old(rows) && nextId == old(nextId)
      {
        var job := jobs[i];
        AcceptNext(toInsert, jobs, i, seen);
        if KeyOf(job) in seen {
          skipped := skipped + 1;
        } else {
          seen := seen + {KeyOf(job)};
          toInsert := toInsert + [job];
        }
      }
      if toInsert != [] {
        if insertFails {
          return None;
        }
        rows := rows + Numbered(toInsert, nextId);
        nextId := nextId + |toInsert|;
      }
      result := Some((|toInsert|, skipped));
    }

    /** Keep the newest `maxRows` rows; a cap of zero or less prunes nothing. */
    method PruneToMaxRows(maxRows: int) returns (deleted: nat)
      requires Valid()
      modifies this
      ensures Valid() && nextId == old(nextId)
      ensures rows == if 0 < maxRows < |old(rows)| then old(rows)[|old(rows)| - maxRows..] else old(rows)
      ensures deleted == |old(rows)| - |rows|
    {
      if maxRows <= 0 {
        return 0;
      }
      if maxRows > |rows| {
        return 0;
      }
      var pivot := rows[|rows| - maxRows].id;
      var before := rows;
      rows := Filter(rows, NotBelow(pivot));
      KeepFrom(before, |before| - maxRows, pivot);
      deleted := |before| - |rows|;
    }

    /** _known_types: the skip-scan, and each type's newest row. */
    method KnownTypes() returns (types: seq<KnownType>)
      ensures ListsTypes(types, rows)
    {
      types := KnownTypesOf(rows);
    }
  }

  /** Every type of the table once, ascending, each with the label and time of a newest row. */
  ghost predicate ListsTypes(types: seq<KnownType>, rows: seq<Row>) {
    && (forall i, j :: 0 <= i < j < |types| ==> Before(types[i].jobType, types[j].jobType))
    && (forall t :: (exists i :: 0 <= i < |types| && types[i].jobType == t) <==> t in TypeColumn(rows))
    && (forall i :: 0 <= i < |types| ==> DescribesType(types[i], rows))
  }

  method KnownTypesOf(rows: seq<Row>) returns (types: seq<KnownType>)
    ensures ListsTypes(types, rows)
  {
    var column := TypeColumn(rows);
    SkipScanIsDistinctTypes(column, None);
    var names := SkipScan(column, None);
    types := [];
    for i := 0 to |names|
      invariant |types| == i && forall j :: 0 <= j < i ==> types[j].jobType == names[j] && DescribesType(types[j], rows)
    {
      assert names[i] in names;
      types := types + [Describe(rows, names[i])];
    }
    NamedTypes(types, names);
  }

  lemma NamedTypes(types: seq<KnownType>, names: seq<string>)
    requires |types| == |names| && forall j :: 0 <= j < |names| ==> types[j].jobType == names[j]
    ensures forall t :: (exists i :: 0 <= i < |types| && types[i].jobType == t) <==> t in names
  {
    forall t ensures (exists i :: 0 <= i < |types| && types[i].jobType == t) <==> t in names {
      if t in names {
        var i :| 0 <= i < |names| && names[i] == t;
        assert types[i].jobType == t;
      }
    }
  }

  function TypeColumn(rows: seq<Row>): (types: seq<string>)
    ensures |types| == |rows| && forall i :: 0 <= i < |rows| ==> types[i] == rows[i].job.jobType
  {
    seq(|rows|, i requires 0 <= i < |rows| => rows[i].job.jobType)
  }

  /** In id order, the rows not below the k-th id are the k-th and later rows. */
  lemma KeepFrom(rows: seq<Row>, k: nat, pivot: nat)
    requires k < |rows| && pivot == rows[k].id
    requires forall i, j :: 0 <= i < j < |rows| ==> rows[i].id < rows[j].id
    ensures Filter(rows, NotBelow(pivot)) == rows[k..]
  {
    KeepNoneThenAll(rows[..k], rows[k..], pivot);
    assert rows == rows[..k] + rows[k..];
  }

  lemma KeepNoneThenAll(low: seq<Row>, high: seq<Row>, pivot: nat)
    requires forall i :: 0 <= i < |low| ==> low[i].id < pivot
    requires forall i :: 0 <= i < |high| ==> high[i].id >= pivot
    ensures Filter(low + high, NotBelow(pivot)) == high
  {
    var keep := NotBelow(pivot);
    FilterOfConcat(low, high, keep);
    FilterNone(low, keep);
    FilterAll(high, keep);
  }
}
