/**
 Grouping one-minute files into windows and choosing the complete, ready ones:
 _group_into_windows, _select_complete_ready_windows and _one_file_per_minute of
 src/data_sources/goes19_glm.py.
 */
module GlmWindows {
  import opened Arithmetic
  import opened Calendar
  import opened Common
  import opened GlmAnchors
  import opened Names
  import opened Text
  import GoesNames
  import opened Sorting

  function StartOf(uri: string): (r: GoesNames.Parsed<nat>)
    ensures r.Parsed? ==> Instant(r.value)
  {
    match GoesNames.ParseFilename(AfterLast(uri, '/'))
    case ValueError => GoesNames.ValueError
    case OverflowError => GoesNames.OverflowError
    case Parsed(parts) => GoesNames.Parsed(parts.start)
  }

  predicate Usable(uri: string) {
    StartOf(uri).Parsed?
  }

  function Start(uri: string): (t: nat)
    requires Usable(uri)
    ensures Instant(t)
  {
    StartOf(uri).value
  }

  // --------------------------------------------------------------------- grouping

  predicate InWindow(uri: string, cutoff: int, a: int, cadence: Cadence)
    requires cadence.Valid()
  {
    Usable(uri) && cutoff <= Start(uri) && a in Anchors(Start(uri), cadence)
  }

  /** The listed files of window `a`, in listing order. */
  function Members(uris: seq<string>, cutoff: int, a: int, cadence: Cadence): (files: seq<string>)
    requires cadence.Valid()
    ensures forall f :: f in files <==> f in uris && InWindow(f, cutoff, a, cadence)
  {
    if uris == [] then
      []
    else
      var last := uris[|uris| - 1];
      assert uris == uris[..|uris| - 1] + [last];
      Members(uris[..|uris| - 1], cutoff, a, cadence) + if InWindow(last, cutoff, a, cadence) then [last] else []
  }

  function Lookup(windows: map<int, seq<string>>, a: int): seq<string> {
    if a in windows then windows[a] else []
  }

  /** A dictionary of non-empty windows that holds exactly the members of each. */
  ghost predicate Groups(windows: map<int, seq<string>>, uris: seq<string>, cutoff: int, cadence: Cadence)
    requires cadence.Valid()
  {
    && (forall a :: a in windows ==> windows[a] != [])
    && (forall a :: Lookup(windows, a) == Members(uris, cutoff, a, cadence))
  }

  /** The windows of `anchors` hold `uri` once more, the others are as before. */
  ghost predicate Filed(windows: map<int, seq<string>>, before: map<int, seq<string>>, anchors: seq<int>, uri: string) {
    && (forall a :: a in windows ==> windows[a] != [])
    && (forall a :: Lookup(windows, a) == Lookup(before, a) + if a in anchors then [uri] else [])
  }

  lemma FiledNext(windows: map<int, seq<string>>, before: map<int, seq<string>>, anchors: seq<int>, a: int, uri: string)
    requires Filed(windows, before, anchors, uri) && a !in anchors
    ensures Filed(windows[a := Lookup(windows, a) + [uri]], before, anchors + [a], uri)
  {
    var next := windows[a := Lookup(windows, a) + [uri]];
    forall b ensures Lookup(next, b) == Lookup(before, b) + if b in anchors + [a] then [uri] else [] {
      assert Lookup(windows, b) == Lookup(before, b) + if b in anchors then [uri] else [];
    }
  }

  method FileUnder(before: map<int, seq<string>>, anchors: seq<int>, uri: string)
    returns (windows: map<int, seq<string>>)
    requires Distinct(anchors)
    requires forall a :: a in before ==> before[a] != []
    ensures Filed(windows, before, anchors, uri)
  {
    windows := before;
    for i := 0 to |anchors|
      invariant Filed(windows, before, anchors[..i], uri)
    {
      FiledNext(windows, before, anchors[..i], anchors[i], uri);
      assert anchors[..i + 1] == anchors[..i] + [anchors[i]];
      windows := windows[anchors[i] := Lookup(windows, anchors[i]) + [uri]];
    }
    assert anchors[..|anchors|] == anchors;
  }

  lemma GroupsNext(before: map<int, seq<string>>, after: map<int, seq<string>>, uris: seq<string>, i: nat,
      cutoff: int, cadence: Cadence)
    requires cadence.Valid() && i < |uris| && Groups(before, uris[..i], cutoff, cadence)
    requires forall a :: a in after ==> after[a] != []
    requires forall a ::
               Lookup(after, a) == Lookup(before, a) + if InWindow(uris[i], cutoff, a, cadence) then [uris[i]] else []
    ensures Groups(after, uris[..i + 1], cutoff, cadence)
  {
    var front, last := uris[..i], uris[i];
    assert uris[..i + 1][..i] == front && uris[..i + 1][i] == last;
    forall a ensures Lookup(after, a) == Members(uris[..i + 1], cutoff, a, cadence) {
      assert Lookup(before, a) == Members(front, cutoff, a, cadence);
    }
  }

  /** One turn of the grouping loop.  Files that do not parse are skipped; an OverflowError is not caught. */
  method Group(before: map<int, seq<string>>, uri: string, cutoff: int, cadence: Cadence)
    returns (windows: map<int, seq<string>>, raised: bool)
    requires cadence.Valid()
    requires forall a :: a in before ==> before[a] != []
    ensures raised <==> StartOf(uri).OverflowError?
    ensures forall a :: a in windows ==> windows[a] != []
    ensures forall a ::
              Lookup(windows, a) == Lookup(before, a) + if InWindow(uri, cutoff, a, cadence) then [uri] else []
  {
    windows, raised := before, StartOf(uri).OverflowError?;
    if Usable(uri) && Start(uri) >= cutoff {
      var anchors := AnchorsCovering(Start(uri), cadence);
      AnchorsDistinct(Start(uri), cadence);
      windows := FileUnder(windows, anchors, uri);
    }
  }

  /** Some listed name has calendar fields that overflow a datetime. */
  predicate SomeOverflows(uris: seq<string>) {
    uris != [] && (SomeOverflows(uris[..|uris| - 1]) || StartOf(uris[|uris| - 1]).OverflowError?)
  }

  lemma OverflowNext(uris: seq<string>, i: nat)
    requires i < |uris|
    ensures SomeOverflows(uris[..i + 1]) <==> SomeOverflows(uris[..i]) || StartOf(uris[i]).OverflowError?
  {
    assert uris[..i + 1][..i] == uris[..i];
  }

  lemma {:induction false} OverflowStays(uris: seq<string>, i: nat)
    requires i <= |uris| && SomeOverflows(uris[..i])
    ensures SomeOverflows(uris)
    decreases |uris| - i
  {
    if i < |uris| {
      OverflowNext(uris, i);
      OverflowStays(uris, i + 1);
    } else {
      assert uris[..i] == uris;
    }
  }

  method GroupIntoWindows(uris: seq<string>, cutoff: int, cadence: Cadence)
    returns (windows: map<int, seq<string>>, raised: bool)
    requires cadence.Valid()
    ensures raised <==> SomeOverflows(uris)
    ensures !raised ==> Groups(windows, uris, cutoff, cadence)
  {
    windows, raised := map[], false;
    for i := 0 to |uris|
      invariant !raised && !SomeOverflows(uris[..i])
      invariant Groups(windows, uris[..i], cutoff, cadence)
    {
      ghost var before := windows;
      windows, raised := Group(windows, uris[i], cutoff, cadence);
      OverflowNext(uris, i);
      if raised {
        OverflowStays(uris, i + 1);
        return;
      }
      GroupsNext(before, windows, uris, i, cutoff, cadence);
    }
    assert uris[..|uris|] == uris;
  }

  // ----------------------------------------------------------------- one per minute

  function MinuteStart(t: nat): nat {
    Floor(t, MINUTE)
  }

  predicate AtMinute(uri: string, m: int) {
    Usable(uri) && MinuteStart(Start(uri)) == m
  }

  /** A file of the list with the greatest name among those of its minute. */
  ghost predicate Newest(f: string, m: int, files: seq<string>) {
    && f in files && AtMinute(f, m)
    && forall g :: g in files && AtMinute(g, m) ==> NameOrder(g, f)
  }

  /** One entry for each covered minute, holding its newest file. */
  ghost predicate PerMinute(byMinute: map<int, string>, files: seq<string>) {
    && (forall f :: f in files && Usable(f) ==> MinuteStart(Start(f)) in byMinute)
    && (forall m :: m in byMinute ==> Newest(byMinute[m], m, files))
  }

  method OneFilePerMinute(files: seq<string>) returns (byMinute: map<int, string>)
    requires forall f :: f in files ==> Usable(f)
    ensures PerMinute(byMinute, files)
  {
    var sorted := SortedNames(files);
    byMinute := map[];
    for i := 0 to |sorted|
      invariant PerMinute(byMinute, sorted[..i])
    {
      var uri := sorted[i];
      assert uri in sorted;
      var minute := MinuteStart(Start(uri));
      byMinute := byMinute[minute := uri];
      NextFile(byMinute, sorted, i);
    }
    assert sorted[..|sorted|] == sorted;
  }

  /** In sorted order the latest file of a minute is its newest so far. */
  lemma NextFile(byMinute: map<int, string>, sorted: seq<string>, i: nat)
    requires i < |sorted| && Usable(sorted[i]) && Ordered(sorted, NameOrder)
    requires MinuteStart(Start(sorted[i])) in byMinute && byMinute[MinuteStart(Start(sorted[i]))] == sorted[i]
    requires forall f :: f in sorted[..i] && Usable(f) ==> MinuteStart(Start(f)) in byMinute
    requires forall m :: m in byMinute && m != MinuteStart(Start(sorted[i])) ==> Newest(byMinute[m], m, sorted[..i])
    ensures PerMinute(byMinute, sorted[..i + 1])
  {
    assert sorted[..i + 1] == sorted[..i] + [sorted[i]];
    var minute := MinuteStart(Start(sorted[i]));
    forall g | g in sorted[..i + 1] ensures NameOrder(g, sorted[i]) {
      var k :| 0 <= k < |sorted[..i + 1]| && sorted[..i + 1][k] == g;
      assert sorted[k] == g;
    }
    forall m | m in byMinute ensures Newest(byMinute[m], m, sorted[..i + 1]) {
    }
  }

  // ------------------------------------------------------------------ completeness

  ghost predicate Covered(files: seq<string>, m: int) {
    exists f :: f in files && AtMinute(f, m)
  }

  function MinuteAt(a: int, k: nat): int {
    a + MINUTE * k
  }

  /** Every minute of the window has a file. */
  ghost predicate Complete(files: seq<string>, a: int, cadence: Cadence) {
    forall k: nat :: k < cadence.accumMinutes ==> Covered(files, MinuteAt(a, k))
  }

  /** The files of one window, anchored on a whole minute. */
  ghost predicate WindowFiles(files: seq<string>, a: int, cadence: Cadence) {
    a % MINUTE == 0 && forall f :: f in files ==> Usable(f) && Covers(a, Start(f), cadence.Accum())
  }

  function Slots(a: int, n: nat): (slots: set<int>)
    ensures forall k: nat :: k < n ==> MinuteAt(a, k) in slots
    ensures forall m :: m in slots ==> exists k: nat :: k < n && m == MinuteAt(a, k)
    ensures forall m :: m in slots ==> m < MinuteAt(a, n)
    ensures |slots| == n
  {
    if n == 0 then {} else
    assert MinuteAt(a, n - 1) + MINUTE == MinuteAt(a, n);
    Slots(a, n - 1) + {MinuteAt(a, n - 1)}
  }

  lemma {:induction false} SubsetOfSameSize<T>(a: set<T>, b: set<T>)
    requires a <= b && |a| == |b|
    ensures a == b
  {
    if a != {} {
      var x :| x in a;
      SubsetOfSameSize(a - {x}, b - {x});
    }
  }

  lemma MinuteInWindow(t: nat, a: int, n: nat)
    requires a % MINUTE == 0 && Covers(a, t, MINUTE * n)
    ensures MinuteStart(t) in Slots(a, n)
  {
    MultipleBelow(t, MINUTE);
    Split(a, MINUTE);
    QuotientFirst(MINUTE, t / MINUTE, t - MinuteStart(t), a / MINUTE, 0);
    QuotientFirst(MINUTE, t / MINUTE, t - MinuteStart(t), a / MINUTE + n, 0);
    assert MINUTE * (a / MINUTE + n) == a + MINUTE * n;
    assert MinuteStart(t) == MinuteAt(a, t / MINUTE - a / MINUTE);
  }

  /** The count test is the coverage test: n distinct minutes out of n slots. */
  lemma CountIsCoverage(byMinute: map<int, string>, files: seq<string>, a: int, cadence: Cadence)
    requires WindowFiles(files, a, cadence) && PerMinute(byMinute, files)
    ensures |byMinute| <= cadence.accumMinutes
    ensures |byMinute| == cadence.accumMinutes <==> Complete(files, a, cadence)
  {
    var n := cadence.accumMinutes;
    var slots := Slots(a, n);
    KeysAreCoveredSlots(byMinute, files, a, cadence);
    SubsetSize(byMinute.Keys, slots);
    assert |byMinute.Keys| == |byMinute|;
    if |byMinute| == n {
      SubsetOfSameSize(byMinute.Keys, slots);
      assert forall k: nat :: k < n ==> MinuteAt(a, k) in byMinute;
    }
    if Complete(files, a, cadence) {
      assert forall m :: m in slots ==> m in byMinute.Keys;
      SubsetSize(slots, byMinute.Keys);
    }
  }

  lemma KeysAreCoveredSlots(byMinute: map<int, string>, files: seq<string>, a: int, cadence: Cadence)
    requires WindowFiles(files, a, cadence) && PerMinute(byMinute, files)
    ensures forall m :: m in byMinute <==> Covered(files, m)
    ensures byMinute.Keys <= Slots(a, cadence.accumMinutes)
  {
    forall m ensures m in byMinute <==> Covered(files, m) {
      if m in byMinute {
        assert Newest(byMinute[m], m, files);
      }
    }
    forall m | m in byMinute.Keys ensures m in Slots(a, cadence.accumMinutes) {
      var f := byMinute[m];
      assert Newest(f, m, files);
      MinuteInWindow(Start(f), a, cadence.accumMinutes);
    }
  }

  lemma {:induction false} SubsetSize<T>(a: set<T>, b: set<T>)
    requires a <= b
    ensures |a| <= |b|
  {
    if a != {} {
      var x :| x in a;
      SubsetSize(a - {x}, b - {x});
    }
  }

  /** Anchors fall on whole minutes, because the step is whole minutes. */
  lemma AnchorsOnMinutes(t: nat, cadence: Cadence, a: int)
    requires cadence.Valid() && a in Anchors(t, cadence)
    ensures a % MINUTE == 0 && Covers(a, t, cadence.Accum())
  {
    var step := cadence.Step();
    LatestFacts(t, step);
    LatestRemainder(t, step);
    AnchorsFromMembers(Latest(t, step), t, cadence.Accum(), step, a);
    SameRemainder(Latest(t, step), a, step);
    SameRemainder(Latest(t, step), HourStart(t), step);
    SameRemainder(HourStart(t), a, step);
    MultipleOfMultiple(HourStart(t) - a, MINUTE, cadence.stepMinutes);
    MultipleOfMultiple(HourStart(t), MINUTE, 60);
    SameRemainder(HourStart(t), a, MINUTE);
  }

  lemma MembersAreWindowFiles(uris: seq<string>, cutoff: int, a: int, cadence: Cadence)
    requires cadence.Valid() && Members(uris, cutoff, a, cadence) != []
    ensures WindowFiles(Members(uris, cutoff, a, cadence), a, cadence)
  {
    var files := Members(uris, cutoff, a, cadence);
    forall f | f in files ensures Usable(f) && a % MINUTE == 0 && Covers(a, Start(f), cadence.Accum()) {
      AnchorsOnMinutes(Start(f), cadence, a);
    }
    assert files[0] in files;
  }

  // ---------------------------------------------------------------------- readiness

  /** The manifest of a complete window: the newest file of every minute, in name order. */
  ghost predicate Manifest(chosen: seq<string>, files: seq<string>, a: int, cadence: Cadence) {
    && |chosen| == cadence.accumMinutes
    && Ordered(chosen, NameOrder)
    && (forall k: nat :: k < cadence.accumMinutes ==> exists f :: f in chosen && Newest(f, MinuteAt(a, k), files))
    && (forall f :: f in chosen ==> f in files)
  }

  /** The keys of a dictionary in some order, each once. */
  method InSomeOrder<T(==)>(keys: set<T>) returns (listed: seq<T>)
    ensures |listed| == |keys| && forall m :: m in listed <==> m in keys
    ensures Distinct(listed)
  {
    listed := [];
    var rest := keys;
    while rest != {}
      invariant |listed| + |rest| == |keys| && Distinct(listed)
      invariant forall m :: m in keys <==> m in listed || m in rest
      invariant forall m :: m in listed ==> m !in rest
      decreases rest
    {
      var m :| m in rest;
      listed := listed + [m];
      rest := rest - {m};
    }
  }

  predicate HeldAt(byMinute: map<int, string>, m: int, f: string) {
    m in byMinute && byMinute[m] == f
  }

  method ValuesOf(byMinute: map<int, string>) returns (values: seq<string>)
    ensures |values| == |byMinute|
    ensures forall m :: m in byMinute ==> byMinute[m] in values
    ensures forall f :: f in values ==> exists m :: HeldAt(byMinute, m, f)
  {
    var minutes := InSomeOrder(byMinute.Keys);
    assert forall j :: 0 <= j < |minutes| ==> minutes[j] in minutes;
    values := [];
    for i := 0 to |minutes|
      invariant forall j :: 0 <= j < |minutes| ==> minutes[j] in byMinute
      invariant |values| == i && forall j :: 0 <= j < i ==> values[j] == byMinute[minutes[j]]
    {
      values := values + [byMinute[minutes[i]]];
    }
    forall m | m in byMinute ensures byMinute[m] in values {
      var j :| 0 <= j < |minutes| && minutes[j] == m;
      assert values[j] == byMinute[m];
    }
    forall f | f in values ensures exists m :: HeldAt(byMinute, m, f) {
      var j :| 0 <= j < |values| && values[j] == f;
      assert HeldAt(byMinute, minutes[j], f);
    }
  }

  method SelectCompleteReadyWindows(windows: map<int, seq<string>>, limit: int, cadence: Cadence)
    returns (ready: map<int, seq<string>>)
    requires forall a :: a in windows ==> WindowFiles(windows[a], a, cadence)
    ensures forall a :: a in ready <==> a in windows && a + cadence.Accum() <= limit && Complete(windows[a], a, cadence)
    ensures forall a {:trigger ready[a]} :: a in ready ==> Manifest(ready[a], windows[a], a, cadence)
  {
    ready := map[];
    var todo := windows.Keys;
    while todo != {}
      invariant todo <= windows.Keys
      invariant forall a :: a in ready <==>
                  a in windows && a !in todo && a + cadence.Accum() <= limit && Complete(windows[a], a, cadence)
      invariant forall a {:trigger ready[a]} :: a in ready ==> Manifest(ready[a], windows[a], a, cadence)
      decreases |todo|
    {
      var a :| a in todo;
      todo := todo - {a};
      if a + cadence.Accum() > limit {
        continue;
      }
      var byMinute := OneFilePerMinute(windows[a]);
      CountIsCoverage(byMinute, windows[a], a, cadence);
      if |byMinute| != cadence.accumMinutes {
        continue;
      }
      var values := ValuesOf(byMinute);
      var chosen := SortedNames(values);
      ManifestOf(chosen, byMinute, windows[a], a, cadence);
      ready := ready[a := chosen];
    }
  }

  lemma ManifestOf(chosen: seq<string>, byMinute: map<int, string>, files: seq<string>, a: int, cadence: Cadence)
    requires WindowFiles(files, a, cadence) && PerMinute(byMinute, files)
    requires |chosen| == cadence.accumMinutes && Ordered(chosen, NameOrder) && Complete(files, a, cadence)
    requires forall m :: m in byMinute ==> byMinute[m] in chosen
    requires forall f :: f in chosen ==> exists m :: HeldAt(byMinute, m, f)
    ensures Manifest(chosen, files, a, cadence)
  {
    KeysAreCoveredSlots(byMinute, files, a, cadence);
    forall k: nat | k < cadence.accumMinutes
      ensures exists f :: f in chosen && Newest(f, MinuteAt(a, k), files)
    {
      assert Covered(files, MinuteAt(a, k));
      assert Newest(byMinute[MinuteAt(a, k)], MinuteAt(a, k), files);
    }
    forall f | f in chosen ensures f in files {
      var m :| HeldAt(byMinute, m, f);
      assert Newest(f, m, files);
    }
  }

  // ------------------------------------------------------------------ the age filter

  /** The window is complete and lies in the past by at least the safety lag. */
  ghost predicate Ready(uris: seq<string>, cutoff: int, a: int, limit: int, cadence: Cadence)
    requires cadence.Valid()
  {
    a + cadence.Accum() <= limit && Complete(Members(uris, cutoff, a, cadence), a, cadence)
  }

  /** Windows anchored at or after the cutoff lose no file to the age filter. */
  lemma {:induction false} RecentWindowsUnaffected(uris: seq<string>, cutoff: int, earlier: int, a: int,
      cadence: Cadence)
    requires cadence.Valid() && earlier <= cutoff <= a
    ensures Members(uris, cutoff, a, cadence) == Members(uris, earlier, a, cadence)
  {
    if uris != [] {
      var last := uris[|uris| - 1];
      RecentWindowsUnaffected(uris[..|uris| - 1], cutoff, earlier, a, cadence);
      if InWindow(last, earlier, a, cadence) {
        AnchorsOnMinutes(Start(last), cadence, a);
      }
    }
  }

  /**
   An older window survives the filter exactly when it was complete and its first
   minute still has a file that starts at or after the cutoff.
   */
  lemma AgeFilterEffect(uris: seq<string>, cutoff: int, earlier: int, a: int, cadence: Cadence)
    requires cadence.Valid() && earlier <= cutoff
    ensures Complete(Members(uris, cutoff, a, cadence), a, cadence) <==>
              && Complete(Members(uris, earlier, a, cadence), a, cadence)
              && exists f :: f in Members(uris, earlier, a, cadence) && AtMinute(f, a) && cutoff <= Start(f)
  {
    var kept, all := Members(uris, cutoff, a, cadence), Members(uris, earlier, a, cadence);
    assert forall f :: f in kept <==> f in all && cutoff <= Start(f);
    if Complete(kept, a, cadence) {
      assert Covered(kept, MinuteAt(a, 0));
      forall k: nat | k < cadence.accumMinutes ensures Covered(all, MinuteAt(a, k)) {
        assert Covered(kept, MinuteAt(a, k));
      }
    }
    if f :| f in all && AtMinute(f, a) && cutoff <= Start(f) && Complete(all, a, cadence) {
      MultipleBelow(Start(f), MINUTE);
      forall k: nat | k < cadence.accumMinutes ensures Covered(kept, MinuteAt(a, k)) {
        assert Covered(all, MinuteAt(a, k));
        LaterMinuteKept(kept, all, cutoff, a, f, k);
      }
    }
  }

  /** If the first minute has a file at or after the cutoff, so does each minute that had one. */
  lemma LaterMinuteKept(kept: seq<string>, all: seq<string>, cutoff: int, a: int, f: string, k: nat)
    requires forall g :: g in all && Usable(g) && cutoff <= Start(g) ==> g in kept
    requires f in all && AtMinute(f, a) && cutoff <= Start(f)
    requires Covered(all, MinuteAt(a, k))
    ensures Covered(kept, MinuteAt(a, k))
  {
    hide StartOf;
    if k > 0 {
      var g :| g in all && AtMinute(g, MinuteAt(a, k));
      LaterMinuteStartsLater(f, g, a, k);
      CoveredBy(kept, g, MinuteAt(a, k));
    } else {
      assert MinuteAt(a, k) == a;
      CoveredBy(kept, f, MinuteAt(a, k));
    }
  }

  lemma CoveredBy(files: seq<string>, f: string, m: int)
    requires f in files && AtMinute(f, m)
    ensures Covered(files, m)
  {
  }

  lemma LaterMinuteStartsLater(f: string, g: string, a: int, k: nat)
    requires k > 0 && AtMinute(f, a) && AtMinute(g, MinuteAt(a, k))
    ensures Start(f) < Start(g)
  {
    MultipleBelow(Start(f), MINUTE);
    MultipleBelow(Start(g), MINUTE);
    MulAtLeast(MINUTE, k);
  }

  /** A window whose first minute ends by the cutoff is never complete again. */
  lemma OldWindowsNeverComplete(uris: seq<string>, cutoff: int, a: int, cadence: Cadence)
    requires cadence.Valid() && a + MINUTE <= cutoff
    ensures !Complete(Members(uris, cutoff, a, cadence), a, cadence)
  {
    var kept := Members(uris, cutoff, a, cadence);
    if Complete(kept, a, cadence) {
      assert Covered(kept, MinuteAt(a, 0));
      var f :| f in kept && AtMinute(f, a);
      MultipleBelow(Start(f), MINUTE);
    }
  }

  // ----------------------------------------------------- an old window still complete

  lemma NameWithoutSlash(parts: seq<string>)
    requires |parts| >= 1 && forall i :: 0 <= i < |parts| ==> '/' !in parts[i]
    ensures '/' !in GoesNames.JoinWith(parts, '_')
  {
    if |parts| > 1 {
      NameWithoutSlash(parts[1..]);
    }
  }

  /** The name of a file that starts at `t`. */
  function FileAt(t: nat): string
    requires Instant(t)
  {
    GoesNames.PatternName("M3", "G19", GoesNames.WindowImageId(t), GoesNames.WindowImageId(t), ["c0"])
  }

  lemma NameIsBare(id: string)
    requires '/' !in id
    ensures '/' !in GoesNames.PatternName("M3", "G19", id, id, ["c0"])
  {
    var parts := ["CG", GoesNames.FAMILY + "M3", "G19", "s" + id, "e" + id] + ["c0"];
    forall i | 0 <= i < |parts| ensures '/' !in parts[i] {
    }
    NameWithoutSlash(parts);
  }

  lemma FileAtStarts(t: nat)
    requires Instant(t) && MicrosecondOf(t) == 0
    ensures StartOf(FileAt(t)) == GoesNames.Parsed(t)
  {
    GoesNames.FieldsOfId(t);
    NameIsBare(GoesNames.WindowImageId(t));
    GoesNames.NamedFileParses("M3", "G19", t, t, ["c0"]);
    AfterLastOfConcat("", FileAt(t), '/');
    assert "" + FileAt(t) == FileAt(t);
  }

  /** Half a minute into a minute, that minute is the one-minute window that holds the time. */
  lemma HalfMinute(a: nat)
    requires a % MINUTE == 0
    ensures MicrosecondOf(a + 30 * SECOND) == 0 && MinuteStart(a + 30 * SECOND) == a
    ensures a in Anchors(a + 30 * SECOND, Cadence(1, 1))
  {
    var t := a + 30 * SECOND;
    OnTheMinute(a);
    Decompose(a);
    Recompose(t, DayNumber(a), HourOf(a), MinuteOf(a), 30, 0);
    Split(a, MINUTE);
    DivModOf(t, a / MINUTE, 30 * SECOND, MINUTE);
    DivModOf(HOUR, 60, 0, MINUTE);
    RemainderOfRemainder(a, HOUR, MINUTE);
    AlignedAnchorsListed(t, Cadence(1, 1));
  }

  /** A one-minute window anchored a second before the cutoff, complete by a file that starts after it. */
  lemma OldWindowCanBeComplete(a: nat)
    requires a % MINUTE == 0 && Instant(a + MINUTE)
    ensures Complete(Members([FileAt(a + 30 * SECOND)], a + SECOND, a, Cadence(1, 1)), a, Cadence(1, 1))
  {
    hide StartOf;
    var f := FileAt(a + 30 * SECOND);
    var files := Members([f], a + SECOND, a, Cadence(1, 1));
    HalfMinute(a);
    FileAtStarts(a + 30 * SECOND);
    assert f in [f] && InWindow(f, a + SECOND, a, Cadence(1, 1));
    assert MinuteAt(a, 0) == a;
    CoveredBy(files, f, MinuteAt(a, 0));
  }
}
