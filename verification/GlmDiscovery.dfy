/** discover_images of src/data_sources/goes19_glm.py: from a file listing to the windows to publish. */
module GlmDiscovery {
  import opened Calendar
  import opened Common
  import opened GlmAnchors
  import opened GlmWindows
  import opened GoesNames
  import opened Sorting
  import opened Text

  datatype WindowImage = WindowImage(imageId: string, windowStart: int, files: seq<string>)

  predicate NewestFirst(a: int, b: int) {
    a >= b
  }

  ghost predicate Descending(anchors: seq<int>) {
    forall i, j :: 0 <= i < j < |anchors| ==> anchors[i] > anchors[j]
  }

  /** How many of n items the slice [:target] keeps; a negative target drops from the end. */
  function Kept(target: int, n: nat): (k: nat)
    ensures k <= n
  {
    if target >= n then n else if target >= 0 then target else if n + target >= 0 then n + target else 0
  }

  method SortNewestFirst(anchors: set<int>) returns (sorted: seq<int>)
    ensures Descending(sorted) && forall a :: a in sorted <==> a in anchors
  {
    var listed := InSomeOrder(anchors);
    SortOrders(listed, NewestFirst);
    SortKeepsDistinct(listed, NewestFirst);
    sorted := Sort(listed, NewestFirst);
    forall a ensures a in sorted <==> a in listed {
      SortKeepsElements(listed, NewestFirst, a);
    }
  }

  /** The id of a window; anchors of complete windows are always instants (ReadyAnchor). */
  function ImageId(a: int): string {
    if Instant(a) then WindowImageId(a) else ""
  }

  /** Neither in storage nor already in flight. */
  function Unpublished(existing: set<string>, inProgress: set<string>): int -> bool {
    a => ImageId(a) !in existing && ImageId(a) !in inProgress
  }

  /** The image is named after its anchor and carries the window's manifest. */
  ghost predicate DescribesWindow(image: WindowImage, a: int, uris: seq<string>, cutoff: int, cadence: Cadence)
    requires cadence.Valid()
  {
    && image.windowStart == a && image.imageId == ImageId(a)
    && Manifest(image.files, Members(uris, cutoff, a, cadence), a, cadence)
  }

  ghost predicate Describes(images: seq<WindowImage>, anchors: seq<int>, uris: seq<string>, cutoff: int,
      cadence: Cadence)
    requires cadence.Valid()
  {
    && |images| == |anchors|
    && forall i :: 0 <= i < |images| ==> DescribesWindow(images[i], anchors[i], uris, cutoff, cadence)
  }

  /** A complete window has a file, so its anchor lies close before an instant. */
  lemma ReadyAnchor(uris: seq<string>, cutoff: int, a: int, limit: int, cadence: Cadence)
    requires cadence.Valid() && Ready(uris, cutoff, a, limit, cadence) && cutoff >= cadence.Accum()
    ensures Instant(a) && a % MINUTE == 0
    ensures Members(uris, cutoff, a, cadence) != []
  {
    var files := Members(uris, cutoff, a, cadence);
    assert Covered(files, MinuteAt(a, 0));
    var f :| f in files && AtMinute(f, MinuteAt(a, 0));
    AnchorsOnMinutes(Start(f), cadence, a);
  }

  /** Of the newest `target` windows, those not yet published. */
  function Chosen(newest: seq<int>, target: int, existing: set<string>, inProgress: set<string>): seq<int> {
    Filter(newest[..Kept(target, |newest|)], Unpublished(existing, inProgress))
  }

  /** The loop that skips published windows and builds an image for each of the others. */
  method EmitUnpublished(newest: seq<int>, target: int, ready: map<int, seq<string>>,
                         existing: set<string>, inProgress: set<string>,
                         ghost uris: seq<string>, ghost cutoff: int, ghost cadence: Cadence)
    returns (images: seq<WindowImage>)
    requires cadence.Valid()
    requires forall i :: 0 <= i < |newest| ==> newest[i] in ready
    requires forall a {:trigger ready[a]} :: a in ready ==>
             Manifest(ready[a], Members(uris, cutoff, a, cadence), a, cadence)
    ensures Describes(images, Chosen(newest, target, existing, inProgress), uris, cutoff, cadence)
  {
    var isNew := Unpublished(existing, inProgress);
    var kept := newest[..Kept(target, |newest|)];
    images := [];
    for i := 0 to |kept|
      invariant Describes(images, Filter(kept[..i], isNew), uris, cutoff, cadence)
    {
      assert kept[..i + 1] == kept[..i] + [kept[i]];
      FilterOfConcat(kept[..i], [kept[i]], isNew);
      if isNew(kept[i]) {
        images := images + [WindowImage(ImageId(kept[i]), kept[i], ready[kept[i]])];
      }
    }
    assert kept[..|kept|] == kept;
  }

  /** The ready windows, newest first. */
  ghost predicate ReadyNewestFirst(ready: seq<int>, uris: seq<string>, cutoff: int, limit: int, cadence: Cadence)
    requires cadence.Valid()
  {
    Descending(ready) && forall a :: a in ready <==> Ready(uris, cutoff, a, limit, cadence)
  }

  /** Group the listing, keep the complete windows with their manifests, and sort their anchors. */
  method ReadyWindows(uris: seq<string>, cutoff: int, limit: int, cadence: Cadence)
    returns (complete: map<int, seq<string>>, newest: seq<int>, raised: bool)
    requires cadence.Valid() && cutoff >= cadence.Accum()
    ensures raised <==> SomeOverflows(uris)
    ensures !raised ==> ReadyNewestFirst(newest, uris, cutoff, limit, cadence)
    ensures !raised ==> forall i :: 0 <= i < |newest| ==> newest[i] in complete
    ensures !raised ==> forall a {:trigger complete[a]} :: a in complete ==>
            Manifest(complete[a], Members(uris, cutoff, a, cadence), a, cadence)
  {
    complete, newest := map[], [];
    var windows;
    windows, raised := GroupIntoWindows(uris, cutoff, cadence);
    if !raised {
      GroupsHoldWindowFiles(windows, uris, cutoff, cadence);
      complete := SelectCompleteReadyWindows(windows, limit, cadence);
      newest := SortNewestFirst(complete.Keys);
      CompleteIsReady(windows, complete, uris, cutoff, limit, cadence);
      assert forall i :: 0 <= i < |newest| ==> newest[i] in newest;
    }
  }

  /**
   The newest `target` ready windows, newest first, without those already stored or in
   flight, each with its manifest.
   */
  ghost predicate Discovered(images: seq<WindowImage>, uris: seq<string>, cutoff: int, limit: int, target: int,
                             existing: set<string>, inProgress: set<string>, cadence: Cadence)
    requires cadence.Valid()
  {
    exists ready ::
      && ReadyNewestFirst(ready, uris, cutoff, limit, cadence)
      && Describes(images, Chosen(ready, target, existing, inProgress), uris, cutoff, cadence)
  }

  lemma IdsOfMinutes(a: int, b: int)
    requires Instant(a) && Instant(b) && a % MINUTE == 0 && b % MINUTE == 0
    ensures Before(ImageId(a), ImageId(b)) <==> a < b
  {
    OnTheMinute(a);
    OnTheMinute(b);
    IdOrder(a, b);
  }

  /** Windows start on whole minutes, so descending by time is descending by id. */
  lemma IdsOfAnchorsDescend(images: seq<WindowImage>, anchors: seq<int>, uris: seq<string>, cutoff: int, limit: int,
                            cadence: Cadence)
    requires cadence.Valid() && cutoff >= cadence.Accum() && Descending(anchors)
    requires forall i :: 0 <= i < |anchors| ==> Ready(uris, cutoff, anchors[i], limit, cadence)
    requires Describes(images, anchors, uris, cutoff, cadence)
    ensures IdsDescend(images)
  {
    forall i, j | 0 <= i < j < |images| ensures Before(images[j].imageId, images[i].imageId) {
      assert DescribesWindow(images[i], anchors[i], uris, cutoff, cadence);
      assert DescribesWindow(images[j], anchors[j], uris, cutoff, cadence);
      ReadyAnchor(uris, cutoff, anchors[i], limit, cadence);
      ReadyAnchor(uris, cutoff, anchors[j], limit, cadence);
      IdsOfMinutes(anchors[j], anchors[i]);
    }
  }

  lemma NewestDescends(ready: seq<int>, uris: seq<string>, cutoff: int, limit: int, cadence: Cadence)
    requires cadence.Valid() && ReadyNewestFirst(ready, uris, cutoff, limit, cadence)
    ensures Descending(ready)
  {
  }

  /** What is chosen from a descending list is a descending part of it. */
  lemma ChosenDescends(newest: seq<int>, target: int, existing: set<string>, inProgress: set<string>)
    requires Descending(newest)
    ensures Descending(Chosen(newest, target, existing, inProgress))
    ensures forall a :: a in Chosen(newest, target, existing, inProgress) ==> a in newest
  {
    var kept, isNew := newest[..Kept(target, |newest|)], Unpublished(existing, inProgress);
    FilterKeepsOrder(kept, isNew, NewestFirst);
    forall a | a in Filter(kept, isNew) ensures a in newest {
      FilterElements(kept, isNew, a);
    }
    var chosen := Filter(kept, isNew);
    forall i, j | 0 <= i < j < |chosen| ensures chosen[i] > chosen[j] {
      assert NewestFirst(chosen[i], chosen[j]) && chosen[i] != chosen[j];
    }
  }

  /** Newest first by time is newest first by id, and no id occurs twice. */
  ghost predicate IdsDescend(images: seq<WindowImage>) {
    forall i, j :: 0 <= i < j < |images| ==> Before(images[j].imageId, images[i].imageId)
  }

  function Ids(images: seq<WindowImage>): (ids: seq<string>)
    ensures |ids| == |images| && forall i :: 0 <= i < |images| ==> ids[i] == images[i].imageId
  {
    seq(|images|, i requires 0 <= i < |images| => images[i].imageId)
  }

  /** The ids of one discovery strictly descend as strings, so its batch is distinct. */
  lemma BatchIdsDescend(images: seq<WindowImage>, uris: seq<string>, cutoff: int, limit: int, target: int,
                        existing: set<string>, inProgress: set<string>, cadence: Cadence)
    requires cadence.Valid() && cutoff >= cadence.Accum()
    requires Discovered(images, uris, cutoff, limit, target, existing, inProgress, cadence)
    ensures IdsDescend(images) && Distinct(Ids(images))
  {
    var ready :|
      && ReadyNewestFirst(ready, uris, cutoff, limit, cadence)
      && Describes(images, Chosen(ready, target, existing, inProgress), uris, cutoff, cadence);
    var chosen := Chosen(ready, target, existing, inProgress);
    ChosenDescends(ready, target, existing, inProgress);
    forall i | 0 <= i < |chosen| ensures Ready(uris, cutoff, chosen[i], limit, cadence) {
      assert chosen[i] in chosen;
    }
    IdsOfAnchorsDescend(images, chosen, uris, cutoff, limit, cadence);
    forall i, j | 0 <= i < j < |images| ensures Ids(images)[i] != Ids(images)[j] {
      BeforeIsStrict(images[i].imageId);
    }
  }

  /** Position `i` of n lies in the slice [:target]. */
  predicate InSlice(i: nat, n: nat, target: int) {
    i < n && (if target >= 0 then i < target else i < n + target)
  }

  /** The i-th newest ready window is among the first `target`, and neither stored nor in flight. */
  ghost predicate Wanted(ready: seq<int>, i: nat, target: int, existing: set<string>, inProgress: set<string>) {
    InSlice(i, |ready|, target) && ImageId(ready[i]) !in existing && ImageId(ready[i]) !in inProgress
  }

  /** There is an image for each wanted window, and for no other. */
  ghost predicate EmitsWanted(images: seq<WindowImage>, ready: seq<int>, target: int,
                              existing: set<string>, inProgress: set<string>)
  {
    && (forall i: nat :: Wanted(ready, i, target, existing, inProgress) ==> HasWindow(images, ready[i]))
    && (forall k :: 0 <= k < |images| ==>
          exists i: nat :: Wanted(ready, i, target, existing, inProgress) && images[k].windowStart == ready[i])
    && (target >= 0 ==> |images| <= target)
  }

  ghost predicate HasWindow(images: seq<WindowImage>, a: int) {
    exists k :: 0 <= k < |images| && images[k].windowStart == a
  }

  /** Nothing already stored or in flight is emitted again. */
  ghost predicate AllNew(images: seq<WindowImage>, existing: set<string>, inProgress: set<string>) {
    forall k :: 0 <= k < |images| ==> images[k].imageId !in existing && images[k].imageId !in inProgress
  }

  lemma ChosenAreWanted(ready: seq<int>, target: int, existing: set<string>, inProgress: set<string>, a: int)
    requires Descending(ready)
    ensures a in Chosen(ready, target, existing, inProgress)
            <==> exists i: nat :: Wanted(ready, i, target, existing, inProgress) && ready[i] == a
    ensures target >= 0 ==> |Chosen(ready, target, existing, inProgress)| <= target
  {
    var kept := ready[..Kept(target, |ready|)];
    FilterElements(kept, Unpublished(existing, inProgress), a);
    FilterShortens(kept, Unpublished(existing, inProgress));
    if a in Chosen(ready, target, existing, inProgress) {
      var i: nat :| i < |kept| && kept[i] == a;
      assert Wanted(ready, i, target, existing, inProgress) && ready[i] == a;
    }
    if i: nat :| Wanted(ready, i, target, existing, inProgress) && ready[i] == a {
      assert kept[i] == a;
    }
  }

  lemma {:induction false} FilterShortens<T>(xs: seq<T>, keep: T -> bool)
    ensures |Filter(xs, keep)| <= |xs|
  {
    if xs != [] {
      FilterShortens(xs[1..], keep);
    }
  }

  /** What the emitted images are, in terms of the ready windows and the two sets. */
  lemma DescribedAreWanted(images: seq<WindowImage>, ready: seq<int>, uris: seq<string>, cutoff: int, target: int,
                           existing: set<string>, inProgress: set<string>, cadence: Cadence)
    requires cadence.Valid() && Descending(ready)
    requires Describes(images, Chosen(ready, target, existing, inProgress), uris, cutoff, cadence)
    ensures EmitsWanted(images, ready, target, existing, inProgress) && AllNew(images, existing, inProgress)
  {
    var chosen := Chosen(ready, target, existing, inProgress);
    ChosenAreWanted(ready, target, existing, inProgress, 0);
    forall i: nat | Wanted(ready, i, target, existing, inProgress) ensures HasWindow(images, ready[i]) {
      ChosenAreWanted(ready, target, existing, inProgress, ready[i]);
      var k :| 0 <= k < |chosen| && chosen[k] == ready[i];
      assert DescribesWindow(images[k], chosen[k], uris, cutoff, cadence);
    }
    forall k | 0 <= k < |images|
      ensures exists i: nat :: Wanted(ready, i, target, existing, inProgress) && images[k].windowStart == ready[i]
      ensures images[k].imageId !in existing && images[k].imageId !in inProgress
    {
      assert DescribesWindow(images[k], chosen[k], uris, cutoff, cadence);
      ChosenAreWanted(ready, target, existing, inProgress, chosen[k]);
      assert chosen[k] in chosen;
    }
  }

  lemma DiscoveredAreNew(images: seq<WindowImage>, uris: seq<string>, cutoff: int, limit: int, target: int,
                         existing: set<string>, inProgress: set<string>, cadence: Cadence)
    requires cadence.Valid() && Discovered(images, uris, cutoff, limit, target, existing, inProgress, cadence)
    ensures AllNew(images, existing, inProgress)
  {
    var ready :|
      && ReadyNewestFirst(ready, uris, cutoff, limit, cadence)
      && Describes(images, Chosen(ready, target, existing, inProgress), uris, cutoff, cadence);
    DescribedAreWanted(images, ready, uris, cutoff, target, existing, inProgress, cadence);
  }

  /** The current time minus the age limit must itself be a datetime. */
  method DiscoverImages(uris: seq<string>, now: int, lag: int, maxAge: int, target: int,
                        existing: set<string>, inProgress: set<string>, cadence: Cadence)
    returns (images: seq<WindowImage>, raised: bool)
    requires cadence.Valid() && now - maxAge >= cadence.Accum()
    ensures raised <==> SomeOverflows(uris)
    ensures !raised ==> Discovered(images, uris, now - maxAge, now - lag, target, existing, inProgress, cadence)
    ensures !raised ==> IdsDescend(images) && Distinct(Ids(images)) && AllNew(images, existing, inProgress)
    ensures !raised ==> exists ready ::
              && ReadyNewestFirst(ready, uris, now - maxAge, now - lag, cadence)
              && EmitsWanted(images, ready, target, existing, inProgress)
  {
    hide StartOf, Describes, ReadyNewestFirst, IdsDescend, EmitsWanted, AllNew, Descending;
    var cutoff, limit := now - maxAge, now - lag;
    var complete, newest;
    complete, newest, raised := ReadyWindows(uris, cutoff, limit, cadence);
    if raised {
      images := [];
      return;
    }
    images := EmitUnpublished(newest, target, complete, existing, inProgress, uris, cutoff, cadence);
    BatchIdsDescend(images, uris, cutoff, limit, target, existing, inProgress, cadence);
    assert Descending(newest) by { NewestDescends(newest, uris, cutoff, limit, cadence); }
    DescribedAreWanted(images, newest, uris, cutoff, target, existing, inProgress, cadence);
  }

  lemma GroupsHoldWindowFiles(windows: map<int, seq<string>>, uris: seq<string>, cutoff: int, cadence: Cadence)
    requires cadence.Valid() && Groups(windows, uris, cutoff, cadence)
    ensures forall a :: a in windows ==>
                          && windows[a] == Members(uris, cutoff, a, cadence)
                          && WindowFiles(windows[a], a, cadence)
  {
    forall a | a in windows
      ensures windows[a] == Members(uris, cutoff, a, cadence) && WindowFiles(windows[a], a, cadence)
    {
      assert Lookup(windows, a) == Members(uris, cutoff, a, cadence);
      MembersAreWindowFiles(uris, cutoff, a, cadence);
    }
  }

  lemma CompleteIsReady(windows: map<int, seq<string>>, complete: map<int, seq<string>>,
                        uris: seq<string>, cutoff: int, limit: int, cadence: Cadence)
    requires cadence.Valid() && Groups(windows, uris, cutoff, cadence) && cutoff >= cadence.Accum()
    requires forall a :: a in complete <==>
                           a in windows && a + cadence.Accum() <= limit && Complete(windows[a], a, cadence)
    requires forall a {:trigger complete[a]} :: a in complete ==> Manifest(complete[a], windows[a], a, cadence)
    ensures forall a :: a in complete <==> Ready(uris, cutoff, a, limit, cadence)
    ensures forall a {:trigger complete[a]} :: a in complete ==>
            Manifest(complete[a], Members(uris, cutoff, a, cadence), a, cadence)
  {
    forall a
      ensures a in complete <==> Ready(uris, cutoff, a, limit, cadence)
      ensures a in complete ==> Manifest(complete[a], Members(uris, cutoff, a, cadence), a, cadence)
    {
      assert Lookup(windows, a) == Members(uris, cutoff, a, cadence);
      if Ready(uris, cutoff, a, limit, cadence) {
        ReadyAnchor(uris, cutoff, a, limit, cadence);
      }
    }
  }
}
