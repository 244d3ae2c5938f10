/**
 S3WindowedKeyLister of src/data_sources/s3_windowed_lister.py: one cached listing per
 discovery window, by date partition with a fallback to the whole prefix.
 */
module WindowedLister {
  import opened Common
  import opened KeyTemplate
  import opened Names
  import opened Sorting
  import opened Text
  import opened Wildcards

  datatype Window = Window(start: nat, end: nat)

  /** What the network does to one listing: it answers, fails with a caught error, or the call is aborted. */
  datatype Fate = Answers | Fails | Aborts

  // -------------------------------------------------------------------- input files

  /** str.lower on ASCII letters. */
  function Lower(s: string): string {
    if s == "" then "" else [if 'A' <= s[0] <= 'Z' then s[0] - 'A' + 'a' else s[0]] + Lower(s[1..])
  }

  /** ASCII capitals become small letters, every other character stays. */
  lemma {:induction false} LowerMeans(s: string, i: nat)
    requires i < |s|
    ensures |Lower(s)| == |s|
    ensures Lower(s)[i] as int == s[i] as int + if 65 <= s[i] as int <= 90 then 32 else 0
  {
    if |s| > 1 {
      LowerMeans(s[1..], if i == 0 then 0 else i - 1);
    }
  }

  predicate IsInput(key: string, suffixes: seq<string>) {
    !EndsWith(key, "/") && exists i :: 0 <= i < |suffixes| && EndsWith(Lower(key), suffixes[i])
  }

  /** A key is an input file exactly if it is no folder marker and ends in a suffix, in any case. */
  lemma InputMeans(key: string, suffixes: seq<string>)
    ensures IsInput(key, suffixes) <==>
              && (key != "" ==> key[|key| - 1] != '/')
              && exists i :: 0 <= i < |suffixes| && EndsInAnyCase(key, suffixes[i])
  {
    LowerIsAsLong(key);
    if key != "" {
      assert key[|key| - 1..] == [key[|key| - 1]];
    }
    forall i | 0 <= i < |suffixes| ensures EndsWith(Lower(key), suffixes[i]) <==> EndsInAnyCase(key, suffixes[i]) {
      AnyCase(key, suffixes[i]);
    }
  }

  /** The last characters of the key, lower-cased one by one, are the suffix. */
  ghost predicate EndsInAnyCase(key: string, suffix: string) {
    && |suffix| <= |key|
    && forall k :: 0 <= k < |suffix| ==> SmallLetter(key[|key| - |suffix| + k], suffix[k])
  }

  predicate SmallLetter(c: char, small: char) {
    small as int == c as int + if 65 <= c as int <= 90 then 32 else 0
  }

  lemma LowerIsAsLong(s: string)
    ensures |Lower(s)| == |s|
  {
    if s != "" {
      LowerMeans(s, 0);
    }
  }

  lemma AnyCase(key: string, suffix: string)
    ensures EndsWith(Lower(key), suffix) <==> EndsInAnyCase(key, suffix)
  {
    LowerIsAsLong(key);
    if |suffix| <= |key| {
      var n := |key| - |suffix|;
      forall k | 0 <= k < |suffix| ensures Lower(key)[n..][k] == suffix[k] <==> SmallLetter(key[n + k], suffix[k]) {
        LowerMeans(key, n + k);
      }
    }
  }

  function StripTail(s: string): string {
    if s != "" && s[|s| - 1] == '/' then StripTail(s[..|s| - 1]) else s
  }

  /** join_s3_prefix of src/data_sources/s3_repository_utils.py. */
  function Join(prefix: string, path: string): string {
    var head := StripTail(StripSlashes(prefix));
    if head == "" then StripSlashes(path) else head + ("/" + StripSlashes(path))
  }

  /** _keep_input_files: the filter and the sort. */
  method KeepInputFiles(keys: seq<string>, suffixes: seq<string>) returns (kept: seq<string>)
    ensures kept == Sort(Filter(keys, InputFilter(suffixes)), NameOrder) && Ordered(kept, NameOrder)
    ensures multiset(kept) == multiset(Filter(keys, InputFilter(suffixes)))
    ensures forall k :: k in kept <==> k in keys && IsInput(k, suffixes)
  {
    var chosen := Filter(keys, InputFilter(suffixes));
    kept := SortedNames(chosen);
    forall k ensures k in chosen <==> k in keys && IsInput(k, suffixes) {
      FilterElements(keys, InputFilter(suffixes), k);
    }
  }

  function InputFilter(suffixes: seq<string>): string -> bool {
    key => IsInput(key, suffixes)
  }

  /** S3Client.list_files(prefix): the keys below a prefix, in listing order. */
  function KeysBelow(bucket: seq<string>, prefix: string): seq<string> {
    Filter(bucket, key => StartsWith(key, prefix))
  }

  lemma KeysBelowMeans(bucket: seq<string>, prefix: string, k: string)
    ensures k in KeysBelow(bucket, prefix) <==> k in bucket && StartsWith(k, prefix)
  {
    FilterElements(bucket, key => StartsWith(key, prefix), k);
  }

  /** The whole-prefix listing, sorted, each key as often as the bucket lists it. */
  ghost predicate FullListing(keys: seq<string>, bucket: seq<string>, prefix: string, suffixes: seq<string>) {
    && Ordered(keys, NameOrder)
    && multiset(keys) == multiset(Filter(KeysBelow(bucket, prefix), InputFilter(suffixes)))
    && forall k :: k in keys <==> k in bucket && StartsWith(k, prefix) && IsInput(k, suffixes)
  }

  // --------------------------------------------------------------------- partitions

  /** The key lies in a folder the pattern can be filled to. */
  ghost predicate Under(bucket: seq<string>, key: string, pattern: string) {
    exists q :: Fills(bucket, pattern, q) && StartsWith(key, q)
  }

  /** The key lies under a partition that the window expands to. */
  ghost predicate InPartition(bucket: seq<string>, key: string, prefix: string, template: Template, window: Window) {
    exists p :: OnWalk(p, template, window.start, window.end) && Under(bucket, key, Join(prefix, p))
  }

  function JoinedAll(prefix: string, parts: seq<string>): (patterns: seq<string>)
    ensures |patterns| == |parts| && forall i :: 0 <= i < |parts| ==> patterns[i] == Join(prefix, parts[i])
  {
    seq(|parts|, i requires 0 <= i < |parts| => Join(prefix, parts[i]))
  }

  /** The patterns of a window, in time order. */
  function Patterns(prefix: string, template: Template, window: Window): seq<string> {
    JoinedAll(prefix, Expansion(template, window.start, window.end))
  }

  /** Filling the window's patterns from this bucket comes to an end. */
  predicate PartitionsAreSafe(bucket: seq<string>, prefix: string, template: Template, window: Window) {
    AllSafe(bucket, Patterns(prefix, template, window))
  }

  /**
   The sorted input files below each way to fill the window's patterns; a key below two
   overlapping partitions is listed twice.
   */
  function PartitionKeys(bucket: seq<string>, prefix: string, suffixes: seq<string>, template: Template,
      window: Window): seq<string>
    requires PartitionsAreSafe(bucket, prefix, template, window)
  {
    var resolved := Sort(AllFillings(bucket, Patterns(prefix, template, window)), NameOrder);
    Sort(Filter(AllBelow(bucket, resolved), InputFilter(suffixes)), NameOrder)
  }

  /** A partition listing, which holds exactly the input files in a partition of the window. */
  ghost predicate PartitionListing(keys: seq<string>, bucket: seq<string>, prefix: string, suffixes: seq<string>,
                                   template: Template, window: Window)
  {
    && PartitionsAreSafe(bucket, prefix, template, window)
    && keys == PartitionKeys(bucket, prefix, suffixes, template, window)
    && forall k :: k in keys
                   <==> k in bucket && IsInput(k, suffixes) && InPartition(bucket, k, prefix, template, window)
  }

  method JoinAll(prefix: string, parts: seq<string>) returns (patterns: seq<string>)
    ensures patterns == JoinedAll(prefix, parts)
  {
    patterns := [];
    for i := 0 to |parts|
      invariant |patterns| == i && forall j :: 0 <= j < i ==> patterns[j] == Join(prefix, parts[j])
    {
      patterns := patterns + [Join(prefix, parts[i])];
    }
  }

  function AllBelow(bucket: seq<string>, prefixes: seq<string>): seq<string> {
    if prefixes == [] then [] else
    AllBelow(bucket, prefixes[..|prefixes| - 1]) + KeysBelow(bucket, prefixes[|prefixes| - 1])
  }

  /** _list_prefixes: the listings of all prefixes one after the other. */
  method ListPrefixes(bucket: seq<string>, prefixes: seq<string>) returns (keys: seq<string>)
    ensures keys == AllBelow(bucket, prefixes)
    ensures forall k :: k in keys <==> k in bucket && exists i :: 0 <= i < |prefixes| && StartsWith(k, prefixes[i])
  {
    keys := [];
    for i := 0 to |prefixes|
      invariant keys == AllBelow(bucket, prefixes[..i])
      invariant forall k :: k in keys <==> k in bucket && exists j :: 0 <= j < i && StartsWith(k, prefixes[j])
    {
      var below := KeysBelow(bucket, prefixes[i]);
      forall k ensures k in below <==> k in bucket && StartsWith(k, prefixes[i]) {
        KeysBelowMeans(bucket, prefixes[i], k);
      }
      assert prefixes[..i + 1][..i] == prefixes[..i];
      keys := keys + below;
    }
    assert prefixes[..|prefixes|] == prefixes;
  }

  method ListPartitions(bucket: seq<string>, prefix: string, suffixes: seq<string>, template: Template, window: Window)
    returns (keys: seq<string>)
    requires PartitionsAreSafe(bucket, prefix, template, window)
    ensures PartitionListing(keys, bucket, prefix, suffixes, template, window)
  {
    var parts := ExpandTimePrefixes(template, window.start, window.end);
    var patterns := JoinAll(prefix, parts);
    var resolved, listed := ResolveWildcards(bucket, patterns);
    var found := ListPrefixes(bucket, resolved);
    keys := KeepInputFiles(found, suffixes);
    forall k | k in bucket
      ensures (exists i :: 0 <= i < |resolved| && StartsWith(k, resolved[i])) <==>
              InPartition(bucket, k, prefix, template, window)
    {
      ResolvedIsInPartition(bucket, k, prefix, template, window, parts, patterns, resolved);
    }
  }

  lemma ResolvedIsInPartition(bucket: seq<string>, k: string, prefix: string, template: Template, window: Window,
                              parts: seq<string>, patterns: seq<string>, resolved: seq<string>)
    requires forall p :: p in parts <==> OnWalk(p, template, window.start, window.end)
    requires |patterns| == |parts| && forall i :: 0 <= i < |parts| ==> patterns[i] == Join(prefix, parts[i])
    requires forall q :: q in resolved <==> SomeFills(bucket, patterns, q)
    ensures (exists i :: 0 <= i < |resolved| && StartsWith(k, resolved[i])) <==>
            InPartition(bucket, k, prefix, template, window)
  {
    if i :| 0 <= i < |resolved| && StartsWith(k, resolved[i]) {
      assert resolved[i] in resolved;
      var j :| 0 <= j < |patterns| && Fills(bucket, patterns[j], resolved[i]);
      assert parts[j] in parts;
      assert Under(bucket, k, Join(prefix, parts[j]));
    }
    if InPartition(bucket, k, prefix, template, window) {
      var p :| OnWalk(p, template, window.start, window.end) && Under(bucket, k, Join(prefix, p));
      var q :| Fills(bucket, Join(prefix, p), q) && StartsWith(k, q);
      assert p in parts;
      var j :| 0 <= j < |parts| && parts[j] == p;
      assert Fills(bucket, patterns[j], q);
      assert q in resolved;
      var i :| 0 <= i < |resolved| && resolved[i] == q;
    }
  }

  // ---------------------------------------------------------------------- the lister

  /** A completed listing of one window. */
  datatype Listing = Listing(window: Window, keys: seq<string>)

  class Lister {
    const prefix: string
    const template: Option<Template>
    const suffixes: seq<string>
    var cachedWindow: Option<Window>
    var cachedKeys: seq<string>
    /** Every window listing that succeeded, in order. */
    ghost var history: seq<Listing>

    /** The cache is the last successful listing; no window is listed twice in a row. */
    ghost predicate Valid()
      reads this
    {
      && (cachedWindow.None? <==> history == [])
      && (history != [] ==> history[|history| - 1] == Listing(cachedWindow.value, cachedKeys))
      && (forall i :: 0 < i < |history| ==> history[i - 1].window != history[i].window)
    }

    constructor (prefix: string, template: Option<Template>, keySuffixes: seq<string>)
      ensures Valid() && history == []
      ensures this.prefix == prefix && this.template == template
      ensures |suffixes| == |keySuffixes| && forall i :: 0 <= i < |suffixes| ==> suffixes[i] == Lower(keySuffixes[i])
    {
      this.prefix := prefix;
      this.template := template;
      suffixes := seq(|keySuffixes|, i requires 0 <= i < |keySuffixes| => Lower(keySuffixes[i]));
      cachedWindow := None;
      cachedKeys := [];
      history := [];
    }

    /** Some input file lies under a partition of the window. */
    ghost predicate PartitionsHoldFiles(window: Window, bucket: seq<string>)
      requires template.Some?
    {
      exists k :: k in bucket && IsInput(k, suffixes) && InPartition(bucket, k, prefix, template.value, window)
    }

    /**
     What listing a window yields: its partitions if they answer with a file; the whole
     prefix if there is no template or the partitions fail or hold none; no keys if that
     listing fails too or the partition listing is aborted.
     */
    ghost predicate Outcome(keys: Option<seq<string>>, window: Window, bucket: seq<string>,
                            partitions: Fate, full: Fate) {
      if template.Some? && partitions == Aborts then
        keys.None?
      else if template.Some? && partitions == Answers && PartitionsHoldFiles(window, bucket) then
        keys.Some? && PartitionListing(keys.value, bucket, prefix, suffixes, template.value, window)
      else
        && (keys.Some? <==> full == Answers)
        && (keys.Some? ==> FullListing(keys.value, bucket, prefix, suffixes))
    }

    method ListAll(bucket: seq<string>, fate: Fate) returns (keys: Option<seq<string>>)
      ensures keys.Some? <==> fate == Answers
      ensures keys.Some? ==> FullListing(keys.value, bucket, prefix, suffixes)
    {
      if fate != Answers {
        return None;
      }
      var below := KeysBelow(bucket, prefix);
      var kept := KeepInputFiles(below, suffixes);
      forall k ensures k in below <==> k in bucket && StartsWith(k, prefix) {
        KeysBelowMeans(bucket, prefix, k);
      }
      keys := Some(kept);
    }

    /**
     A failed or empty partition listing falls back to the whole prefix; an aborted one
     and a failed fallback propagate.
     */
    method ListWindow(window: Window, bucket: seq<string>, partitions: Fate, full: Fate)
      returns (keys: Option<seq<string>>)
      requires template.Some? ==> PartitionsAreSafe(bucket, prefix, template.value, window)
      ensures Outcome(keys, window, bucket, partitions, full)
    {
      if template.Some? {
        if partitions == Aborts {
          return None;
        }
        if partitions == Answers {
          var found := ListPartitions(bucket, prefix, suffixes, template.value, window);
          if found != [] {
            assert found[0] in found;
            return Some(found);
          }
          assert !PartitionsHoldFiles(window, bucket);
        }
      }
      keys := ListAll(bucket, full);
    }

    /** list_keys: a window already cached is answered without listing; a failure leaves the cache alone. */
    method ListKeys(window: Option<Window>, bucket: seq<string>, partitions: Fate, full: Fate)
      returns (keys: Option<seq<string>>)
      requires Valid()
      requires template.Some? && window.Some? ==> PartitionsAreSafe(bucket, prefix, template.value, window.value)
      modifies this
      ensures Valid()
      ensures window.None? ==>
                && cachedWindow == old(cachedWindow) && cachedKeys == old(cachedKeys) && history == old(history)
                && (keys.Some? ==> FullListing(keys.value, bucket, prefix, suffixes))
      ensures window.Some? && window == old(cachedWindow) ==>
                && keys == Some(old(cachedKeys))
                && cachedWindow == old(cachedWindow) && cachedKeys == old(cachedKeys) && history == old(history)
      ensures window.None? ==> (keys.Some? <==> full == Answers)
      ensures window.Some? && window != old(cachedWindow) ==> Outcome(keys, window.value, bucket, partitions, full)
      ensures window.Some? && window != old(cachedWindow) && keys.None? ==>
                cachedWindow == old(cachedWindow) && cachedKeys == old(cachedKeys) && history == old(history)
      ensures window.Some? && window != old(cachedWindow) && keys.Some? ==>
                && cachedWindow == window && cachedKeys == keys.value
                && history == old(history) + [Listing(window.value, keys.value)]
    {
      if window.None? {
        keys := ListAll(bucket, full);
        return;
      }
      if window != cachedWindow {
        keys := ListWindow(window.value, bucket, partitions, full);
        if keys.None? {
          return;
        }
        cachedKeys := keys.value;
        cachedWindow := window;
        history := history + [Listing(window.value, keys.value)];
      }
      keys := Some(cachedKeys);
    }
  }

  // --------------------------------------------------------------------- agreement

  /** A configured prefix after normalisation: empty, or text that ends in its only trailing slash. */
  predicate Normalised(prefix: string) {
    prefix == "" ||
    (|prefix| >= 2 && prefix[0] != '/' && prefix[|prefix| - 1] == '/' && prefix[|prefix| - 2] != '/' && '*' !in prefix)
  }

  lemma JoinExtendsPrefix(prefix: string, path: string)
    requires Normalised(prefix)
    ensures StartsWith(Join(prefix, path), prefix)
  {
    if prefix != "" {
      var head := prefix[..|prefix| - 1];
      assert StripSlashes(prefix) == prefix && StripTail(head) == head && StripTail(prefix) == head;
      assert prefix == head + "/";
      assert Join(prefix, path) == prefix + StripSlashes(path);
    }
  }

  /** Filling keeps everything in front of the first `*`. */
  lemma {:induction false} FillingKeepsHead(bucket: seq<string>, p: string, q: string, chosen: seq<string>,
      head: string)
    requires FilledBy(bucket, p, q, chosen) && StartsWith(p, head) && '*' !in head
    ensures StartsWith(q, head)
    decreases |chosen|
  {
    if HasStar(p) {
      var star := FirstFrom(p, '*', 0);
      assert forall i :: 0 <= i < |head| ==> head[i] in head && p[i] == head[i];
      assert |head| <= star;
      var folder := chosen[0];
      FoldersOfKeys(bucket, HeadOf(p), folder);
      var i :| 0 <= i < |bucket| && FolderAt(bucket[i], HeadOf(p)) == Some(folder);
      FolderShape(bucket[i], HeadOf(p));
      assert Replaced(p, folder)[..|head|] == folder[..|head|] == HeadOf(p)[..|head|] == p[..|head|];
      FillingKeepsHead(bucket, Replaced(p, folder), q, chosen[1..], head);
    }
  }

  /** Partition listings find nothing outside the whole-prefix listing. */
  lemma PartitionsLieBelowPrefix(bucket: seq<string>, key: string, prefix: string, template: Template, window: Window)
    requires Normalised(prefix) && InPartition(bucket, key, prefix, template, window)
    ensures StartsWith(key, prefix)
  {
    var p :| OnWalk(p, template, window.start, window.end) && Under(bucket, key, Join(prefix, p));
    var q :| Fills(bucket, Join(prefix, p), q) && StartsWith(key, q);
    var chosen :| FilledBy(bucket, Join(prefix, p), q, chosen);
    hide Join, OnWalk, FilledBy;
    JoinExtendsPrefix(prefix, p);
    FillingKeepsHead(bucket, Join(prefix, p), q, chosen, prefix);
    StartsThrough(key, q, prefix);
  }

  lemma StartsThrough(key: string, q: string, prefix: string)
    requires StartsWith(key, q) && StartsWith(q, prefix)
    ensures StartsWith(key, prefix)
  {
    assert key[..|prefix|] == q[..|prefix|];
  }

  /**
   For a file that lies under the partition of its scan time, and a scan time inside the
   window, whatever a successful window listing returns agrees with the full listing.
   */
  lemma WindowListingAgreesWithFull(lister: Lister, keys: seq<string>, all: seq<string>, window: Window,
                                    bucket: seq<string>, partitions: Fate, full: Fate, key: string, t: nat)
    requires Normalised(lister.prefix)
    requires lister.template.Some? ==> Hourly(lister.template.value) || !NamesHour(lister.template.value)
    requires lister.Outcome(Some(keys), window, bucket, partitions, full)
    requires FullListing(all, bucket, lister.prefix, lister.suffixes)
    requires window.start <= t <= window.end
    requires lister.template.Some? ==> Under(bucket, key, Join(lister.prefix, Fill(lister.template.value, t)))
    ensures key in keys <==> key in all
  {
    if !FullListing(keys, bucket, lister.prefix, lister.suffixes) {
      var template := lister.template.value;
      CoveredInstant(template, window.start, window.end, t);
      assert InPartition(bucket, key, lister.prefix, template, window);
      PartitionsLieBelowPrefix(bucket, key, lister.prefix, template, window);
    }
  }
}
