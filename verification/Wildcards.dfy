/**
 The `*` worklist of src/data_sources/s3_windowed_lister.py (_resolve_wildcards): each
 `*` is replaced by the folders a delimiter listing finds there.  A bucket is the
 sequence of its keys in listing order.
 */
module Wildcards {
  import opened Common
  import opened Names
  import opened Sorting
  import opened Text

  // ------------------------------------------------------------------ text helpers

  /** Position of the first `c` at or after `i`, or the end. */
  function FirstFrom(s: string, c: char, i: nat): (j: nat)
    requires i <= |s|
    ensures i <= j <= |s|
    ensures forall k :: i <= k < j ==> s[k] != c
    ensures j < |s| ==> s[j] == c
    decreases |s| - i
  {
    if i == |s| || s[i] == c then i else FirstFrom(s, c, i + 1)
  }

  predicate HasStar(s: string) {
    FirstFrom(s, '*', 0) < |s|
  }

  function HeadOf(s: string): string {
    s[..FirstFrom(s, '*', 0)]
  }

  function TailOf(s: string): string
    requires HasStar(s)
  {
    s[FirstFrom(s, '*', 0) + 1..]
  }

  function StripSlashes(s: string): string {
    if s != "" && s[0] == '/' then StripSlashes(s[1..]) else s
  }

  function Stars(s: string): nat {
    if s == "" then 0 else (if s[0] == '*' then 1 else 0) + Stars(s[1..])
  }

  lemma {:induction false} StarsOfConcat(a: string, b: string)
    ensures Stars(a + b) == Stars(a) + Stars(b)
  {
    if a == "" {
      assert a + b == b;
    } else {
      StarsOfConcat(a[1..], b);
      assert (a + b)[1..] == a[1..] + b;
    }
  }

  lemma {:induction false} NoStars(s: string)
    requires forall i :: 0 <= i < |s| ==> s[i] != '*'
    ensures Stars(s) == 0
  {
    if s != "" {
      NoStars(s[1..]);
    }
  }

  lemma {:induction false} StripKeepsStars(s: string)
    ensures Stars(StripSlashes(s)) == Stars(s)
  {
    if s != "" && s[0] == '/' {
      StripKeepsStars(s[1..]);
    }
  }

  // ------------------------------------------------------------------ folder listing

  /** The common prefix a key contributes to a listing of `head` with delimiter `/`. */
  function FolderAt(key: string, head: string): Option<string> {
    if StartsWith(key, head) && FirstFrom(key, '/', |head|) < |key| then
      Some(key[..FirstFrom(key, '/', |head|) + 1])
    else
      None
  }

  /** list_prefixes(head, "/"): every common prefix once. */
  function Folders(bucket: seq<string>, head: string): (folders: seq<string>)
    ensures |folders| <= |bucket|
  {
    if bucket == [] then [] else
    var earlier := Folders(bucket[..|bucket| - 1], head);
    match FolderAt(bucket[|bucket| - 1], head)
    case None => earlier
    case Some(folder) => if folder in earlier then earlier else earlier + [folder]
  }

  lemma {:induction false} FoldersOfKeys(bucket: seq<string>, head: string, folder: string)
    ensures folder in Folders(bucket, head) <==>
            exists i :: 0 <= i < |bucket| && FolderAt(bucket[i], head) == Some(folder)
  {
    if bucket != [] {
      var n := |bucket| - 1;
      FoldersOfKeys(bucket[..n], head, folder);
      assert forall i :: 0 <= i < n ==> bucket[..n][i] == bucket[i];
    }
  }

  /** A listed folder extends the head by one name without a slash. */
  lemma FolderShape(key: string, head: string)
    requires FolderAt(key, head).Some?
    ensures var folder := FolderAt(key, head).value;
            && |folder| > |head| && folder[..|head|] == head && StartsWith(key, folder)
            && folder[|folder| - 1] == '/' && '/' !in folder[|head|..|folder| - 1]
  {
  }

  /** The popped pattern with its first `*` replaced by a folder. */
  function Replaced(p: string, folder: string): string
    requires HasStar(p)
  {
    folder + StripSlashes(TailOf(p))
  }

  lemma ReplacedStars(p: string, folder: string)
    requires HasStar(p) && !HasStar(folder)
    ensures Stars(Replaced(p, folder)) == Stars(p) - 1
  {
    NoStars(folder);
    NoStars(HeadOf(p));
    StarsOfConcat(folder, StripSlashes(TailOf(p)));
    StripKeepsStars(TailOf(p));
    assert p == HeadOf(p) + (['*'] + TailOf(p));
    StarsOfConcat(HeadOf(p), ['*'] + TailOf(p));
    assert (['*'] + TailOf(p))[1..] == TailOf(p);
  }

  function ReplacedAll(p: string, folders: seq<string>): (r: seq<string>)
    requires HasStar(p)
    ensures |r| == |folders| && forall i :: 0 <= i < |r| ==> r[i] == Replaced(p, folders[i])
  {
    seq(|folders|, i requires 0 <= i < |folders| => Replaced(p, folders[i]))
  }

  /** What one pop pushes. */
  function Expansions(bucket: seq<string>, p: string): seq<string>
    requires HasStar(p)
  {
    ReplacedAll(p, Folders(bucket, HeadOf(p)))
  }

  // ------------------------------------------------------------------------- meaning

  /** `q` is `p` with its `*`s filled, left to right, by the existing folders `chosen`. */
  ghost predicate FilledBy(bucket: seq<string>, p: string, q: string, chosen: seq<string>)
    decreases |chosen|
  {
    if !HasStar(p) then
      chosen == [] && q == p
    else
      && chosen != [] && chosen[0] in Folders(bucket, HeadOf(p))
      && FilledBy(bucket, Replaced(p, chosen[0]), q, chosen[1..])
  }

  ghost predicate Fills(bucket: seq<string>, p: string, q: string) {
    exists chosen :: FilledBy(bucket, p, q, chosen)
  }

  ghost predicate SomeFills(bucket: seq<string>, patterns: seq<string>, q: string) {
    exists i :: 0 <= i < |patterns| && Fills(bucket, patterns[i], q)
  }

  lemma FillsStep(bucket: seq<string>, p: string, q: string)
    ensures !HasStar(p) ==> (Fills(bucket, p, q) <==> q == p)
    ensures HasStar(p) ==> (Fills(bucket, p, q) <==> SomeFills(bucket, Expansions(bucket, p), q))
  {
    if !HasStar(p) {
      assert FilledBy(bucket, p, p, []);
    } else {
      var folders := Folders(bucket, HeadOf(p));
      if chosen :| FilledBy(bucket, p, q, chosen) {
        var i :| 0 <= i < |folders| && folders[i] == chosen[0];
        assert FilledBy(bucket, Replaced(p, folders[i]), q, chosen[1..]);
        assert Fills(bucket, Expansions(bucket, p)[i], q);
      }
      if i :| 0 <= i < |folders| && Fills(bucket, Expansions(bucket, p)[i], q) {
        var rest :| FilledBy(bucket, Replaced(p, folders[i]), q, rest);
        assert ([folders[i]] + rest)[1..] == rest;
        assert FilledBy(bucket, p, q, [folders[i]] + rest);
      }
    }
  }

  lemma SomeFillsOfConcat(bucket: seq<string>, a: seq<string>, b: seq<string>, q: string)
    ensures SomeFills(bucket, a + b, q) <==> SomeFills(bucket, a, q) || SomeFills(bucket, b, q)
  {
    if i :| 0 <= i < |a| && Fills(bucket, a[i], q) {
      assert (a + b)[i] == a[i];
    }
    if i :| 0 <= i < |b| && Fills(bucket, b[i], q) {
      assert (a + b)[|a| + i] == b[i];
    }
    if i :| 0 <= i < |a + b| && Fills(bucket, (a + b)[i], q) {
      assert (a + b)[i] == if i < |a| then a[i] else b[i - |a|];
    }
  }

  // ------------------------------------------------------------------------ the loop

  /** Pop the last pattern; push its expansions if it has a `*`. */
  function Next(bucket: seq<string>, pending: seq<string>): seq<string>
    requires pending != []
  {
    var last := pending[|pending| - 1];
    pending[..|pending| - 1] + if HasStar(last) then Expansions(bucket, last) else []
  }

  /** No `*` is ever filled by a folder whose own name has a `*`. */
  predicate Safe(bucket: seq<string>, p: string)
    decreases Stars(p)
  {
    HasStar(p) ==>
      forall i :: 0 <= i < |Folders(bucket, HeadOf(p))| ==>
                    && !HasStar(Folders(bucket, HeadOf(p))[i])
                    && (ReplacedStars(p, Folders(bucket, HeadOf(p))[i]);
                        Safe(bucket, Replaced(p, Folders(bucket, HeadOf(p))[i])))
  }

  predicate AllSafe(bucket: seq<string>, pending: seq<string>) {
    forall i :: 0 <= i < |pending| ==> Safe(bucket, pending[i])
  }

  /** How many pops a pattern with n stars can cost when every listing has at most b folders. */
  function Cost(b: nat, n: nat): (c: nat)
    ensures c >= 1
  {
    if n == 0 then 1 else 1 + b * Cost(b, n - 1)
  }

  function Load(b: nat, pending: seq<string>): nat {
    if pending == [] then 0 else Load(b, pending[..|pending| - 1]) + Cost(b, Stars(pending[|pending| - 1]))
  }

  lemma {:induction false} LoadOfConcat(b: nat, x: seq<string>, y: seq<string>)
    ensures Load(b, x + y) == Load(b, x) + Load(b, y)
  {
    if y == [] {
      assert x + y == x;
    } else {
      var n := |y| - 1;
      LoadOfConcat(b, x, y[..n]);
      assert (x + y)[..|x + y| - 1] == x + y[..n];
    }
  }

  lemma {:induction false} LoadOfEqualStars(b: nat, xs: seq<string>, n: nat)
    requires forall i :: 0 <= i < |xs| ==> Stars(xs[i]) == n
    ensures Load(b, xs) == |xs| * Cost(b, n)
  {
    if xs != [] {
      LoadOfEqualStars(b, xs[..|xs| - 1], n);
    }
  }

  /** Safe work pushes safe work with one `*` less. */
  lemma PushedIsSafe(bucket: seq<string>, p: string)
    requires HasStar(p) && Safe(bucket, p)
    ensures AllSafe(bucket, Expansions(bucket, p)) && Stars(p) > 0
    ensures forall i :: 0 <= i < |Expansions(bucket, p)| ==> Stars(Expansions(bucket, p)[i]) == Stars(p) - 1
  {
    var folders := Folders(bucket, HeadOf(p));
    forall i | 0 <= i < |folders|
      ensures Safe(bucket, Replaced(p, folders[i])) && Stars(Replaced(p, folders[i])) == Stars(p) - 1
    {
      ReplacedStars(p, folders[i]);
    }
    StarIsCounted(p);
  }

  /** Every pop of safe work lowers the load. */
  lemma NextIsLighter(bucket: seq<string>, pending: seq<string>)
    requires pending != [] && AllSafe(bucket, pending)
    ensures AllSafe(bucket, Next(bucket, pending))
    ensures Load(|bucket|, Next(bucket, pending)) < Load(|bucket|, pending)
  {
    var last, front := pending[|pending| - 1], pending[..|pending| - 1];
    if HasStar(last) {
      PushedIsSafe(bucket, last);
      SwapIsLighter(|bucket|, front, Expansions(bucket, last), Stars(last));
    } else {
      assert Next(bucket, pending) == front;
    }
  }

  lemma SwapIsLighter(b: nat, front: seq<string>, pushed: seq<string>, n: nat)
    requires n > 0 && |pushed| <= b && forall i :: 0 <= i < |pushed| ==> Stars(pushed[i]) == n - 1
    ensures Load(b, front + pushed) < Load(b, front) + Cost(b, n)
  {
    LoadOfEqualStars(b, pushed, n - 1);
    LoadOfConcat(b, front, pushed);
    FewerFolders(|pushed|, b, Cost(b, n - 1));
  }

  lemma FewerFolders(k: nat, b: nat, c: nat)
    requires k <= b
    ensures k * c <= b * c
  {
  }

  lemma StarIsCounted(p: string)
    requires HasStar(p)
    ensures Stars(p) > 0
  {
    NoStars(HeadOf(p));
    assert p == HeadOf(p) + (['*'] + TailOf(p));
    StarsOfConcat(HeadOf(p), ['*'] + TailOf(p));
  }

  lemma NextMeans(bucket: seq<string>, pending: seq<string>, q: string)
    requires pending != []
    ensures SomeFills(bucket, pending, q) <==>
              || SomeFills(bucket, Next(bucket, pending), q)
              || (!HasStar(pending[|pending| - 1]) && q == pending[|pending| - 1])
  {
    var last, front := pending[|pending| - 1], pending[..|pending| - 1];
    assert pending == front + [last];
    SomeFillsOfConcat(bucket, front, [last], q);
    assert SomeFills(bucket, [last], q) <==> Fills(bucket, last, q) by {
      assert [last][0] == last;
    }
    FillsStep(bucket, last, q);
    if HasStar(last) {
      SomeFillsOfConcat(bucket, front, Expansions(bucket, last), q);
    } else {
      assert Next(bucket, pending) == front;
    }
  }

  // -------------------------------------------------------------- all ways to fill

  function MostStars(patterns: seq<string>): nat {
    if patterns == [] then 0 else
    var most, n := MostStars(patterns[..|patterns| - 1]), Stars(patterns[|patterns| - 1]);
    if n > most then n else most
  }

  lemma {:induction false} MostStarsBound(patterns: seq<string>, n: nat)
    requires forall i :: 0 <= i < |patterns| ==> Stars(patterns[i]) <= n
    ensures MostStars(patterns) <= n
  {
    if patterns != [] {
      MostStarsBound(patterns[..|patterns| - 1], n);
    }
  }

  /** Every way to fill the pattern, folder by folder in listing order. */
  function Fillings(bucket: seq<string>, p: string): seq<string>
    requires Safe(bucket, p)
    decreases Stars(p), 0
  {
    if !HasStar(p) then [p]
    else
      PushedIsSafe(bucket, p);
      MostStarsBound(Expansions(bucket, p), Stars(p) - 1);
      AllFillings(bucket, Expansions(bucket, p))
  }

  function AllFillings(bucket: seq<string>, patterns: seq<string>): seq<string>
    requires AllSafe(bucket, patterns)
    decreases MostStars(patterns), |patterns|
  {
    if patterns == [] then [] else
    AllFillings(bucket, patterns[..|patterns| - 1]) + Fillings(bucket, patterns[|patterns| - 1])
  }

  lemma AllSafeOfConcat(bucket: seq<string>, a: seq<string>, b: seq<string>)
    requires AllSafe(bucket, a) && AllSafe(bucket, b)
    ensures AllSafe(bucket, a + b)
  {
  }

  lemma {:induction false} AllFillingsOfConcat(bucket: seq<string>, a: seq<string>, b: seq<string>)
    requires AllSafe(bucket, a) && AllSafe(bucket, b)
    ensures AllSafe(bucket, a + b) && AllFillings(bucket, a + b) == AllFillings(bucket, a) + AllFillings(bucket, b)
    decreases |b|
  {
    AllSafeOfConcat(bucket, a, b);
    if b == [] {
      assert a + b == a;
    } else {
      var n := |b| - 1;
      AllFillingsOfConcat(bucket, a, b[..n]);
      assert (a + b)[..|a + b| - 1] == a + b[..n] && (a + b)[|a + b| - 1] == b[n];
    }
  }

  /** A pop moves the fillings of the popped pattern, and loses none. */
  lemma NextFillings(bucket: seq<string>, pending: seq<string>)
    requires pending != [] && AllSafe(bucket, pending) && AllSafe(bucket, Next(bucket, pending))
    ensures
      var p := pending[|pending| - 1];
      AllFillings(bucket, pending)
      == AllFillings(bucket, Next(bucket, pending)) + if HasStar(p) then [] else [p]
  {
    var p, front := pending[|pending| - 1], pending[..|pending| - 1];
    if HasStar(p) {
      PushedIsSafe(bucket, p);
      AllFillingsOfConcat(bucket, front, Expansions(bucket, p));
    } else {
      assert Next(bucket, pending) == front;
    }
  }

  /** What is known of every folder listing made so far. */
  ghost predicate Remembers(bucket: seq<string>, children: map<string, seq<string>>, listed: seq<string>) {
    && Distinct(listed)
    && (forall h :: h in listed <==> h in children)
    && (forall h :: h in children ==> children[h] == Folders(bucket, h))
  }

  /** One look-up in the memo, listing the head only the first time. */
  method ChildrenOf(bucket: seq<string>, head: string, before: map<string, seq<string>>,
      ghost listedBefore: seq<string>)
    returns (folders: seq<string>, children: map<string, seq<string>>, ghost listed: seq<string>)
    requires Remembers(bucket, before, listedBefore)
    ensures Remembers(bucket, children, listed) && folders == Folders(bucket, head)
  {
    children, listed := before, listedBefore;
    if head !in children {
      children := children[head := Folders(bucket, head)];
      listed := listed + [head];
    }
    folders := children[head];
  }

  /** What is found and what is pending together still make up all the fillings. */
  ghost predicate Balanced(bucket: seq<string>, prefixes: seq<string>, pending: seq<string>, found: seq<string>) {
    && AllSafe(bucket, prefixes) && AllSafe(bucket, pending)
    && multiset(AllFillings(bucket, prefixes)) == multiset(AllFillings(bucket, pending)) + multiset(found)
    && forall q :: SomeFills(bucket, prefixes, q) <==> q in found || SomeFills(bucket, pending, q)
  }

  lemma BalancedNext(bucket: seq<string>, prefixes: seq<string>, pending: seq<string>, found: seq<string>)
    requires Balanced(bucket, prefixes, pending, found) && pending != []
    ensures
      var p := pending[|pending| - 1];
      Balanced(bucket, prefixes, Next(bucket, pending), if HasStar(p) then found else found + [p])
  {
    NextIsLighter(bucket, pending);
    NextFillings(bucket, pending);
    FoundNext(bucket, prefixes, pending, found);
  }

  lemma FoundNext(bucket: seq<string>, prefixes: seq<string>, pending: seq<string>, found: seq<string>)
    requires pending != [] && forall q :: SomeFills(bucket, prefixes, q) <==>
             q in found || SomeFills(bucket, pending, q)
    ensures
      var p := pending[|pending| - 1];
      var next := if HasStar(p) then found else found + [p];
      forall q :: SomeFills(bucket, prefixes, q) <==> q in next || SomeFills(bucket, Next(bucket, pending), q)
  {
    var p := pending[|pending| - 1];
    var next := if HasStar(p) then found else found + [p];
    forall q ensures SomeFills(bucket, prefixes, q) <==> q in next || SomeFills(bucket, Next(bucket, pending), q) {
      NextMeans(bucket, pending, q);
    }
  }

  /**
   Every way to fill the patterns, sorted, as often as there are ways; `listed` is the
   sequence of folder listings made, in which no head occurs twice.
   */
  method ResolveWildcards(bucket: seq<string>, prefixes: seq<string>)
    returns (resolved: seq<string>, ghost listed: seq<string>)
    requires AllSafe(bucket, prefixes)
    ensures resolved == Sort(AllFillings(bucket, prefixes), NameOrder)
    ensures forall q :: q in resolved <==> SomeFills(bucket, prefixes, q)
    ensures Distinct(listed)
  {
    var found: seq<string> := [];
    var children: map<string, seq<string>> := map[];
    var pending := prefixes;
    listed := [];
    while pending != []
      invariant Balanced(bucket, prefixes, pending, found) && Remembers(bucket, children, listed)
      decreases Load(|bucket|, pending)
    {
      var p := pending[|pending| - 1];
      ghost var next := Next(bucket, pending);
      NextIsLighter(bucket, pending);
      BalancedNext(bucket, prefixes, pending, found);
      pending := pending[..|pending| - 1];
      if !HasStar(p) {
        found := found + [p];
      } else {
        var folders;
        folders, children, listed := ChildrenOf(bucket, HeadOf(p), children, listed);
        pending := pending + ReplacedAll(p, folders);
      }
      assert pending == next;
    }
    SortIgnoresOrder(AllFillings(bucket, prefixes), found);
    resolved := SortedNames(found);
  }

  // -------------------------------------------------------------------- divergence

  /** A folder with a `*` in its name is found again by the listing of what precedes that `*`. */
  lemma StarredFolderComesBack(bucket: seq<string>, p: string, i: nat)
    requires HasStar(p) && i < |Folders(bucket, HeadOf(p))| && HasStar(Folders(bucket, HeadOf(p))[i])
    ensures !Safe(bucket, Replaced(p, Folders(bucket, HeadOf(p))[i]))
  {
    var head := HeadOf(p);
    var folder := Folders(bucket, head)[i];
    var again := Replaced(p, folder);
    assert folder in Folders(bucket, head);
    FoldersOfKeys(bucket, head, folder);
    var k :| 0 <= k < |bucket| && FolderAt(bucket[k], head) == Some(folder);
    FolderShape(bucket[k], head);
    var star := FirstFrom(folder, '*', 0);
    assert folder[star] == '*' && forall j :: 0 <= j < |head| ==> folder[j] == head[j];
    assert |head| <= star < |folder| - 1;
    FirstInFront(folder, StripSlashes(TailOf(p)), '*', 0);
    assert HeadOf(again) == folder[..star];
    SameFolderFurtherIn(bucket[k], head, star);
    FoldersOfKeys(bucket, HeadOf(again), folder);
    assert folder in Folders(bucket, HeadOf(again));
  }

  lemma {:induction false} FirstInFront(a: string, b: string, c: char, i: nat)
    requires i <= |a| && FirstFrom(a, c, i) < |a|
    ensures FirstFrom(a + b, c, i) == FirstFrom(a, c, i)
    decreases |a| - i
  {
    if i < |a| && a[i] != c {
      FirstInFront(a, b, c, i + 1);
    }
  }

  /** Listing deeper inside the same folder name finds the same folder. */
  lemma SameFolderFurtherIn(key: string, head: string, k: nat)
    requires FolderAt(key, head).Some? && |head| <= k < |FolderAt(key, head).value|
    ensures FolderAt(key, FolderAt(key, head).value[..k]) == FolderAt(key, head)
  {
    var folder := FolderAt(key, head).value;
    FolderShape(key, head);
    var j := FirstFrom(key, '/', k);
    assert key[|folder| - 1] == '/';
    assert forall m :: k <= m < |folder| - 1 ==> key[m] != '/';
    assert j == |folder| - 1;
    assert folder[..k] == key[..k];
  }

  /** Unsafe work is replaced by unsafe work, so the worklist cannot run empty. */
  lemma UnsafeStays(bucket: seq<string>, pending: seq<string>)
    requires !AllSafe(bucket, pending)
    ensures pending != [] && !AllSafe(bucket, Next(bucket, pending))
  {
    var n := |pending| - 1;
    var k :| 0 <= k < |pending| && !Safe(bucket, pending[k]);
    if k < n {
      assert Next(bucket, pending)[k] == pending[k];
    } else {
      var p := pending[n];
      var folders := Folders(bucket, HeadOf(p));
      var i :| 0 <= i < |folders| && (HasStar(folders[i]) || !Safe(bucket, Replaced(p, folders[i])));
      if HasStar(folders[i]) {
        StarredFolderComesBack(bucket, p, i);
      }
      assert Next(bucket, pending)[n + i] == Replaced(p, folders[i]);
    }
  }

  /** The worklist after n pops; it stays empty once it is. */
  function After(bucket: seq<string>, pending: seq<string>, n: nat): seq<string>
    decreases n
  {
    if n == 0 || pending == [] then pending else After(bucket, Next(bucket, pending), n - 1)
  }

  lemma {:induction false} UnsafeNeverEmpties(bucket: seq<string>, pending: seq<string>, n: nat)
    requires !AllSafe(bucket, pending)
    ensures After(bucket, pending, n) != []
    decreases n
  {
    UnsafeStays(bucket, pending);
    if n > 0 {
      UnsafeNeverEmpties(bucket, Next(bucket, pending), n - 1);
    }
  }

  lemma {:induction false} SafeEmpties(bucket: seq<string>, pending: seq<string>) returns (n: nat)
    requires AllSafe(bucket, pending)
    ensures After(bucket, pending, n) == []
    decreases Load(|bucket|, pending)
  {
    if pending == [] {
      n := 0;
    } else {
      NextIsLighter(bucket, pending);
      var m := SafeEmpties(bucket, Next(bucket, pending));
      n := m + 1;
    }
  }

  /** The worklist runs empty if and only if no `*` meets a folder with a `*` in its name. */
  lemma TerminatesExactlyWhen(bucket: seq<string>, prefixes: seq<string>)
    ensures (exists n: nat :: After(bucket, prefixes, n) == []) <==> AllSafe(bucket, prefixes)
  {
    if AllSafe(bucket, prefixes) {
      var n := SafeEmpties(bucket, prefixes);
    } else {
      forall n: nat ensures After(bucket, prefixes, n) != [] {
        UnsafeNeverEmpties(bucket, prefixes, n);
      }
    }
  }

  // With a key below a folder named "a*" in the bucket, filling "*/" never ends.
  lemma StarredFolderNeverEnds(bucket: seq<string>, n: nat)
    requires "a*/k" in bucket
    ensures After(bucket, ["*/"], n) != []
  {
    var i :| 0 <= i < |bucket| && bucket[i] == "a*/k";
    assert HeadOf("*/") == "" && HasStar("*/");
    assert FirstFrom("a*/k", '/', 2) == FirstFrom("a*/k", '/', 1) == FirstFrom("a*/k", '/', 0) == 2;
    assert "a*/k"[..0] == "" && "a*/k"[..3] == "a*/";
    assert FolderAt(bucket[i], "") == Some("a*/") && HasStar("a*/");
    FoldersOfKeys(bucket, "", "a*/");
    var j :| 0 <= j < |Folders(bucket, "")| && Folders(bucket, "")[j] == "a*/";
    assert !Safe(bucket, ["*/"][0]);
    UnsafeNeverEmpties(bucket, ["*/"], n);
  }
}
