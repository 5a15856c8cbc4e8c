/** The scan-large-files handler (electron/main.js:951-1110): a depth-bounded,
    result-bounded walk of the main folders of drive C that reports large
    files and large "terminal" folders, each with its delete recommendation,
    and then sorts the hits by size. */
module LargeScan {
  import opened Text
  import opened Seqs
  import opened FileTree
  import opened Classify

  /** One reported item (its modification time is not modelled). */
  datatype Hit = Hit(path: string, name: string, size: nat, isDirectory: bool, recommendation: Recommendation)

  /** The options object as the renderer passes it; None is a missing field. */
  datatype ScanOptions = ScanOptions(minSize: Option<nat>, excludeDirs: Option<seq<string>>, maxResults: Option<nat>)

  /** The walk's settings: the thresholds after defaulting, and the
      classifier it attaches to every hit (getDeleteRecommendation). */
  datatype Config = Config(
    minSize: nat, excludeDirs: seq<string>, maxResults: nat, recommend: string -> Recommendation)

  const MIB: nat := 1024 * 1024
  const DEFAULT_MIN_SIZE: nat := 100 * MIB
  const DEFAULT_MAX_RESULTS: nat := 200
  const MAX_DEPTH: nat := 20

  /** `options.x || default`: a missing field and a zero both take the default. */
  function ConfigOf(o: ScanOptions): (c: Config)
    ensures c.minSize > 0 && c.maxResults > 0
    ensures o.minSize.Some? && o.minSize.value > 0 ==> c.minSize == o.minSize.value
    ensures o.maxResults.Some? && o.maxResults.value > 0 ==> c.maxResults == o.maxResults.value
    ensures !(o.minSize.Some? && o.minSize.value > 0) ==> c.minSize == DEFAULT_MIN_SIZE
    ensures !(o.maxResults.Some? && o.maxResults.value > 0) ==> c.maxResults == DEFAULT_MAX_RESULTS
    ensures c.excludeDirs == if o.excludeDirs.Some? then o.excludeDirs.value else []
    ensures c.recommend == Recommend
  {
    Config(
      if o.minSize.Some? && o.minSize.value > 0 then o.minSize.value else DEFAULT_MIN_SIZE,
      if o.excludeDirs.Some? then o.excludeDirs.value else [],
      if o.maxResults.Some? && o.maxResults.value > 0 then o.maxResults.value else DEFAULT_MAX_RESULTS,
      Recommend)
  }

  /** Protected folders the walk never enters (compared exactly). */
  const SKIP_DIRS: seq<string> :=
    ["$Recycle.Bin", "System Volume Information", "$WinREAgent", "Recovery", "Config.Msi", "Windows Defender"]

  /** Folder names reported as a whole and never entered (case-insensitive). */
  const TERMINAL_NAMES: seq<string> :=
    ["node_modules", "cache", ".cache", "__pycache__", ".git", "temp", "logs",
     "crashdumps", "npm-cache", "huggingface", "torch", ".nuget", "installer", "uv"]

  /** Where the walk starts, in order. */
  const ROOT_DIRS: seq<string> :=
    ["C:\\Users", "C:\\ProgramData", "C:\\Program Files", "C:\\Program Files (x86)",
     "C:\\Windows\\Temp", "C:\\Windows\\SoftwareDistribution"]

  predicate IsTerminal(name: string) { Lower(name) in TERMINAL_NAMES }

  /** Some non-empty exclude entry occurs in the lowered path. */
  predicate Excluded(excludes: seq<string>, dirPath: string)
  {
    exists k :: 0 <= k < |excludes| && excludes[k] != "" && Contains(Lower(dirPath), Lower(excludes[k]))
  }

  /** The walk does not look inside this directory at all. */
  predicate PrunedAt(cfg: Config, dirPath: string, depth: nat)
  {
    depth > MAX_DEPTH || Excluded(cfg.excludeDirs, dirPath) || BaseName(dirPath) in SKIP_DIRS
  }

  function SizeKey(h: Hit): int { h.size }

  // ---------------------------------------------------------------------
  // Specification: the hits of a walk that is neither cancelled nor cut off.

  /** Hits of scanDir(dirPath, depth) on the tree `e` found at dirPath. */
  function DirHits(cfg: Config, dirPath: string, e: Entry, depth: nat): seq<Hit>
    decreases e, 1
  {
    if PrunedAt(cfg, dirPath, depth) then []
    else if e.Dir? && e.listable then EntriesHits(cfg, dirPath, e.children, depth)
    else []
  }

  /** Hits of the loop over a directory's entries, in readdir order. */
  function EntriesHits(cfg: Config, dirPath: string, cs: seq<Entry>, depth: nat): seq<Hit>
    decreases cs, 0
  {
    if cs == [] then []
    else EntriesHits(cfg, dirPath, cs[..|cs| - 1], depth) + EntryHits(cfg, dirPath, cs[|cs| - 1], depth)
  }

  /** Hits contributed by one entry of the directory at dirPath. */
  function EntryHits(cfg: Config, dirPath: string, c: Entry, depth: nat): seq<Hit>
    decreases c, 2
  {
    var full := Join(dirPath, c.name);
    match c
    case File(name, sz, _) =>
      if sz.Some? && sz.value >= cfg.minSize then [Hit(full, name, sz.value, false, cfg.recommend(full))] else []
    case Dir(name, _, _) =>
      if IsTerminal(name) then
        (if DirSize(c) >= cfg.minSize then [Hit(full, name, DirSize(c), true, cfg.recommend(full))] else [])
      else DirHits(cfg, full, c, depth + 1)
    case Other(_) => []
  }

  /** Hits of the walk over the first k roots that exist. */
  function RootsHits(cfg: Config, fs: map<string, Entry>, k: nat): seq<Hit>
    requires k <= |ROOT_DIRS|
  {
    if k == 0 then []
    else
      var root := ROOT_DIRS[k - 1];
      RootsHits(cfg, fs, k - 1) + (if root in fs then DirHits(cfg, root, fs[root], 0) else [])
  }

  lemma {:induction false} EntriesHitsPrefix(cfg: Config, dirPath: string, cs: seq<Entry>, depth: nat, i: nat, j: nat)
    requires i <= j <= |cs|
    ensures EntriesHits(cfg, dirPath, cs[..i], depth) <= EntriesHits(cfg, dirPath, cs[..j], depth)
    decreases j - i
  {
    if i < j {
      EntriesHitsPrefix(cfg, dirPath, cs, depth, i, j - 1);
      assert cs[..j][..j - 1] == cs[..j - 1];
    }
  }

  lemma {:induction false} RootsHitsPrefix(cfg: Config, fs: map<string, Entry>, i: nat, j: nat)
    requires i <= j <= |ROOT_DIRS|
    ensures RootsHits(cfg, fs, i) <= RootsHits(cfg, fs, j)
    decreases j - i
  {
    if i < j {
      RootsHitsPrefix(cfg, fs, i, j - 1);
    }
  }

  /** Appending a prefix of `step` to a complete prefix of the walk. */
  lemma PrefixStep(r0: seq<Hit>, done: seq<Hit>, step: seq<Hit>, before: seq<Hit>, after: seq<Hit>)
    requires before == r0 + done
    requires before <= after && after <= before + step
    ensures r0 <= after && after <= r0 + (done + step)
    ensures after == before + step ==> after == r0 + (done + step)
  {
    assert before + step == r0 + (done + step);
  }

  // ---------------------------------------------------------------------
  // Properties of the hits.

  /** What every emitted hit satisfies: it reaches the size threshold and
      carries the recommendation of its own path. */
  predicate GoodHit(cfg: Config, h: Hit)
  {
    h.size >= cfg.minSize && h.recommendation == cfg.recommend(h.path)
  }

  lemma {:induction false} DirHitsGood(cfg: Config, dirPath: string, e: Entry, depth: nat)
    ensures forall h :: h in DirHits(cfg, dirPath, e, depth) ==> GoodHit(cfg, h)
    decreases e, 1
  {
    if !PrunedAt(cfg, dirPath, depth) && e.Dir? && e.listable {
      EntriesHitsGood(cfg, dirPath, e.children, depth);
    }
  }

  lemma {:induction false} EntriesHitsGood(cfg: Config, dirPath: string, cs: seq<Entry>, depth: nat)
    ensures forall h :: h in EntriesHits(cfg, dirPath, cs, depth) ==> GoodHit(cfg, h)
    decreases cs, 0
  {
    if cs != [] {
      EntriesHitsGood(cfg, dirPath, cs[..|cs| - 1], depth);
      EntryHitsGood(cfg, dirPath, cs[|cs| - 1], depth);
    }
  }

  lemma {:induction false} EntryHitsGood(cfg: Config, dirPath: string, c: Entry, depth: nat)
    ensures forall h :: h in EntryHits(cfg, dirPath, c, depth) ==> GoodHit(cfg, h)
    decreases c, 2
  {
    if c.Dir? && !IsTerminal(c.name) {
      DirHitsGood(cfg, Join(dirPath, c.name), c, depth + 1);
    }
  }

  lemma {:induction false} RootsHitsGood(cfg: Config, fs: map<string, Entry>, k: nat)
    requires k <= |ROOT_DIRS|
    ensures forall h :: h in RootsHits(cfg, fs, k) ==> GoodHit(cfg, h)
  {
    if k > 0 {
      RootsHitsGood(cfg, fs, k - 1);
      if ROOT_DIRS[k - 1] in fs {
        DirHitsGood(cfg, ROOT_DIRS[k - 1], fs[ROOT_DIRS[k - 1]], 0);
      }
    }
  }

  /** A terminal folder yields at most one hit, a directory hit sized by
      getDirSizeExact, whatever lies inside it: it is never descended. */
  lemma TerminalFolderHit(cfg: Config, dirPath: string, c: Entry, depth: nat)
    requires c.Dir? && IsTerminal(c.name)
    ensures |EntryHits(cfg, dirPath, c, depth)| <= 1
    ensures forall h :: h in EntryHits(cfg, dirPath, c, depth) ==>
      h.isDirectory && h.size == DirSize(c) && h.path == Join(dirPath, c.name)
  {
  }

  /** What a terminal folder contributes depends on its name and its total
      size alone, not on its contents. */
  lemma TerminalFolderNotDescended(cfg: Config, dirPath: string, c: Entry, c': Entry, depth: nat)
    requires c.Dir? && c'.Dir? && IsTerminal(c.name) && c'.name == c.name && DirSize(c') == DirSize(c)
    ensures EntryHits(cfg, dirPath, c', depth) == EntryHits(cfg, dirPath, c, depth)
  {
  }

  /** A protected folder met during the walk (it is not a terminal name)
      contributes nothing, however large its contents. */
  lemma SkippedFolderYieldsNothing(cfg: Config, dirPath: string, c: Entry, depth: nat)
    requires c.Dir? && c.name in SKIP_DIRS
    ensures EntryHits(cfg, dirPath, c, depth) == []
  {
    var k :| 0 <= k < |SKIP_DIRS| && SKIP_DIRS[k] == c.name;
    SkipNamesNotTerminal(k);
    SkipNamesNoSep(k);
    BaseNameOfJoin(dirPath, c.name);
    assert PrunedAt(cfg, Join(dirPath, c.name), depth + 1);
  }

  lemma SkipNamesNoSep(k: nat)
    requires k < |SKIP_DIRS|
    ensures SKIP_DIRS[k] != [] && NoSep(SKIP_DIRS[k])
  {
  }

  lemma SkipNamesNotTerminal(k: nat)
    requires k < |SKIP_DIRS|
    ensures Lower(SKIP_DIRS[k]) !in TERMINAL_NAMES
  {
    var n := SKIP_DIRS[k];
    var l := Lower(n);
    assert |l| == |n|;
    if k == 0 { assert l[0] == '$'; }
    else if k == 1 { assert |l| == 25; }
    else if k == 2 { assert l[0] == '$'; }
    else if k == 3 { assert |l| == 8 && l[0] == 'r'; }
    else if k == 4 { assert |l| == 10 && l[1] == 'o'; }
    else { assert |l| == 16; }
  }

  /** A directory deeper than 20 levels, under an exclude entry, or with a
      protected name is not read at all. */
  lemma PrunedDirYieldsNothing(cfg: Config, dirPath: string, e: Entry, depth: nat)
    requires depth > MAX_DEPTH || Excluded(cfg.excludeDirs, dirPath) || BaseName(dirPath) in SKIP_DIRS
    ensures DirHits(cfg, dirPath, e, depth) == []
  {
  }

  // ---------------------------------------------------------------------
  // The walk itself.

  /** The state the handler's closures share: the result list, the entry
      counter and the cancel flag. `requests(n)` tells whether a cancel
      request has arrived by the n-th time the flag is read. */
  class ScanSession {
    const cfg: Config
    const requests: nat -> bool
    var results: seq<Hit>
    var scannedCount: nat
    var cancelled: bool
    var polls: nat

    constructor (cfg: Config, requests: nat -> bool)
      ensures this.cfg == cfg && this.requests == requests
      ensures results == [] && scannedCount == 0 && !cancelled && polls == 0
    {
      this.cfg := cfg;
      this.requests := requests;
      results := [];
      scannedCount := 0;
      cancelled := false;
      polls := 0;
    }

    /** Reads the cancel flag; once set it stays set. */
    method Poll() returns (c: bool)
      modifies this`cancelled, this`polls
      ensures cancelled == (old(cancelled) || requests(old(polls)))
      ensures polls == old(polls) + 1 && c == cancelled
    {
      cancelled := cancelled || requests(polls);
      polls := polls + 1;
      c := cancelled;
    }

    /** scanDir(dirPath, depth) over the tree `e` found at dirPath. What it
        appends is always a prefix of DirHits, and all of it unless the walk
        was cancelled or the result list is full. */
    method ScanDir(dirPath: string, e: Entry, depth: nat)
      requires |results| <= cfg.maxResults
      modifies this`results, this`scannedCount, this`cancelled, this`polls
      ensures |results| <= cfg.maxResults
      ensures old(results) <= results
      ensures results <= old(results) + DirHits(cfg, dirPath, e, depth)
      ensures results == old(results) + DirHits(cfg, dirPath, e, depth) || cancelled || |results| == cfg.maxResults
      ensures old(cancelled) ==> cancelled
      ensures scannedCount >= old(scannedCount)
      decreases e, 1
    {
      if depth > MAX_DEPTH { return; }
      if |results| >= cfg.maxResults { return; }
      var c := Poll();
      if c { return; }
      var ex := ExcludedBy(dirPath, cfg.excludeDirs);
      if ex { return; }
      if BaseName(dirPath) in SKIP_DIRS { return; }
      if !(e.Dir? && e.listable) { return; }
      var cs := e.children;
      ghost var hits := EntriesHits(cfg, dirPath, cs, depth);
      assert DirHits(cfg, dirPath, e, depth) == hits;
      var i := 0;
      while i < |cs|
        invariant 0 <= i <= |cs|
        invariant |results| <= cfg.maxResults
        invariant old(results) <= results
        invariant results <= old(results) + EntriesHits(cfg, dirPath, cs[..i], depth)
        invariant results == old(results) + EntriesHits(cfg, dirPath, cs[..i], depth) || cancelled || |results| == cfg.maxResults
        invariant old(cancelled) ==> cancelled
        invariant scannedCount >= old(scannedCount)
      {
        EntriesHitsPrefix(cfg, dirPath, cs, depth, i, |cs|);
        assert cs[..|cs|] == cs;
        if |results| >= cfg.maxResults { return; }
        c := Poll();
        if c { return; }
        scannedCount := scannedCount + 1;
        ghost var before := results;
        ghost var done := EntriesHits(cfg, dirPath, cs[..i], depth);
        assert before == old(results) + done;
        VisitEntry(dirPath, cs[i], depth);
        ghost var step := EntryHits(cfg, dirPath, cs[i], depth);
        assert EntriesHits(cfg, dirPath, cs[..i + 1], depth) == done + step by {
          assert cs[..i + 1][..i] == cs[..i];
        }
        PrefixStep(old(results), done, step, before, results);
        i := i + 1;
      }
      assert cs[..i] == cs;
    }

    /** The body of scanDir's loop for one entry `c` of the directory at
        dirPath: a large file is reported, a terminal folder is measured and
        reported as a whole, any other folder is walked one level deeper. */
    method VisitEntry(dirPath: string, c: Entry, depth: nat)
      requires |results| < cfg.maxResults
      modifies this`results, this`scannedCount, this`cancelled, this`polls
      ensures |results| <= cfg.maxResults
      ensures old(results) <= results
      ensures results <= old(results) + EntryHits(cfg, dirPath, c, depth)
      ensures results == old(results) + EntryHits(cfg, dirPath, c, depth) || cancelled || |results| == cfg.maxResults
      ensures old(cancelled) ==> cancelled
      ensures scannedCount >= old(scannedCount)
      decreases c, 2
    {
      var full := Join(dirPath, c.name);
      match c {
        case File(name, sz, _) =>
          if sz.Some? && sz.value >= cfg.minSize {
            results := results + [Hit(full, name, sz.value, false, cfg.recommend(full))];
          }
        case Dir(name, _, _) =>
          if IsTerminal(name) {
            var size := DirSize(c);
            if size >= cfg.minSize {
              results := results + [Hit(full, name, size, true, cfg.recommend(full))];
            }
          } else {
            ScanDir(full, c, depth + 1);
          }
        case Other(_) =>
      }
    }
    /** One turn of the loop over the root folders: poll for a cancel,
        then walk root k when it exists; `full` when the list filled up. */
    method WalkRoot(fs: map<string, Entry>, k: nat) returns (c: bool, full: bool)
      requires k < |ROOT_DIRS|
      requires |results| <= cfg.maxResults && results <= RootsHits(cfg, fs, k)
      requires results == RootsHits(cfg, fs, k) || cancelled || |results| == cfg.maxResults
      modifies this`results, this`scannedCount, this`cancelled, this`polls
      ensures c ==> cancelled && results == old(results)
      ensures !c ==> |results| <= cfg.maxResults && results <= RootsHits(cfg, fs, k + 1)
      ensures !c ==> results == RootsHits(cfg, fs, k + 1) || cancelled || |results| == cfg.maxResults
      ensures full ==> |results| == cfg.maxResults
    {
      full := false;
      c := Poll();
      if c { return; }
      var root := ROOT_DIRS[k];
      ghost var before := results;
      if root in fs {
        ScanDir(root, fs[root], 0);
        if before == RootsHits(cfg, fs, k) {
          PrefixStep([], RootsHits(cfg, fs, k), DirHits(cfg, root, fs[root], 0), before, results);
        } else {
          assert |before| == cfg.maxResults;
          assert results == before;
        }
        full := |results| >= cfg.maxResults;
      } else {
        assert RootsHits(cfg, fs, k + 1) == RootsHits(cfg, fs, k) + [];
      }
    }

    /** The loop over the root folders: each existing root is walked in
        turn until the walk is cancelled or the result list is full. */
    method WalkRoots(fs: map<string, Entry>)
      requires results == []
      modifies this`results, this`scannedCount, this`cancelled, this`polls
      ensures |results| <= cfg.maxResults
      ensures results <= RootsHits(cfg, fs, |ROOT_DIRS|)
      ensures results == RootsHits(cfg, fs, |ROOT_DIRS|) || cancelled || |results| == cfg.maxResults
    {
      var k, n := 0, |ROOT_DIRS|;
      while k < n
        invariant 0 <= k <= n
        invariant |results| <= cfg.maxResults
        invariant results <= RootsHits(cfg, fs, k)
        invariant results == RootsHits(cfg, fs, k) || cancelled || |results| == cfg.maxResults
      {
        var c, full := WalkRoot(fs, k);
        if c { break; }
        k := k + 1;
        if full { break; }
      }
      RootsHitsPrefix(cfg, fs, k, n);
    }
  }

  /** The exclude check at the top of scanDir. */
  method ExcludedBy(dirPath: string, excludes: seq<string>) returns (b: bool)
    ensures b == Excluded(excludes, dirPath)
  {
    var low := Lower(dirPath);
    var k := 0;
    while k < |excludes|
      invariant 0 <= k <= |excludes|
      invariant forall j :: 0 <= j < k ==> !(excludes[j] != "" && Contains(low, Lower(excludes[j])))
    {
      if excludes[k] != "" && Contains(low, Lower(excludes[k])) {
        return true;
      }
      k := k + 1;
    }
    return false;
  }

  /** What the handler returns. totalSize is absent on cancellation. */
  datatype ScanResponse = ScanResponse(
    success: bool, cancelled: bool, results: seq<Hit>, scannedCount: nat, totalSize: Option<int>)

  /** The scan-large-files handler over the filesystem `fs` (each existing root
      folder mapped to its tree). */
  method ScanLargeFiles(fs: map<string, Entry>, options: ScanOptions, requests: nat -> bool)
    returns (r: ScanResponse)
    ensures r.cancelled <==> !r.success
    ensures r.cancelled ==> r.results == [] && r.totalSize == None
    ensures r.success ==> SortedDesc(r.results, SizeKey)
    ensures r.success ==> |r.results| <= ConfigOf(options).maxResults
    ensures r.success ==> r.totalSize == Some(Sum(r.results, SizeKey))
    ensures r.success ==>
      exists n :: 0 <= n <= |RootsHits(ConfigOf(options), fs, |ROOT_DIRS|)| &&
        multiset(r.results) == multiset(RootsHits(ConfigOf(options), fs, |ROOT_DIRS|)[..n]) &&
        (n == |RootsHits(ConfigOf(options), fs, |ROOT_DIRS|)| || |r.results| == ConfigOf(options).maxResults)
    ensures r.success ==> forall h :: h in r.results ==> GoodHit(ConfigOf(options), h)
  {
    var cfg := ConfigOf(options);
    var s := new ScanSession(cfg, requests);
    s.WalkRoots(fs);
    var found := s.results;
    var sorted := SortDesc(found, SizeKey);
    var c := s.Poll();
    if c {
      return ScanResponse(false, true, [], s.scannedCount, None);
    }
    ResultsShape(cfg, fs, found);
    var kept := sorted[..if |sorted| <= cfg.maxResults then |sorted| else cfg.maxResults];
    assert kept == sorted;
    return ScanResponse(true, false, kept, s.scannedCount, Some(Sum(sorted, SizeKey)));
  }

  /** What the sorted results of a walk that was not cancelled satisfy. */
  lemma ResultsShape(cfg: Config, fs: map<string, Entry>, found: seq<Hit>)
    requires |found| <= cfg.maxResults
    requires found <= RootsHits(cfg, fs, |ROOT_DIRS|)
    requires found == RootsHits(cfg, fs, |ROOT_DIRS|) || |found| == cfg.maxResults
    ensures SortedDesc(SortDesc(found, SizeKey), SizeKey)
    ensures |SortDesc(found, SizeKey)| <= cfg.maxResults
    ensures
      exists n :: 0 <= n <= |RootsHits(cfg, fs, |ROOT_DIRS|)| &&
        multiset(SortDesc(found, SizeKey)) == multiset(RootsHits(cfg, fs, |ROOT_DIRS|)[..n]) &&
        (n == |RootsHits(cfg, fs, |ROOT_DIRS|)| || |SortDesc(found, SizeKey)| == cfg.maxResults)
    ensures forall h :: h in SortDesc(found, SizeKey) ==> GoodHit(cfg, h)
  {
    var all := RootsHits(cfg, fs, |ROOT_DIRS|);
    var sorted := SortDesc(found, SizeKey);
    SortDescProps(found, SizeKey);
    assert found == all[..|found|];
    RootsHitsGood(cfg, fs, |ROOT_DIRS|);
    forall h | h in sorted ensures GoodHit(cfg, h) {
      assert h in multiset(sorted);
      assert h in multiset(found);
      assert h in all;
    }
  }
}
