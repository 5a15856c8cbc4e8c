/** The scan-c-drive handler (electron/main.js:480-614): for each of five
    top-level folders of drive C, the sizes of its first fifteen eligible
    subfolders, where a subfolder above 1 GiB is "exploded" into its large
    grandchildren plus a remainder bucket. */
module Overview {
  import opened Text
  import opened Seqs
  import opened FileTree

  /** One child of a top-level node: a subfolder, a promoted grandchild or
      a remainder bucket. */
  datatype Slice = Slice(name: string, value: int, path: string)

  /** One top-level folder as the overview chart shows it. */
  datatype TopNode = TopNode(name: string, value: int, path: string, children: seq<Slice>)

  /** A folder the handler looks at, with the value shown when nothing in it
      could be measured. */
  datatype TopDir = TopDir(path: string, name: string, default: nat)

  datatype OverviewResponse = Cancelled | Completed(results: seq<TopNode>)

  const MIB: nat := 1024 * 1024
  /** A subfolder is shown only above this size... */
  const INCLUDE_MIN: nat := 10 * MIB
  /** ...exploded above this one... */
  const EXPLODE_MIN: nat := 1024 * MIB
  /** ...and a grandchild is promoted above this one. */
  const PROMOTE_MIN: nat := 100 * MIB
  /** How many eligible subfolders are examined, in enumeration order. */
  const MAX_SUBS: nat := 15

  const TOP_DIRS: seq<TopDir> := [
    TopDir("C:\\Users", "Users", 50_000_000_000),
    TopDir("C:\\Windows", "Windows", 25_000_000_000),
    TopDir("C:\\Program Files", "Program Files", 15_000_000_000),
    TopDir("C:\\Program Files (x86)", "Program Files (x86)", 10_000_000_000),
    TopDir("C:\\ProgramData", "ProgramData", 5_000_000_000)]

  /** Appended to a subfolder's name for its remainder bucket: " (other)". */
  const OTHER_SUFFIX: string := " (\U{5176}\U{4ED6})"

  predicate IsDirEntry(c: Entry) { c.Dir? }

  /** A subfolder that is examined at all: not `$`-prefixed and not the
      volume information folder. */
  predicate IsEligible(c: Entry)
  {
    !StartsWith(c.name, "$") && c.name != "System Volume Information"
  }

  /** A grandchild that is shown on its own. */
  predicate Promotable(g: Entry)
  {
    g.name != "AppData" && !StartsWith(g.name, ".") && DirSize(g) > PROMOTE_MIN
  }

  function SliceKey(s: Slice): int { s.value }

  function NodeKey(n: TopNode): int { n.value }

  function SliceTotal(s: seq<Slice>): int { Sum(s, SliceKey) }

  // ---------------------------------------------------------------------
  // Specification.

  /** The first fifteen eligible subfolders of a directory's entries. */
  function Targets(cs: seq<Entry>): (ts: seq<Entry>)
  {
    var subs := Filter(Filter(cs, IsDirEntry), IsEligible);
    subs[..if |subs| <= MAX_SUBS then |subs| else MAX_SUBS]
  }

  /** The promoted grandchildren among `gs`, in order, named `sub/grand`. */
  function Promoted(subName: string, subPath: string, gs: seq<Entry>): seq<Slice>
  {
    if gs == [] then []
    else
      var g := gs[|gs| - 1];
      Promoted(subName, subPath, gs[..|gs| - 1]) +
      (if Promotable(g) then [Slice(subName + "/" + g.name, DirSize(g), Join(subPath, g.name))] else [])
  }

  /** What an exploded subfolder contributes: its promoted grandchildren and,
      when more than 10 MiB is left over, a remainder bucket. */
  function Exploded(subPath: string, sub: Entry): seq<Slice>
    requires sub.Dir?
  {
    var ps := Promoted(sub.name, subPath, Filter(sub.children, IsDirEntry));
    var remaining := DirSize(sub) - SliceTotal(ps);
    ps + (if remaining > INCLUDE_MIN then [Slice(sub.name + OTHER_SUFFIX, remaining, subPath)] else [])
  }

  /** What one examined subfolder contributes to the chart. A folder whose
      listing fails is shown whole (the caught readdir error). */
  function SubSlices(subPath: string, sub: Entry): seq<Slice>
    requires sub.Dir?
  {
    var size := DirSize(sub);
    if size <= INCLUDE_MIN then []
    else if size > EXPLODE_MIN && sub.listable then Exploded(subPath, sub)
    else [Slice(sub.name, size, subPath)]
  }

  /** What one examined subfolder adds to its parent's total. */
  function SubTotal(sub: Entry): int
  {
    if DirSize(sub) > INCLUDE_MIN then DirSize(sub) else 0
  }

  /** The slices of the examined subfolders `ts`, in order. */
  function AllSlices(dirPath: string, ts: seq<Entry>): seq<Slice>
    requires forall t :: t in ts ==> t.Dir?
  {
    if ts == [] then []
    else
      var t := ts[|ts| - 1];
      AllSlices(dirPath, ts[..|ts| - 1]) + SubSlices(Join(dirPath, t.name), t)
  }

  lemma TargetsAreDirs(cs: seq<Entry>)
    ensures forall t :: t in Targets(cs) ==> t.Dir? && IsEligible(t)
  {
    var subs := Filter(Filter(cs, IsDirEntry), IsEligible);
    forall t | t in Targets(cs) ensures t.Dir? && IsEligible(t) {
      assert t in subs;
    }
  }

  /** The node of the top-level folder `d`, whose listable tree is `e`. */
  function Node(d: TopDir, e: Entry): TopNode
    requires e.Dir?
  {
    var ts := Targets(e.children);
    TargetsAreDirs(e.children);
    var total := Sum(ts, SubTotal);
    TopNode(d.name, if total > 0 then total else d.default, d.path,
      SortDesc(AllSlices(d.path, ts), SliceKey))
  }

  /** A top-level folder is shown when it exists and can be listed. */
  predicate Shown(fs: map<string, Entry>, d: TopDir)
  {
    d.path in fs && fs[d.path].Dir? && fs[d.path].listable
  }

  /** The nodes of the first k top-level folders, in order. */
  function Nodes(fs: map<string, Entry>, k: nat): seq<TopNode>
    requires k <= |TOP_DIRS|
  {
    if k == 0 then []
    else
      var d := TOP_DIRS[k - 1];
      Nodes(fs, k - 1) + (if Shown(fs, d) then [Node(d, fs[d.path])] else [])
  }

  /** The overview of a scan that was not cancelled. */
  function Overview(fs: map<string, Entry>): seq<TopNode>
  {
    SortDesc(Nodes(fs, |TOP_DIRS|), NodeKey)
  }

  // ---------------------------------------------------------------------
  // Properties.

  /** Only the first fifteen eligible subfolders in enumeration order are
      examined: entries listed after them change nothing, however large. */
  lemma LaterSubsIgnored(d: TopDir, name: string, cs: seq<Entry>, more: seq<Entry>)
    requires |Filter(Filter(cs, IsDirEntry), IsEligible)| >= MAX_SUBS
    ensures Node(d, Dir(name, true, cs + more)) == Node(d, Dir(name, true, cs))
  {
    FilterAppend(cs, more, IsDirEntry);
    FilterAppend(Filter(cs, IsDirEntry), Filter(more, IsDirEntry), IsEligible);
    var a := Filter(Filter(cs, IsDirEntry), IsEligible);
    var b := Filter(Filter(more, IsDirEntry), IsEligible);
    assert (a + b)[..MAX_SUBS] == a[..MAX_SUBS];
    assert Targets(cs + more) == Targets(cs);
  }

  /** A subfolder shows up in the chart exactly when it exceeds 10 MiB. */
  lemma SubShownIff(subPath: string, sub: Entry)
    requires sub.Dir?
    ensures SubSlices(subPath, sub) != [] <==> DirSize(sub) > INCLUDE_MIN
  {
    var size := DirSize(sub);
    if size > EXPLODE_MIN {
      var ps := Promoted(sub.name, subPath, Filter(sub.children, IsDirEntry));
      if ps == [] {
        assert SliceTotal(ps) == 0;
        assert |Exploded(subPath, sub)| == 1;
      }
    }
  }

  /** The promoted grandchildren of a directory never add up to more than the
      directory itself. */
  lemma {:induction false} PromotedWithin(subName: string, subPath: string, cs: seq<Entry>)
    ensures 0 <= SliceTotal(Promoted(subName, subPath, Filter(cs, IsDirEntry))) <= ChildrenSize(cs)
  {
    if cs != [] {
      var c := cs[|cs| - 1];
      var init := cs[..|cs| - 1];
      PromotedWithin(subName, subPath, init);
      var f := Filter(init, IsDirEntry);
      var all := Filter(cs, IsDirEntry);
      assert cs == init + [c];
      ChildrenSizeSnoc(init, c);
      assert all == f + (if c.Dir? then [c] else []);
      if c.Dir? {
        assert (f + [c])[..|f|] == f;
        var piece := if Promotable(c) then [Slice(subName + "/" + c.name, DirSize(c), Join(subPath, c.name))] else [];
        assert Promoted(subName, subPath, all) == Promoted(subName, subPath, f) + piece;
        SumAppend(Promoted(subName, subPath, f), piece, SliceKey);
        assert 0 <= SliceTotal(piece) <= DirSize(c) by {
          if piece != [] {
            assert piece[..0] == [];
          }
        }
        assert SliceTotal(Promoted(subName, subPath, all)) ==
          SliceTotal(Promoted(subName, subPath, f)) + SliceTotal(piece);
        assert Contribution(c) == DirSize(c);
      } else {
        assert all == f;
      }
    }
  }

  /** Exploding keeps the subfolder's size: the slices never exceed it and lose
      at most 10 MiB (a remainder too small to show); when the remainder is
      shown they add up to it exactly. */
  lemma ExplodedConserves(subPath: string, sub: Entry)
    requires sub.Dir? && sub.listable
    ensures DirSize(sub) - INCLUDE_MIN <= SliceTotal(Exploded(subPath, sub)) <= DirSize(sub)
    ensures var ps := Promoted(sub.name, subPath, Filter(sub.children, IsDirEntry));
      DirSize(sub) - SliceTotal(ps) > INCLUDE_MIN ==> SliceTotal(Exploded(subPath, sub)) == DirSize(sub)
  {
    var ps := Promoted(sub.name, subPath, Filter(sub.children, IsDirEntry));
    PromotedWithin(sub.name, subPath, sub.children);
    var remaining := DirSize(sub) - SliceTotal(ps);
    var rest := if remaining > INCLUDE_MIN then [Slice(sub.name + OTHER_SUFFIX, remaining, subPath)] else [];
    SumAppend(ps, rest, SliceKey);
  }

  /** Every promoted grandchild is larger than 100 MiB and sits directly
      under its subfolder. */
  lemma {:induction false} PromotedLarge(subName: string, subPath: string, gs: seq<Entry>)
    ensures forall s :: s in Promoted(subName, subPath, gs) ==>
      s.value > PROMOTE_MIN && exists g :: g in gs && s.path == Join(subPath, g.name)
  {
    if gs != [] {
      PromotedLarge(subName, subPath, gs[..|gs| - 1]);
      assert forall g :: g in gs[..|gs| - 1] ==> g in gs;
    }
  }

  /** Every slice a subfolder contributes is larger than 10 MiB. */
  lemma SubSlicesLarge(subPath: string, sub: Entry)
    requires sub.Dir?
    ensures forall s :: s in SubSlices(subPath, sub) ==> s.value > INCLUDE_MIN
  {
    PromotedLarge(sub.name, subPath, Filter(sub.children, IsDirEntry));
  }

  /** What the slices of one subfolder add up to, against what the subfolder
      adds to its parent's total. */
  lemma SubSlicesWithin(subPath: string, sub: Entry)
    requires sub.Dir?
    ensures SubTotal(sub) - INCLUDE_MIN <= SliceTotal(SubSlices(subPath, sub)) <= SubTotal(sub)
  {
    var size := DirSize(sub);
    if size <= INCLUDE_MIN {
    } else if size > EXPLODE_MIN && sub.listable {
      ExplodedConserves(subPath, sub);
    } else {
      var sl := Slice(sub.name, size, subPath);
      assert SubSlices(subPath, sub) == [sl];
      assert [sl][..0] == [];
      assert Sum([sl], SliceKey) == Sum([], SliceKey) + SliceKey(sl);
    }
  }

  /** The chart never shows more than the parent's total, and loses at most
      10 MiB per examined subfolder. */
  lemma {:induction false} AllSlicesWithin(dirPath: string, ts: seq<Entry>)
    requires forall t :: t in ts ==> t.Dir?
    ensures Sum(ts, SubTotal) - INCLUDE_MIN * |ts| <= SliceTotal(AllSlices(dirPath, ts)) <= Sum(ts, SubTotal)
  {
    if ts != [] {
      var t := ts[|ts| - 1];
      assert forall x :: x in ts[..|ts| - 1] ==> x in ts;
      AllSlicesWithin(dirPath, ts[..|ts| - 1]);
      SubSlicesWithin(Join(dirPath, t.name), t);
      SumAppend(AllSlices(dirPath, ts[..|ts| - 1]), SubSlices(Join(dirPath, t.name), t), SliceKey);
    }
  }

  /** Every slice of the chart is larger than 10 MiB. */
  lemma {:induction false} AllSlicesLarge(dirPath: string, ts: seq<Entry>)
    requires forall t :: t in ts ==> t.Dir?
    ensures forall s :: s in AllSlices(dirPath, ts) ==> s.value > INCLUDE_MIN
  {
    if ts != [] {
      var t := ts[|ts| - 1];
      assert forall x :: x in ts[..|ts| - 1] ==> x in ts;
      AllSlicesLarge(dirPath, ts[..|ts| - 1]);
      SubSlicesLarge(Join(dirPath, t.name), t);
    }
  }

  /** A top-level node: its children are the slices of its examined
      subfolders sorted largest first, each above 10 MiB and together no
      more than its value; the value is the subfolders' total, or the
      default when nothing was large enough. */
  lemma NodeShape(d: TopDir, e: Entry)
    requires e.Dir?
    ensures var n := Node(d, e);
      var ts := Targets(e.children);
      (forall t :: t in ts ==> t.Dir?) &&
      n.name == d.name && n.path == d.path &&
      |ts| <= MAX_SUBS &&
      SortedDesc(n.children, SliceKey) &&
      multiset(n.children) == multiset(AllSlices(d.path, ts)) &&
      (forall s :: s in n.children ==> s.value > INCLUDE_MIN) &&
      (n.value == if Sum(ts, SubTotal) > 0 then Sum(ts, SubTotal) else d.default) &&
      (Sum(ts, SubTotal) > 0 ==> SliceTotal(n.children) <= n.value)
  {
    var ts := Targets(e.children);
    TargetsAreDirs(e.children);
    var all := AllSlices(d.path, ts);
    SortDescProps(all, SliceKey);
    AllSlicesLarge(d.path, ts);
    AllSlicesWithin(d.path, ts);
    SumPermutation(all, SortDesc(all, SliceKey), SliceKey);
    forall s | s in Node(d, e).children ensures s.value > INCLUDE_MIN {
      assert s in multiset(all);
    }
  }

  /** The overview lists the shown top-level folders, one node each, largest
      value first. */
  lemma OverviewShape(fs: map<string, Entry>)
    ensures SortedDesc(Overview(fs), NodeKey)
    ensures multiset(Overview(fs)) == multiset(Nodes(fs, |TOP_DIRS|))
    ensures forall n :: n in Overview(fs) ==>
      exists k :: 0 <= k < |TOP_DIRS| && Shown(fs, TOP_DIRS[k]) && n == Node(TOP_DIRS[k], fs[TOP_DIRS[k].path])
  {
    SortDescProps(Nodes(fs, |TOP_DIRS|), NodeKey);
    NodesFrom(fs, |TOP_DIRS|);
    forall n | n in Overview(fs)
      ensures exists k :: 0 <= k < |TOP_DIRS| && Shown(fs, TOP_DIRS[k]) && n == Node(TOP_DIRS[k], fs[TOP_DIRS[k].path])
    {
      assert n in multiset(Overview(fs));
      assert n in Nodes(fs, |TOP_DIRS|);
    }
  }

  lemma {:induction false} NodesFrom(fs: map<string, Entry>, m: nat)
    requires m <= |TOP_DIRS|
    ensures forall n :: n in Nodes(fs, m) ==>
      exists k :: 0 <= k < m && Shown(fs, TOP_DIRS[k]) && n == Node(TOP_DIRS[k], fs[TOP_DIRS[k].path])
  {
    if m > 0 {
      NodesFrom(fs, m - 1);
    }
  }

  // ---------------------------------------------------------------------
  // The handler itself.

  /** The handler's cancel flag (scanCDriveCancelled). `requests(n)` tells
      whether a cancel request has arrived by the n-th time it is read. */
  class OverviewScan {
    const requests: nat -> bool
    var cancelled: bool
    var polls: nat

    constructor (requests: nat -> bool)
      ensures this.requests == requests && !cancelled && polls == 0
    {
      this.requests := requests;
      cancelled := false;
      polls := 0;
    }

    /** Reads the cancel flag; once set it stays set. */
    method Poll() returns (c: bool)
      modifies this`cancelled, this`polls
      ensures cancelled == (old(cancelled) || requests(old(polls)))
      ensures polls == old(polls) + 1 && c == cancelled
    {
      cancelled := cancelled || requests(polls);
      polls := polls + 1;
      c := cancelled;
    }

    /** The explosion of one subfolder larger than 1 GiB: each grandchild
        folder is measured and the large ones are promoted; what is left is
        shown as one remainder bucket. */
    method ExplodeSub(subPath: string, sub: Entry, size: nat) returns (slices: seq<Slice>)
      requires sub.Dir? && size == DirSize(sub)
      modifies this`cancelled, this`polls
      ensures old(cancelled) ==> cancelled
      ensures cancelled ==> old(cancelled) || exists j :: requests(j)
      ensures !cancelled ==> slices == Exploded(subPath, sub)
    {
      var gs := Filter(sub.children, IsDirEntry);
      var grandTotal := 0;
      slices := [];
      var i := 0;
      while i < |gs|
        invariant 0 <= i <= |gs|
        invariant old(cancelled) ==> cancelled
        invariant cancelled ==> old(cancelled) || exists j :: requests(j)
        invariant !cancelled ==> slices == Promoted(sub.name, subPath, gs[..i]) && grandTotal == SliceTotal(slices)
      {
        var c := Poll();
        if c { break; }
        var g := gs[i];
        assert gs[..i + 1][..i] == gs[..i];
        if g.name != "AppData" && !StartsWith(g.name, ".") {
          var grandSize := DirSize(g);
          if grandSize > PROMOTE_MIN {
            var piece := Slice(sub.name + "/" + g.name, grandSize, Join(subPath, g.name));
            SumAppend(slices, [piece], SliceKey);
            assert [piece][..0] == [];
            slices := slices + [piece];
            grandTotal := grandTotal + grandSize;
          }
        }
        i := i + 1;
      }
      assert !cancelled ==> gs[..i] == gs;
      var remaining := size - grandTotal;
      if remaining > INCLUDE_MIN {
        slices := slices + [Slice(sub.name + OTHER_SUFFIX, remaining, subPath)];
      }
    }

    /** One top-level folder: its eligible subfolders are collected, the
        first fifteen measured, and the resulting slices sorted. */
    method ScanTop(d: TopDir, e: Entry) returns (node: TopNode)
      requires e.Dir?
      modifies this`cancelled, this`polls
      ensures old(cancelled) ==> cancelled
      ensures cancelled ==> old(cancelled) || exists j :: requests(j)
      ensures !cancelled ==> node == Node(d, e)
    {
      var entries := Filter(e.children, IsDirEntry);
      var subDirs := CollectSubs(entries);
      var targets := subDirs[..if |subDirs| <= MAX_SUBS then |subDirs| else MAX_SUBS];
      TargetsAreDirs(e.children);
      assert !cancelled ==> targets == Targets(e.children);
      assert forall t :: t in targets ==> t in subDirs;
      assert forall t :: t in entries ==> t.Dir?;
      var total, children := MeasureSubs(d.path, targets);
      children := SortDesc(children, SliceKey);
      node := TopNode(d.name, if total > 0 then total else d.default, d.path, children);
    }

    /** The eligible folders among `entries`, in order. */
    method CollectSubs(entries: seq<Entry>) returns (subDirs: seq<Entry>)
      modifies this`cancelled, this`polls
      ensures old(cancelled) ==> cancelled
      ensures cancelled ==> old(cancelled) || exists j :: requests(j)
      ensures forall x :: x in subDirs ==> x in entries
      ensures !cancelled ==> subDirs == Filter(entries, IsEligible)
    {
      subDirs := [];
      var i := 0;
      while i < |entries|
        invariant 0 <= i <= |entries|
        invariant old(cancelled) ==> cancelled
        invariant cancelled ==> old(cancelled) || exists j :: requests(j)
        invariant forall x :: x in subDirs ==> x in entries
        invariant !cancelled ==> subDirs == Filter(entries[..i], IsEligible)
      {
        var c := Poll();
        if c { break; }
        assert entries[..i + 1][..i] == entries[..i];
        if IsEligible(entries[i]) {
          subDirs := subDirs + [entries[i]];
        }
        i := i + 1;
      }
      assert !cancelled ==> entries[..i] == entries;
    }

    /** Measures the examined subfolders `ts` of the folder at dirPath: the
        parent's running total and the slices pushed so far. */
    method MeasureSubs(dirPath: string, ts: seq<Entry>) returns (total: int, children: seq<Slice>)
      requires forall t :: t in ts ==> t.Dir?
      modifies this`cancelled, this`polls
      ensures old(cancelled) ==> cancelled
      ensures cancelled ==> old(cancelled) || exists j :: requests(j)
      ensures !cancelled ==> total == Sum(ts, SubTotal) && children == AllSlices(dirPath, ts)
    {
      total := 0;
      children := [];
      var k := 0;
      while k < |ts|
        invariant 0 <= k <= |ts|
        invariant old(cancelled) ==> cancelled
        invariant cancelled ==> old(cancelled) || exists j :: requests(j)
        invariant !cancelled ==> total == Sum(ts[..k], SubTotal) && children == AllSlices(dirPath, ts[..k])
      {
        var c := Poll();
        if c { break; }
        var sub := ts[k];
        assert ts[..k + 1][..k] == ts[..k];
        assert sub in ts;
        var s, add := MeasureSub(Join(dirPath, sub.name), sub);
        children := children + s;
        total := total + add;
        k := k + 1;
      }
      assert !cancelled ==> ts[..k] == ts;
    }

    /** One examined subfolder: shown whole between 10 MiB and 1 GiB,
        exploded above 1 GiB, left out below. */
    method MeasureSub(subPath: string, sub: Entry) returns (slices: seq<Slice>, add: int)
      requires sub.Dir?
      modifies this`cancelled, this`polls
      ensures old(cancelled) ==> cancelled
      ensures cancelled ==> old(cancelled) || exists j :: requests(j)
      ensures add == SubTotal(sub)
      ensures !cancelled ==> slices == SubSlices(subPath, sub)
    {
      slices := [];
      add := 0;
      var size := DirSize(sub);
      if size > INCLUDE_MIN {
        var pushed := false;
        if size > EXPLODE_MIN && sub.listable {
          slices := ExplodeSub(subPath, sub, size);
          pushed := true;
        }
        if !pushed {
          slices := [Slice(sub.name, size, subPath)];
        }
        add := size;
      }
    }

    /** The loop over the five top-level folders; a folder that does not
        exist, or cannot be listed, is left out. */
    method Run(fs: map<string, Entry>) returns (r: OverviewResponse)
      modifies this`cancelled, this`polls
      ensures r.Cancelled? <==> cancelled
      ensures cancelled ==> exists j :: requests(j)
      ensures r.Completed? ==> r.results == Overview(fs)
    {
      cancelled := false;
      var results: seq<TopNode> := [];
      var k := 0;
      while k < |TOP_DIRS|
        invariant 0 <= k <= |TOP_DIRS|
        invariant cancelled ==> exists j :: requests(j)
        invariant !cancelled ==> results == Nodes(fs, k)
      {
        var c := Poll();
        if c { break; }
        var d := TOP_DIRS[k];
        if d.path in fs {
          var e := fs[d.path];
          if e.Dir? && e.listable {
            var node := ScanTop(d, e);
            results := results + [node];
          }
        }
        k := k + 1;
      }
      var c := Poll();
      if c {
        return Cancelled;
      }
      return Completed(SortDesc(results, NodeKey));
    }
  }

  /** The scan-c-drive handler: the overview, unless a cancel request
      arrived while it ran; with no request it always completes. */
  method ScanCDrive(fs: map<string, Entry>, requests: nat -> bool) returns (r: OverviewResponse)
    ensures r.Completed? ==> r.results == Overview(fs)
    ensures r.Cancelled? ==> exists j :: requests(j)
  {
    var scan := new OverviewScan(requests);
    r := scan.Run(fs);
  }
}
