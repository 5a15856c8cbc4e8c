/** The directory tree the backend reads with fs.readdirSync / fs.statSync,
    and getDirSizeExact, the exact recursive size of a directory. */
module FileTree {
  import opened Text

  /** What the recovery-zone code writes into a metadata file: the original
      location, the time of the move (opaque and comparable), and the fields
      only one of the two layouts records. */
  datatype Meta = Meta(
    originalPath: string,
    movedAt: int,
    size: Option<nat>,
    isDirectory: Option<bool>,
    itemId: Option<string>)

  /** File contents, as far as the model needs them: a parseable metadata
      document, or anything else (identified by an opaque tag). */
  datatype Content = Blob(tag: nat) | MetaDoc(meta: Meta)

  /** A directory entry. `size == None` is a file whose stat or read fails;
      `listable == false` is a directory whose readdir fails; `Other` is an
      entry that is neither a file nor a directory (a link, a device). */
  datatype Entry =
    | File(name: string, size: Option<nat>, content: Content)
    | Dir(name: string, listable: bool, children: seq<Entry>)
    | Other(name: string)

  /** getDirSizeExact(path of e) (electron/main.js:110-126): a listable
      directory sums its readable files and, recursively, its subdirectories;
      anything else (a file, an unreadable directory) measures 0. */
  function DirSize(e: Entry): nat
    decreases e, 1
  {
    if e.Dir? && e.listable then ChildrenSize(e.children) else 0
  }

  /** The loop of getDirSizeExact over one directory's entries; an entry
      whose stat fails adds nothing (the inner try/catch). */
  function ChildrenSize(cs: seq<Entry>): nat
    decreases cs, 0
  {
    if cs == [] then 0
    else
      var c := cs[|cs| - 1];
      ChildrenSize(cs[..|cs| - 1]) +
      (match c
       case File(_, sz, _) => if sz.Some? then sz.value else 0
       case Dir(_, _, _) => DirSize(c)
       case Other(_) => 0)
  }

  /** What one entry adds to its parent's size. */
  function Contribution(c: Entry): nat
  {
    match c
    case File(_, sz, _) => if sz.Some? then sz.value else 0
    case Dir(_, _, _) => DirSize(c)
    case Other(_) => 0
  }

  lemma ChildrenSizeSnoc(cs: seq<Entry>, c: Entry)
    ensures ChildrenSize(cs + [c]) == ChildrenSize(cs) + Contribution(c)
  {
    assert (cs + [c])[..|cs|] == cs;
  }

  lemma {:induction false} ChildrenSizeAppend(a: seq<Entry>, b: seq<Entry>)
    ensures ChildrenSize(a + b) == ChildrenSize(a) + ChildrenSize(b)
    decreases |b|
  {
    if b == [] {
      assert a + b == a;
    } else {
      var b' := b[..|b| - 1];
      var c := b[|b| - 1];
      assert b == b' + [c];
      assert a + b == (a + b') + [c];
      ChildrenSizeAppend(a, b');
      ChildrenSizeSnoc(a + b', c);
      ChildrenSizeSnoc(b', c);
    }
  }

  /** Reference definition: the sizes of all readable files at any depth
      below `e`, reached through listable directories only. */
  function FileSizes(e: Entry): seq<nat>
    decreases e, 1
  {
    if e.Dir? && e.listable then ChildrenFileSizes(e.children) else []
  }

  function ChildrenFileSizes(cs: seq<Entry>): seq<nat>
    decreases cs, 0
  {
    if cs == [] then []
    else
      var c := cs[|cs| - 1];
      ChildrenFileSizes(cs[..|cs| - 1]) +
      (match c
       case File(_, sz, _) => if sz.Some? then [sz.value] else []
       case Dir(_, _, _) => FileSizes(c)
       case Other(_) => [])
  }

  function SumNat(s: seq<nat>): nat
  {
    if s == [] then 0 else SumNat(s[..|s| - 1]) + s[|s| - 1]
  }

  lemma {:induction false} SumNatAppend(a: seq<nat>, b: seq<nat>)
    ensures SumNat(a + b) == SumNat(a) + SumNat(b)
    decreases |b|
  {
    if b == [] {
      assert a + b == a;
    } else {
      assert (a + b)[..|a + b| - 1] == a + b[..|b| - 1];
      SumNatAppend(a, b[..|b| - 1]);
    }
  }

  /** getDirSizeExact has no depth limit: it is the sum of the sizes of all
      readable files at every depth below the directory. */
  lemma {:induction false} DirSizeIsSumOfFiles(e: Entry)
    ensures DirSize(e) == SumNat(FileSizes(e))
    decreases e, 1
  {
    if e.Dir? && e.listable {
      ChildrenSizeIsSumOfFiles(e.children);
    }
  }

  lemma {:induction false} ChildrenSizeIsSumOfFiles(cs: seq<Entry>)
    ensures ChildrenSize(cs) == SumNat(ChildrenFileSizes(cs))
    decreases cs, 0
  {
    if cs != [] {
      var c := cs[|cs| - 1];
      ChildrenSizeIsSumOfFiles(cs[..|cs| - 1]);
      if c.Dir? {
        DirSizeIsSumOfFiles(c);
        SumNatAppend(ChildrenFileSizes(cs[..|cs| - 1]), FileSizes(c));
      } else {
        SumNatAppend(ChildrenFileSizes(cs[..|cs| - 1]),
          if c.File? && c.size.Some? then [c.size.value] else []);
      }
    }
  }

  /** The order in which readdir lists a directory does not change its size. */
  lemma {:induction false} ChildrenSizePermutation(a: seq<Entry>, b: seq<Entry>)
    requires multiset(a) == multiset(b)
    ensures ChildrenSize(a) == ChildrenSize(b)
    decreases |a|
  {
    if a == [] {
      assert |b| == |multiset(b)| == 0;
    } else {
      var x := a[|a| - 1];
      assert a == a[..|a| - 1] + [x];
      assert x in multiset(b);
      var k :| 0 <= k < |b| && b[k] == x;
      assert b == b[..k] + [x] + b[k + 1..];
      var b' := b[..k] + b[k + 1..];
      assert multiset(b) == multiset(b[..k]) + multiset{x} + multiset(b[k + 1..]);
      assert multiset(b') == multiset(b[..k]) + multiset(b[k + 1..]);
      assert multiset(a) == multiset(a[..|a| - 1]) + multiset{x};
      assert multiset(a[..|a| - 1]) == multiset(a) - multiset{x};
      assert multiset(b') == multiset(b) - multiset{x};
      ChildrenSizePermutation(a[..|a| - 1], b');
      ChildrenSizeSnoc(a[..|a| - 1], x);
      ChildrenSizeAppend(b[..k] + [x], b[k + 1..]);
      ChildrenSizeSnoc(b[..k], x);
      ChildrenSizeAppend(b[..k], b[k + 1..]);
    }
  }

  /** `after` is `before` with some entries removed at any depth: what a
      recursive delete that stops part-way can leave behind. */
  ghost predicate Pruned(after: Entry, before: Entry)
    decreases before, 1
  {
    after == before ||
    (before.Dir? && after.Dir? && after.name == before.name &&
     after.listable == before.listable &&
     PrunedSeq(after.children, before.children))
  }

  /** `xs` keeps, in order, some of the entries of `bs`, each one pruned. */
  ghost predicate PrunedSeq(xs: seq<Entry>, bs: seq<Entry>)
    decreases bs, 0
  {
    if bs == [] then xs == []
    else
      PrunedSeq(xs, bs[..|bs| - 1]) ||
      (xs != [] && Pruned(xs[|xs| - 1], bs[|bs| - 1]) &&
       PrunedSeq(xs[..|xs| - 1], bs[..|bs| - 1]))
  }

  /** Removing entries never makes a directory larger. */
  lemma {:induction false} PrunedSizeLe(after: Entry, before: Entry)
    requires Pruned(after, before)
    ensures DirSize(after) <= DirSize(before)
    decreases before, 1
  {
    if after != before {
      PrunedSeqSizeLe(after.children, before.children);
    }
  }

  lemma {:induction false} PrunedSeqSizeLe(xs: seq<Entry>, bs: seq<Entry>)
    requires PrunedSeq(xs, bs)
    ensures ChildrenSize(xs) <= ChildrenSize(bs)
    decreases bs, 0
  {
    if bs != [] {
      var b := bs[|bs| - 1];
      if PrunedSeq(xs, bs[..|bs| - 1]) {
        PrunedSeqSizeLe(xs, bs[..|bs| - 1]);
      } else {
        var a := xs[|xs| - 1];
        PrunedSeqSizeLe(xs[..|xs| - 1], bs[..|bs| - 1]);
        assert Contribution(a) <= Contribution(b) by {
          if a != b {
            PrunedSizeLe(a, b);
          }
        }
        assert xs == xs[..|xs| - 1] + [a];
        ChildrenSizeSnoc(xs[..|xs| - 1], a);
      }
    }
  }

  /** fs.statSync(fullPath).size for a file and getDirSizeExact for a
      directory, as the recovery zone measures an item; None when the stat
      itself fails. */
  function StatSize(e: Entry): Option<nat>
  {
    match e
    case File(_, sz, _) => sz
    case Dir(_, _, _) => Some(DirSize(e))
    case Other(_) => None
  }

  /** A folder in the recovery zone measures the sum of the sizes of all
      readable files at any depth below it. */
  lemma {:induction false} StatSizeSumsFiles(e: Entry)
    requires e.Dir?
    ensures StatSize(e) == Some(SumNat(FileSizes(e)))
  {
    DirSizeIsSumOfFiles(e);
  }

  /** JSON.parse(fs.readFileSync(f)) of a metadata file: succeeds only for a
      readable file holding a metadata document. */
  function ReadMeta(e: Entry): Option<Meta>
  {
    if e.File? && e.size.Some? && e.content.MetaDoc? then Some(e.content.meta) else None
  }

  /** The entry called `name` among `cs`, the first one when names repeat. */
  function ChildNamed(cs: seq<Entry>, name: string): (r: Option<Entry>)
    ensures r.Some? ==> r.value in cs && r.value.name == name
    ensures r.None? ==> forall c :: c in cs ==> c.name != name
  {
    if cs == [] then None
    else if cs[0].name == name then Some(cs[0])
    else ChildNamed(cs[1..], name)
  }

  /** The names used inside a directory are distinct. */
  ghost predicate UniqueNames(cs: seq<Entry>)
  {
    forall i, j :: 0 <= i < j < |cs| ==> cs[i].name != cs[j].name
  }

  function Or0(o: Option<nat>): nat { if o.Some? then o.value else 0 }

  /** `isDirectory ? getDirSizeExact(p) : fs.statSync(p).size`, 0 when the
      stat throws, as both the move and the delete handlers measure a path
      given by the caller. */
  function MeasuredSize(disk: map<string, Entry>, p: string, isDirectory: bool): nat
  {
    if p !in disk then 0
    else if isDirectory then DirSize(disk[p])
    else if disk[p].File? then Or0(disk[p].size)
    else 0
  }

  /** A folder the caller says is a folder measures the sum of all readable
      files below it; one the caller says is a file measures 0. */
  lemma {:induction false} MeasuredFolder(disk: map<string, Entry>, p: string)
    requires p in disk && disk[p].Dir?
    ensures MeasuredSize(disk, p, true) == SumNat(FileSizes(disk[p]))
    ensures MeasuredSize(disk, p, false) == 0
  {
    DirSizeIsSumOfFiles(disk[p]);
  }
}
