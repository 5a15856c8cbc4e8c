/** The recovery zone (electron/main.js:128-391, 1214-1268): a folder under
    the user's profile where items are moved instead of deleted, each with a
    metadata record saying where it came from, so that it can be listed,
    restored or deleted for good. Two layouts coexist: the current one keeps
    a `<name>.meta.json` sidecar next to the item, the legacy one keeps a
    `_cleanc_metadata.json` file inside a moved directory. */
module Recovery {
  import opened Text
  import opened Seqs
  import opened FileTree

  const META_SUFFIX: string := ".meta.json"
  const LEGACY_META: string := "_cleanc_metadata.json"

  /** path.join(home, 'AppData', 'Local', 'CleanC', 'RecoveryZone'). */
  function ZoneRoot(home: string): string
  {
    Join(Join(Join(Join(home, "AppData"), "Local"), "CleanC"), "RecoveryZone")
  }

  /** The filesystem as the handlers see it: items outside the zone by full
      path, and the zone folder's own entries in listing order. */
  datatype Fs = Fs(disk: map<string, Entry>, zone: seq<Entry>)

  // ---------------------------------------------------------------------
  // Entries of one directory.

  /** Writing `e` into a directory: an entry of the same name is replaced,
      otherwise `e` is added at the end. */
  function Put(cs: seq<Entry>, e: Entry): (r: seq<Entry>)
    ensures ChildNamed(r, e.name) == Some(e)
    ensures forall n :: n != e.name ==> ChildNamed(r, n) == ChildNamed(cs, n)
    ensures ChildNamed(cs, e.name).None? ==> r == cs + [e]
    ensures forall c :: c in r ==> c == e || c in cs
  {
    if cs == [] then [e]
    else if cs[0].name == e.name then
      ChildNamedCons(e, cs[1..]);
      assert forall c :: c in cs[1..] ==> c in cs;
      [e] + cs[1..]
    else
      var t := cs[1..];
      ChildNamedCons(cs[0], Put(t, e));
      assert cs == [cs[0]] + t;
      assert forall c :: c in t ==> c in cs;
      [cs[0]] + Put(t, e)
  }

  lemma ChildNamedCons(c: Entry, rest: seq<Entry>)
    ensures forall n :: ChildNamed([c] + rest, n) == if c.name == n then Some(c) else ChildNamed(rest, n)
  {
    assert ([c] + rest)[1..] == rest;
  }

  /** Unlinking the entry called `name` (the first one, the only one when
      names are distinct). */
  function Remove(cs: seq<Entry>, name: string): (r: seq<Entry>)
    ensures |r| <= |cs|
    ensures forall c :: c in r ==> c in cs
  {
    if cs == [] then []
    else if cs[0].name == name then cs[1..]
    else [cs[0]] + Remove(cs[1..], name)
  }

  lemma {:induction false} PutUnique(cs: seq<Entry>, e: Entry)
    requires UniqueNames(cs)
    ensures UniqueNames(Put(cs, e))
  {
    if cs != [] {
      var t := cs[1..];
      assert UniqueNames(t) by {
        forall i, j | 0 <= i < j < |t| ensures t[i].name != t[j].name {
          assert t[i] == cs[i + 1] && t[j] == cs[j + 1];
        }
      }
      var r := Put(cs, e);
      if cs[0].name == e.name {
        forall i, j | 0 <= i < j < |r| ensures r[i].name != r[j].name {
          assert r[j] == cs[j];
          if i > 0 {
            assert r[i] == cs[i];
          }
        }
      } else {
        PutUnique(t, e);
        forall i, j | 0 <= i < j < |r| ensures r[i].name != r[j].name {
          assert r[j] == Put(t, e)[j - 1];
          if i == 0 {
            var c := r[j];
            assert c in Put(t, e);
            if c != e {
              var k :| 0 <= k < |t| && t[k] == c;
              assert cs[k + 1] == c;
            }
          } else {
            assert r[i] == Put(t, e)[i - 1];
          }
        }
      }
    }
  }

  /** In a directory with distinct names, unlinking `name` removes exactly
      that entry. */
  lemma {:induction false} LookupRemove(cs: seq<Entry>, name: string, n: string)
    requires UniqueNames(cs)
    ensures ChildNamed(Remove(cs, name), n) == if n == name then None else ChildNamed(cs, n)
  {
    if cs != [] {
      assert UniqueNames(cs[1..]) by {
        forall i, j | 0 <= i < j < |cs[1..]| ensures cs[1..][i].name != cs[1..][j].name {
          assert cs[1..][i] == cs[i + 1] && cs[1..][j] == cs[j + 1];
        }
      }
      LookupRemove(cs[1..], name, n);
      if cs[0].name == name && n == name {
        forall c | c in cs[1..] ensures c.name != name {
          var k :| 0 <= k < |cs[1..]| && cs[1..][k] == c;
          assert cs[k + 1] == c;
        }
      }
    }
  }

  /** Adding an entry under a fresh name and unlinking it again gives back
      the directory. */
  lemma RemoveFreshPut(cs: seq<Entry>, e: Entry)
    requires ChildNamed(cs, e.name).None?
    ensures Remove(Put(cs, e), e.name) == cs
  {
    RemoveAfter(cs, [e], e.name);
  }

  lemma {:induction false} RemoveAfter(a: seq<Entry>, b: seq<Entry>, name: string)
    requires ChildNamed(a, name).None? && b != [] && b[0].name == name
    ensures Remove(a + b, name) == a + b[1..]
  {
    if a != [] {
      assert (a + b)[1..] == a[1..] + b;
      RemoveAfter(a[1..], b, name);
    }
  }

  /** An entry of the folder that no incoming entry of the same name
      overwrites. */
  function Unshadowed(incoming: seq<Entry>): Entry -> bool
  {
    (c: Entry) => ChildNamed(incoming, c.name).None?
  }

  /** Copying `incoming` into a folder that already holds `cs`: each entry
      of the same name is overwritten, the others stay. */
  function Merged(cs: seq<Entry>, incoming: seq<Entry>): (r: seq<Entry>)
    ensures forall c :: c in r <==> c in incoming || (c in cs && ChildNamed(incoming, c.name).None?)
  {
    FilterIn(cs, Unshadowed(incoming));
    Filter(cs, Unshadowed(incoming)) + incoming
  }

  /** An existing folder with `incoming` copied into it. */
  function Into(folder: Entry, incoming: seq<Entry>): (r: Entry)
    requires folder.Dir?
    ensures r.Dir? && r.name == folder.name && r.listable == folder.listable
  {
    Dir(folder.name, folder.listable, Merged(folder.children, incoming))
  }

  function Renamed(e: Entry, n: string): (r: Entry)
    ensures r.name == n
  {
    match e
    case File(_, sz, content) => File(n, sz, content)
    case Dir(_, l, cs) => Dir(n, l, cs)
    case Other(_) => Other(n)
  }

  lemma RenamedBack(e: Entry, n: string)
    ensures Renamed(Renamed(e, n), e.name) == e
    ensures DirSize(Renamed(e, n)) == DirSize(e) && StatSize(Renamed(e, n)) == StatSize(e)
  {
  }

  // ---------------------------------------------------------------------
  // moveDirectoryRecursive and the member loops that call it.

  /** What a member-by-member move leaves: the entries that reached the
      destination, those left at the source, the bytes and files moved. */
  datatype Moved = Moved(dest: seq<Entry>, left: seq<Entry>, size: nat, count: nat)

  /** moveDirectoryRecursive(src, dest) on a directory `e`: the destination is
      always created; an unlistable source moves nothing and stays; the
      source is removed once it is empty. */
  function MoveDir(e: Entry): (r: (seq<Entry>, Option<Entry>, nat, nat))
    requires e.Dir?
    ensures r.1.Some? ==> r.1.value.name == e.name
    decreases e, 1
  {
    if !e.listable then ([], Some(e), 0, 0)
    else
      var m := MoveEntries(e.children);
      (m.dest, if m.left == [] then None else Some(Dir(e.name, true, m.left)), m.size, m.count)
  }

  /** The member loop: a readable file is copied and unlinked, a folder is
      moved recursively, anything else (an unreadable file, a link) stays. */
  function MoveEntries(cs: seq<Entry>): Moved
    decreases cs, 0
  {
    if cs == [] then Moved([], [], 0, 0)
    else
      var m := MoveEntries(cs[..|cs| - 1]);
      var c := cs[|cs| - 1];
      MoveOne(m, c)
  }

  /** One member added to a running move. */
  function MoveOne(m: Moved, c: Entry): Moved
    decreases c, 2
  {
    match c
    case File(_, sz, _) =>
      if sz.Some? then Moved(m.dest + [c], m.left, m.size + sz.value, m.count + 1)
      else Moved(m.dest, m.left + [c], m.size, m.count)
    case Dir(n, _, _) =>
      var t := MoveDir(c);
      Moved(m.dest + [Dir(n, true, t.0)], m.left + (if t.1.Some? then [t.1.value] else []),
        m.size + t.2, m.count + t.3)
    case Other(_) => Moved(m.dest, m.left + [c], m.size, m.count)
  }

  lemma MoveEntriesSnoc(cs: seq<Entry>, c: Entry)
    ensures MoveEntries(cs + [c]) == MoveOne(MoveEntries(cs), c)
  {
    assert (cs + [c])[..|cs|] == cs;
  }

  /** Nothing is lost or invented: the bytes moved are what the destination
      measures, and together with what stays they are what the source
      measured; the files moved are the readable files at any depth. */
  lemma {:induction false} MoveDirConserves(e: Entry)
    requires e.Dir?
    ensures var t := MoveDir(e);
      t.2 == ChildrenSize(t.0) &&
      DirSize(e) == t.2 + (if t.1.Some? then DirSize(t.1.value) else 0) &&
      t.3 == |FileSizes(e)|
    decreases e, 1
  {
    if e.listable {
      MoveEntriesConserves(e.children);
    }
  }

  lemma {:induction false} MoveEntriesConserves(cs: seq<Entry>)
    ensures MovedMeasures(cs, MoveEntries(cs))
    decreases cs, 0
  {
    if cs != [] {
      var init := cs[..|cs| - 1];
      MoveEntriesConserves(init);
      assert cs == init + [cs[|cs| - 1]];
      MoveOneConserves(MoveEntries(init), cs[|cs| - 1], init);
    }
  }

  /** The relation MoveEntriesConserves keeps between a directory's members
      and what their move produced. */
  ghost predicate MovedMeasures(cs: seq<Entry>, m: Moved)
  {
    m.size == ChildrenSize(m.dest) &&
    ChildrenSize(cs) == m.size + ChildrenSize(m.left) &&
    m.count == |ChildrenFileSizes(cs)|
  }

  lemma {:induction false} MoveOneConserves(m: Moved, c: Entry, before: seq<Entry>)
    requires MovedMeasures(before, m)
    ensures MovedMeasures(before + [c], MoveOne(m, c))
    decreases c, 3
  {
    if c.Dir? {
      MoveOneDirConserves(m, c, before);
    } else {
      assert (before + [c])[..|before|] == before;
      ChildrenSizeSnoc(before, c);
      if c.File? && c.size.Some? {
        ChildrenSizeSnoc(m.dest, c);
      } else {
        ChildrenSizeSnoc(m.left, c);
      }
    }
  }

  /** The folder case of MoveOneConserves. */
  lemma {:induction false} MoveOneDirConserves(m: Moved, c: Entry, before: seq<Entry>)
    requires c.Dir? && MovedMeasures(before, m)
    ensures MovedMeasures(before + [c], MoveOne(m, c))
    decreases c, 2
  {
    assert (before + [c])[..|before|] == before;
    ChildrenSizeSnoc(before, c);
    MoveDirConserves(c);
    var t := MoveDir(c);
    ChildrenSizeSnoc(m.dest, Dir(c.name, true, t.0));
    var extra := if t.1.Some? then [t.1.value] else [];
    ChildrenSizeAppend(m.left, extra);
    if t.1.Some? {
      assert extra == [] + [t.1.value];
      ChildrenSizeSnoc([], t.1.value);
    }
  }

  /** Every file readable and every folder listable, with no other kind of
      entry: nothing can stay behind. */
  ghost predicate Movable(e: Entry)
    decreases e, 1
  {
    match e
    case File(_, sz, _) => sz.Some?
    case Dir(_, l, cs) => l && AllMovable(cs)
    case Other(_) => false
  }

  ghost predicate AllMovable(cs: seq<Entry>)
    decreases cs, 0
  {
    forall i :: 0 <= i < |cs| ==> Movable(cs[i])
  }

  /** A fully movable tree moves whole: the destination gets exactly the
      source's members and the source is removed. */
  lemma {:induction false} MoveDirWhole(e: Entry)
    requires e.Dir? && Movable(e)
    ensures MoveDir(e).0 == e.children && MoveDir(e).1 == None
    decreases e, 1
  {
    MoveEntriesWhole(e.children);
  }

  lemma {:induction false} MoveEntriesWhole(cs: seq<Entry>)
    requires AllMovable(cs)
    ensures MoveEntries(cs).dest == cs && MoveEntries(cs).left == []
    decreases cs, 0
  {
    if cs != [] {
      var init := cs[..|cs| - 1];
      var c := cs[|cs| - 1];
      assert Movable(c);
      assert AllMovable(init) by {
        forall i | 0 <= i < |init| ensures Movable(init[i]) {
          assert init[i] == cs[i];
        }
      }
      MoveEntriesWhole(init);
      assert cs == init + [c];
      if c.Dir? {
        MoveDirWhole(c);
      }
    }
  }

  /** moveDirectoryRecursive: the member loop, recursing into folders. */
  method MoveDirectoryRecursive(e: Entry) returns (dest: seq<Entry>, left: Option<Entry>, size: nat, count: nat)
    requires e.Dir?
    ensures (dest, left, size, count) == MoveDir(e)
    decreases e, 1
  {
    if !e.listable {
      return [], Some(e), 0, 0;
    }
    var m := MoveMembers(e.children);
    dest, size, count := m.dest, m.size, m.count;
    left := if m.left == [] then None else Some(Dir(e.name, true, m.left));
  }

  /** The loop over a directory's members shared by the move and restore
      code. */
  method MoveMembers(cs: seq<Entry>) returns (m: Moved)
    ensures m == MoveEntries(cs)
    decreases cs, 0
  {
    m := Moved([], [], 0, 0);
    var i := 0;
    while i < |cs|
      invariant 0 <= i <= |cs|
      invariant m == MoveEntries(cs[..i])
    {
      var c := cs[i];
      assert cs[..i + 1] == cs[..i] + [c];
      MoveEntriesSnoc(cs[..i], c);
      m := MoveMember(m, c);
      i := i + 1;
    }
    assert cs[..i] == cs;
  }

  /** One member of the loop: a readable file is copied and unlinked, a
      folder moved recursively, anything else skipped. */
  method MoveMember(m: Moved, c: Entry) returns (r: Moved)
    ensures r == MoveOne(m, c)
    decreases c, 2
  {
    match c {
      case File(_, sz, _) =>
        if sz.Some? {
          r := Moved(m.dest + [c], m.left, m.size + sz.value, m.count + 1);
        } else {
          r := Moved(m.dest, m.left + [c], m.size, m.count);
        }
      case Dir(n, _, _) =>
        var d, l, s, k := MoveDirectoryRecursive(c);
        r := Moved(m.dest + [Dir(n, true, d)], m.left + (if l.Some? then [l.value] else []), m.size + s, m.count + k);
      case Other(_) =>
        r := Moved(m.dest, m.left + [c], m.size, m.count);
    }
  }

  /** A member that cannot reach the entry of the same name in the folder it
      is restored into, which holds `at`: a file cannot be copied onto a
      folder, and a folder cannot be made where something else stands. */
  predicate Clashes(at: seq<Entry>, c: Entry)
  {
    var t := ChildNamed(at, c.name);
    t.Some? && ((c.File? && t.value.Dir?) || (c.Dir? && !t.value.Dir?))
  }

  function Blocked(at: seq<Entry>): Entry -> bool { (c: Entry) => Clashes(at, c) }
  function Fits(at: seq<Entry>): Entry -> bool { (c: Entry) => !Clashes(at, c) }

  /** The member loop of a legacy restore into a folder holding `at`: a
      clashing member fails and stays, the others move as in the move loop. */
  function RestoreEntries(at: seq<Entry>, cs: seq<Entry>): Moved
  {
    if cs == [] then Moved([], [], 0, 0)
    else RestoreOne(at, RestoreEntries(at, cs[..|cs| - 1]), cs[|cs| - 1])
  }

  function RestoreOne(at: seq<Entry>, m: Moved, c: Entry): Moved
  {
    if Clashes(at, c) then Moved(m.dest, m.left + [c], m.size, m.count) else MoveOne(m, c)
  }

  lemma RestoreEntriesSnoc(at: seq<Entry>, cs: seq<Entry>, c: Entry)
    ensures RestoreEntries(at, cs + [c]) == RestoreOne(at, RestoreEntries(at, cs), c)
  {
    assert (cs + [c])[..|cs|] == cs;
  }

  /** Restoring members that can all move: exactly the members that do not
      clash arrive, with their sizes, and exactly the clashing ones stay. */
  lemma {:induction false} RestoreEntriesWhole(at: seq<Entry>, cs: seq<Entry>)
    requires AllMovable(cs)
    ensures var r := RestoreEntries(at, cs);
      r.dest == Filter(cs, Fits(at)) && r.left == Filter(cs, Blocked(at)) &&
      r.size == ChildrenSize(Filter(cs, Fits(at)))
  {
    if cs != [] {
      var init := cs[..|cs| - 1];
      var c := cs[|cs| - 1];
      assert Movable(c);
      assert AllMovable(init) by {
        forall i | 0 <= i < |init| ensures Movable(init[i]) {
          assert init[i] == cs[i];
        }
      }
      RestoreEntriesWhole(at, init);
      var fits := Filter(init, Fits(at));
      assert Filter(cs, Fits(at)) == fits + (if Fits(at)(c) then [c] else []);
      assert Filter(cs, Blocked(at)) == Filter(init, Blocked(at)) + (if Blocked(at)(c) then [c] else []);
      if !Clashes(at, c) {
        ChildrenSizeSnoc(fits, c);
        if c.Dir? {
          MoveDirWhole(c);
          MoveDirConserves(c);
        }
      }
    }
  }

  /** Into a folder that holds nothing, no member clashes. */
  lemma FreshFolderFits(cs: seq<Entry>)
    ensures Filter(cs, Fits([])) == cs && Filter(cs, Blocked([])) == []
  {
    FilterAll(cs, Fits([]));
    FilterIn(cs, Blocked([]));
  }

  /** The member loop of a legacy restore into a folder holding `at`: the
      metadata file is skipped, a member meeting an entry of the other kind
      stays, everything else is moved as by the move loop. */
  method RestoreMembers(at: seq<Entry>, cs: seq<Entry>) returns (m: Moved)
    ensures m == RestoreEntries(at, Filter(cs, NotLegacyMeta))
  {
    m := Moved([], [], 0, 0);
    for i := 0 to |cs|
      invariant m == RestoreEntries(at, Filter(cs[..i], NotLegacyMeta))
    {
      var c := cs[i];
      assert cs[..i + 1][..i] == cs[..i];
      assert Filter(cs[..i + 1], NotLegacyMeta) ==
        Filter(cs[..i], NotLegacyMeta) + (if NotLegacyMeta(c) then [c] else []);
      if c.name != LEGACY_META {
        RestoreEntriesSnoc(at, Filter(cs[..i], NotLegacyMeta), c);
        if Clashes(at, c) {
          m := Moved(m.dest, m.left + [c], m.size, m.count);
        } else {
          m := MoveMember(m, c);
        }
        assert Filter(cs[..i + 1], NotLegacyMeta) == Filter(cs[..i], NotLegacyMeta) + [c];
        assert m == RestoreEntries(at, Filter(cs[..i], NotLegacyMeta) + [c]);
      } else {
        assert Filter(cs[..i + 1], NotLegacyMeta) == Filter(cs[..i], NotLegacyMeta);
      }
      assert m == RestoreEntries(at, Filter(cs[..i + 1], NotLegacyMeta));
    }
    assert cs[..|cs|] == cs;
  }

  /** Writing twice under one name leaves the second entry. */
  lemma {:induction false} PutTwice(cs: seq<Entry>, a: Entry, b: Entry)
    requires a.name == b.name
    ensures Put(Put(cs, a), b) == Put(cs, b)
  {
    if cs != [] && cs[0].name != a.name {
      PutTwice(cs[1..], a, b);
      assert Put(cs, a)[1..] == Put(cs[1..], a);
    }
  }

  // ---------------------------------------------------------------------
  // getRecoveryZoneItems.

  /** One element of the listing. */
  datatype Item = Item(
    id: string,
    originalPath: string,
    movedAt: int,
    size: nat,
    recoveryPath: string,
    isDirectory: bool)

  /** The sidecar `<name>.meta.json` of a zone entry, when it parses. */
  function SidecarMeta(zone: seq<Entry>, name: string): Option<Meta>
  {
    var s := ChildNamed(zone, name + META_SUFFIX);
    if s.Some? then ReadMeta(s.value) else None
  }

  /** The legacy metadata file inside a moved folder, when it parses. */
  function LegacyMeta(e: Entry): (r: Option<Meta>)
    ensures r.Some? ==> e.Dir?
  {
    if e.Dir? && e.listable then
      var m := ChildNamed(e.children, LEGACY_META);
      if m.Some? then ReadMeta(m.value) else None
    else None
  }

  /** What the listing makes of one zone entry: sidecar files are skipped;
      a parseable sidecar wins; otherwise a folder with parseable legacy
      metadata is listed; anything else is left out of the listing. */
  function ItemOf(root: string, zone: seq<Entry>, e: Entry): (r: Option<Item>)
    ensures r.Some? <==>
      !EndsWith(e.name, META_SUFFIX) && (SidecarMeta(zone, e.name).Some? || LegacyMeta(e).Some?)
    ensures r.Some? ==> r.value.id == e.name && r.value.recoveryPath == Join(root, e.name)
    ensures r.Some? && SidecarMeta(zone, e.name).Some? ==>
      var m := SidecarMeta(zone, e.name).value;
      r.value.originalPath == m.originalPath && r.value.movedAt == m.movedAt &&
      r.value.size == Or0(StatSize(e)) &&
      r.value.isDirectory == (m.isDirectory == Some(true) || e.Dir?)
    ensures r.Some? && SidecarMeta(zone, e.name).None? ==>
      var m := LegacyMeta(e).value;
      r.value.originalPath == m.originalPath && r.value.movedAt == m.movedAt &&
      r.value.size == DirSize(e) && r.value.isDirectory
  {
    if EndsWith(e.name, META_SUFFIX) then None
    else
      var sm := SidecarMeta(zone, e.name);
      if sm.Some? then
        Some(Item(e.name, sm.value.originalPath, sm.value.movedAt, Or0(StatSize(e)),
          Join(root, e.name), sm.value.isDirectory == Some(true) || e.Dir?))
      else
        var lm := LegacyMeta(e);
        if lm.Some? then
          Some(Item(e.name, lm.value.originalPath, lm.value.movedAt, DirSize(e), Join(root, e.name), true))
        else None
  }

  /** The listing loop over `cs`, before sorting. */
  function Collected(root: string, zone: seq<Entry>, cs: seq<Entry>): (r: seq<Item>)
    ensures forall it :: it in r ==> exists c :: c in cs && ItemOf(root, zone, c) == Some(it)
    ensures forall c :: c in cs && ItemOf(root, zone, c).Some? ==> ItemOf(root, zone, c).value in r
  {
    if cs == [] then []
    else
      var init := cs[..|cs| - 1];
      var c := cs[|cs| - 1];
      var r := Collected(root, zone, init);
      assert forall x :: x in cs ==> x in init || x == c by {
        assert cs == init + [c];
      }
      var o := ItemOf(root, zone, c);
      if o.Some? then r + [o.value] else r
  }

  function MovedKey(it: Item): int { it.movedAt }

  /** getRecoveryZoneItems: the collected items, newest first. */
  function RecoveryItems(root: string, zone: seq<Entry>): seq<Item>
  {
    SortDesc(Collected(root, zone, zone), MovedKey)
  }

  /** The listing is ordered newest first and holds exactly one item for
      each zone entry the listing rules accept and nothing else. */
  lemma ListingShape(root: string, zone: seq<Entry>)
    ensures SortedDesc(RecoveryItems(root, zone), MovedKey)
    ensures multiset(RecoveryItems(root, zone)) == multiset(Collected(root, zone, zone))
    ensures forall it :: it in RecoveryItems(root, zone) <==>
      exists c :: c in zone && ItemOf(root, zone, c) == Some(it)
  {
    SortDescProps(Collected(root, zone, zone), MovedKey);
    forall it ensures it in RecoveryItems(root, zone) <==> it in Collected(root, zone, zone) {
      assert it in RecoveryItems(root, zone) <==> it in multiset(RecoveryItems(root, zone));
    }
  }

  /** The listing loop, as the handler runs it. */
  method GetRecoveryZoneItems(root: string, zone: seq<Entry>) returns (items: seq<Item>)
    ensures items == RecoveryItems(root, zone)
  {
    items := [];
    for i := 0 to |zone|
      invariant items == Collected(root, zone, zone[..i])
    {
      assert zone[..i + 1][..i] == zone[..i];
      var o := ItemOf(root, zone, zone[i]);
      if o.Some? {
        items := items + [o.value];
      }
    }
    assert zone[..|zone|] == zone;
    items := SortDesc(items, MovedKey);
  }

  // ---------------------------------------------------------------------
  // The handlers, as steps from one filesystem state to the next.

  /** A handler's new filesystem state and its reply. */
  datatype Step<R> = Step(fs: Fs, reply: R)

  datatype MoveReply = MovedToZone(freedSpace: nat, recoveryPath: string) | MoveFailed
  datatype LegacyMoveReply = LegacyMoved(movedSize: nat, movedCount: nat, recoveryPath: string) | LegacyMoveFailed
  datatype RestoreReply = Restored(restoredSize: nat) | NoMetadata | RestoreFailed
  datatype DeleteReply = Deleted(deletedSize: nat) | DeleteFailed

  /** The name the move handler gives an item: the timestamp, `_`, and the
      original base name. */
  function DestName(stamp: string, filePath: string): string
  {
    stamp + "_" + BaseName(filePath)
  }

  function Sidecar(destName: string, filePath: string, movedAt: int, size: nat, isDirectory: bool): Entry
  {
    File(destName + META_SUFFIX, Some(0), MetaDoc(Meta(filePath, movedAt, Some(size), Some(isDirectory), None)))
  }

  /** The move-to-recovery-zone handler. A folder goes by Move-Item, which
      succeeds when `ok`; a file is copied (only a readable file can be) and
      then unlinked, which succeeds when `ok`: a failed unlink leaves the
      copy in the zone and no sidecar. The sidecar is written last. */
  function MoveStep(fs: Fs, root: string, filePath: string, isDirectory: bool,
                    stamp: string, movedAt: int, ok: bool): Step<MoveReply>
  {
    var destName := DestName(stamp, filePath);
    var size := MeasuredSize(fs.disk, filePath, isDirectory);
    if filePath !in fs.disk then Step(fs, MoveFailed)
    else
      var e := fs.disk[filePath];
      var payload := Renamed(e, destName);
      var done := Step(Fs(fs.disk - {filePath},
                          Put(Put(fs.zone, payload), Sidecar(destName, filePath, movedAt, size, isDirectory))),
                       MovedToZone(size, Join(root, destName)));
      if isDirectory then
        if ok then done else Step(fs, MoveFailed)
      else if !(e.File? && e.size.Some?) then Step(fs, MoveFailed)
      else if ok then done
      else Step(Fs(fs.disk, Put(fs.zone, payload)), MoveFailed)
  }

  /** moveToRecoveryZone, the legacy writer: the destination folder is made
      first (and stays, empty, when the source cannot be listed); members
      are moved one by one; the source folder itself stays with whatever
      could not be moved; the metadata file goes inside the destination. */
  function LegacyMoveStep(fs: Fs, root: string, sourcePath: string, itemId: string,
                          stamp: string, movedAt: int): Step<LegacyMoveReply>
  {
    var destName := itemId + "_" + stamp;
    if sourcePath !in fs.disk || !fs.disk[sourcePath].Dir? || !fs.disk[sourcePath].listable then
      Step(Fs(fs.disk, Put(fs.zone, Dir(destName, true, []))), LegacyMoveFailed)
    else
      var src := fs.disk[sourcePath];
      var m := MoveEntries(src.children);
      var meta := File(LEGACY_META, Some(0), MetaDoc(Meta(sourcePath, movedAt, None, None, Some(itemId))));
      Step(Fs(fs.disk[sourcePath := Dir(src.name, true, m.left)],
              Put(Put(fs.zone, Dir(destName, true, [])), Dir(destName, true, Put(m.dest, meta)))),
           LegacyMoved(m.size, m.count, Join(root, destName)))
  }

  predicate IsLegacyMeta(c: Entry) { c.name == LEGACY_META }
  predicate NotLegacyMeta(c: Entry) { c.name != LEGACY_META }

  /** restoreFromRecoveryZone(Join(root, name)). A sidecar, when present,
      decides the layout and must parse; otherwise a legacy metadata file
      must exist and parse; otherwise there is no metadata. */
  function RestoreStep(fs: Fs, name: string, ok: bool): Step<RestoreReply>
  {
    var side := ChildNamed(fs.zone, name + META_SUFFIX);
    var payload := ChildNamed(fs.zone, name);
    if side.Some? then
      var m := ReadMeta(side.value);
      if m.None? || payload.None? then Step(fs, RestoreFailed)
      else RestoreNew(fs, name, m.value, payload.value, ok)
    else if payload.Some? && payload.value.Dir? && payload.value.listable &&
            ChildNamed(payload.value.children, LEGACY_META).Some? then
      var m := ReadMeta(ChildNamed(payload.value.children, LEGACY_META).value);
      if m.None? then Step(fs, RestoreFailed)
      else RestoreLegacy(fs, name, m.value, payload.value)
    else Step(fs, NoMetadata)
  }

  /** Restore answers that there is no metadata exactly when the item has no
      sidecar and is not a listable folder holding a legacy metadata file;
      that answer changes nothing. */
  lemma RestoreNeedsMetadata(fs: Fs, name: string, ok: bool)
    ensures var p := ChildNamed(fs.zone, name);
      RestoreStep(fs, name, ok).reply == NoMetadata <==>
        ChildNamed(fs.zone, name + META_SUFFIX).None? &&
        !(p.Some? && p.value.Dir? && p.value.listable && ChildNamed(p.value.children, LEGACY_META).Some?)
    ensures RestoreStep(fs, name, ok).reply == NoMetadata ==> RestoreStep(fs, name, ok).fs == fs
  {
  }

  /** The current layout. A folder goes back by Move-Item (`ok`): onto an
      existing folder it lands inside it under its zone name, elsewhere it
      takes the recorded path. A file is copied back (readable files only;
      a copy onto a folder fails) and unlinked (`ok`). The sidecar is then
      unlinked; the reply repeats the recorded size. */
  function RestoreNew(fs: Fs, name: string, m: Meta, payload: Entry, ok: bool): Step<RestoreReply>
  {
    var orig := m.originalPath;
    var onFolder := orig in fs.disk && fs.disk[orig].Dir?;
    var back := if onFolder && payload.Dir? then fs.disk[orig := Into(fs.disk[orig], [payload])]
                else fs.disk[orig := Renamed(payload, BaseName(orig))];
    var gone := Remove(Remove(fs.zone, name), name + META_SUFFIX);
    var size := Or0(m.size);
    if payload.Dir? then
      if ok then Step(Fs(back, gone), Restored(size)) else Step(fs, RestoreFailed)
    else if !(payload.File? && payload.size.Some?) || onFolder then Step(fs, RestoreFailed)
    else if ok then Step(Fs(back, gone), Restored(size))
    else Step(Fs(back, fs.zone), RestoreFailed)
  }

  /** What the folder at `orig` holds before a legacy restore copies into
      it: nothing when it is still to be made. */
  function Existing(disk: map<string, Entry>, orig: string): seq<Entry>
  {
    if orig in disk && disk[orig].Dir? then disk[orig].children else []
  }

  /** The legacy layout: the original folder is made (a file in its place
      makes this fail; an existing folder is kept), every member but the
      metadata file is moved into it unless it meets an entry of the other
      kind, the metadata file is unlinked and the zone folder removed, which
      fails when members stayed behind. */
  function RestoreLegacy(fs: Fs, name: string, m: Meta, payload: Entry): Step<RestoreReply>
    requires payload.Dir?
  {
    var orig := m.originalPath;
    if orig in fs.disk && !fs.disk[orig].Dir? then Step(fs, RestoreFailed)
    else
      var r := RestoreEntries(Existing(fs.disk, orig), Filter(payload.children, NotLegacyMeta));
      var folder := if orig in fs.disk then Into(fs.disk[orig], r.dest) else Dir(BaseName(orig), true, r.dest);
      var disk := fs.disk[orig := folder];
      if r.left == [] then Step(Fs(disk, Remove(fs.zone, name)), Restored(r.size))
      else Step(Fs(disk, Put(fs.zone, Dir(name, true, r.left))), RestoreFailed)
  }

  /** permanentDeleteFromRecoveryZone(Join(root, name)): the item must stat;
      its sidecar is unlinked before Remove-Item runs, which succeeds when
      `ok`; when it fails, `left` is what it left of the item (None when
      nothing stayed). */
  function DeleteStep(fs: Fs, name: string, ok: bool, left: Option<Entry>): Step<DeleteReply>
  {
    var payload := ChildNamed(fs.zone, name);
    if payload.None? || StatSize(payload.value).None? then Step(fs, DeleteFailed)
    else
      var z := if ChildNamed(fs.zone, name + META_SUFFIX).Some? then Remove(fs.zone, name + META_SUFFIX) else fs.zone;
      if ok then Step(Fs(fs.disk, Remove(z, name)), Deleted(StatSize(payload.value).value))
      else if left.Some? then Step(Fs(fs.disk, Put(z, left.value)), DeleteFailed)
      else Step(Fs(fs.disk, Remove(z, name)), DeleteFailed)
  }

  // ---------------------------------------------------------------------
  // Properties of the handlers.

  lemma {:induction false} RemoveUnique(cs: seq<Entry>, name: string)
    requires UniqueNames(cs)
    ensures UniqueNames(Remove(cs, name))
  {
    if cs != [] && cs[0].name != name {
      var t := cs[1..];
      assert UniqueNames(t) by {
        forall i, j | 0 <= i < j < |t| ensures t[i].name != t[j].name {
          assert t[i] == cs[i + 1] && t[j] == cs[j + 1];
        }
      }
      RemoveUnique(t, name);
      var rt := Remove(t, name);
      var r := Remove(cs, name);
      assert r == [cs[0]] + rt;
      forall i, j | 0 <= i < j < |r| ensures r[i].name != r[j].name {
        assert r[j] == rt[j - 1];
        if i == 0 {
          assert rt[j - 1] in rt;
          assert r[j] in t;
          var k :| 0 <= k < |t| && t[k] == r[j];
          assert cs[k + 1] == r[j];
        } else {
          assert r[i] == rt[i - 1];
        }
      }
    } else if cs != [] {
      var r := Remove(cs, name);
      assert r == cs[1..];
      forall i, j | 0 <= i < j < |r| ensures r[i].name != r[j].name {
        assert r[i] == cs[i + 1] && r[j] == cs[j + 1];
      }
    }
  }

  /** A moved item shows up in the listing under its new name, with the
      original location and time its sidecar records. */
  lemma MovedIsListed(fs: Fs, root: string, p: string, isDirectory: bool, stamp: string, movedAt: int, ok: bool)
    requires p in fs.disk
    requires MoveStep(fs, root, p, isDirectory, stamp, movedAt, ok).reply.MovedToZone?
    requires !EndsWith(DestName(stamp, p), META_SUFFIX)
    ensures Item(DestName(stamp, p), p, movedAt, Or0(StatSize(fs.disk[p])), Join(root, DestName(stamp, p)),
                 isDirectory || fs.disk[p].Dir?)
            in RecoveryItems(root, MoveStep(fs, root, p, isDirectory, stamp, movedAt, ok).fs.zone)
  {
    var d := DestName(stamp, p);
    var e := fs.disk[p];
    var payload := Renamed(e, d);
    var side := Sidecar(d, p, movedAt, MeasuredSize(fs.disk, p, isDirectory), isDirectory);
    var z := Put(Put(fs.zone, payload), side);
    assert |d + META_SUFFIX| != |d|;
    assert ChildNamed(z, d) == Some(payload);
    assert SidecarMeta(z, d) == Some(side.content.meta);
    RenamedBack(e, d);
    ListingShape(root, z);
  }

  /** A successful move when neither the new name nor its sidecar's name
      is taken: the item leaves the disk and the zone gains the item and,
      after it, the sidecar. */
  lemma MoveIntoFreshNames(fs: Fs, root: string, p: string, isDirectory: bool, stamp: string, movedAt: int)
    requires p in fs.disk
    requires (fs.disk[p].File? && fs.disk[p].size.Some?) || (isDirectory && fs.disk[p].Dir?)
    requires ChildNamed(fs.zone, DestName(stamp, p)).None?
    requires ChildNamed(fs.zone, DestName(stamp, p) + META_SUFFIX).None?
    ensures var d := DestName(stamp, p);
      var size := MeasuredSize(fs.disk, p, isDirectory);
      MoveStep(fs, root, p, isDirectory, stamp, movedAt, true) ==
      Step(Fs(fs.disk - {p}, fs.zone + [Renamed(fs.disk[p], d), Sidecar(d, p, movedAt, size, isDirectory)]),
           MovedToZone(size, Join(root, d)))
  {
    var d := DestName(stamp, p);
    var payload := Renamed(fs.disk[p], d);
    var side := Sidecar(d, p, movedAt, MeasuredSize(fs.disk, p, isDirectory), isDirectory);
    var z1 := Put(fs.zone, payload);
    assert z1 == fs.zone + [payload];
    assert |d + META_SUFFIX| != |d|;
    assert ChildNamed(z1, side.name).None?;
    assert Put(z1, side) == fs.zone + [payload, side];
  }

  /** Restoring an item of the current layout that sits, with its sidecar,
      after the rest of the zone. Where no folder is in the way it goes back
      to the recorded path; a folder restored onto an existing folder lands
      inside it; a file cannot be copied onto a folder. On success the zone
      loses exactly those two entries. */
  lemma RestoreFromSidecar(disk: map<string, Entry>, zone: seq<Entry>, payload: Entry, side: Entry, m: Meta)
    requires ChildNamed(zone, payload.name).None? && ChildNamed(zone, payload.name + META_SUFFIX).None?
    requires side.name == payload.name + META_SUFFIX && ReadMeta(side) == Some(m)
    requires payload.Dir? || (payload.File? && payload.size.Some?)
    ensures var orig := m.originalPath;
      var st := RestoreStep(Fs(disk, zone + [payload, side]), payload.name, true);
      (orig !in disk || !disk[orig].Dir? ==>
        st == Step(Fs(disk[orig := Renamed(payload, BaseName(orig))], zone), Restored(Or0(m.size)))) &&
      (orig in disk && disk[orig].Dir? && payload.Dir? ==>
        st == Step(Fs(disk[orig := Into(disk[orig], [payload])], zone), Restored(Or0(m.size)))) &&
      (orig in disk && disk[orig].Dir? && payload.File? ==>
        st == Step(Fs(disk, zone + [payload, side]), RestoreFailed))
  {
    var d := payload.name;
    var z := zone + [payload, side];
    var fs := Fs(disk, z);
    assert |d + META_SUFFIX| != |d|;
    assert z == Put(zone, payload) + [side];
    assert ChildNamed(z, d + META_SUFFIX) == Some(side) by {
      assert zone + [payload] == Put(zone, payload);
      assert z == Put(zone + [payload], side);
    }
    assert ChildNamed(z, d) == Some(payload) by {
      ChildNamedPrefix(Put(zone, payload), [side], d);
    }
    assert Remove(Remove(z, d), d + META_SUFFIX) == zone by {
      RemoveAfter(zone, [payload, side], d);
      assert [payload, side][1..] == [side];
      RemoveAfter(zone, [side], d + META_SUFFIX);
      assert zone + [side][1..] == zone;
    }
    assert RestoreStep(fs, d, true) == RestoreNew(fs, d, m, payload, true);
  }

  /** Looking a name up in `a + b` finds it in `a` when `a` has it. */
  lemma {:induction false} ChildNamedPrefix(a: seq<Entry>, b: seq<Entry>, name: string)
    requires ChildNamed(a, name).Some?
    ensures ChildNamed(a + b, name) == ChildNamed(a, name)
  {
    if a[0].name != name {
      assert (a + b)[1..] == a[1..] + b;
      ChildNamedPrefix(a[1..], b, name);
    }
  }

  /** Moving an item into the zone and restoring it puts everything back as
      it was, and the sizes the two replies report agree. */
  lemma MoveThenRestore(fs: Fs, root: string, p: string, isDirectory: bool, stamp: string, movedAt: int)
    requires p in fs.disk && fs.disk[p].name == BaseName(p)
    requires (fs.disk[p].File? && fs.disk[p].size.Some?) || (isDirectory && fs.disk[p].Dir?)
    requires ChildNamed(fs.zone, DestName(stamp, p)).None?
    requires ChildNamed(fs.zone, DestName(stamp, p) + META_SUFFIX).None?
    ensures MoveStep(fs, root, p, isDirectory, stamp, movedAt, true).reply ==
      MovedToZone(MeasuredSize(fs.disk, p, isDirectory), Join(root, DestName(stamp, p)))
    ensures RestoreStep(MoveStep(fs, root, p, isDirectory, stamp, movedAt, true).fs, DestName(stamp, p), true) ==
      Step(fs, Restored(MeasuredSize(fs.disk, p, isDirectory)))
  {
    var d := DestName(stamp, p);
    var e := fs.disk[p];
    var side := Sidecar(d, p, movedAt, MeasuredSize(fs.disk, p, isDirectory), isDirectory);
    MoveIntoFreshNames(fs, root, p, isDirectory, stamp, movedAt);
    RestoreFromSidecar(fs.disk - {p}, fs.zone, Renamed(e, d), side, side.content.meta);
    DiskBack(fs.disk, p, d);
  }

  /** Taking an entry off the disk under a new name and putting it back
      under its own name restores the disk. */
  lemma DiskBack(disk: map<string, Entry>, p: string, d: string)
    requires p in disk && disk[p].name == BaseName(p)
    ensures (disk - {p})[p := Renamed(Renamed(disk[p], d), BaseName(p))] == disk
  {
    RenamedBack(disk[p], d);
  }

  /** The legacy writer on a fully movable folder: the folder stays, empty,
      and the zone gains one folder holding all its members and, after them,
      the metadata file. */
  lemma LegacyMoveWhole(fs: Fs, root: string, p: string, itemId: string, stamp: string, movedAt: int)
    requires p in fs.disk
    requires fs.disk[p].Dir? && fs.disk[p].listable
    requires AllMovable(fs.disk[p].children) && ChildNamed(fs.disk[p].children, LEGACY_META).None?
    requires ChildNamed(fs.zone, itemId + "_" + stamp).None?
    ensures var src := fs.disk[p];
      var meta := File(LEGACY_META, Some(0), MetaDoc(Meta(p, movedAt, None, None, Some(itemId))));
      LegacyMoveStep(fs, root, p, itemId, stamp, movedAt) ==
      Step(Fs(fs.disk[p := Dir(src.name, true, [])], fs.zone + [Dir(itemId + "_" + stamp, true, src.children + [meta])]),
           LegacyMoved(DirSize(src), |FileSizes(src)|, Join(root, itemId + "_" + stamp)))
  {
    var cs := fs.disk[p].children;
    MoveEntriesWhole(cs);
    MoveEntriesConserves(cs);
    var d := itemId + "_" + stamp;
    var meta := File(LEGACY_META, Some(0), MetaDoc(Meta(p, movedAt, None, None, Some(itemId))));
    PutTwice(fs.zone, Dir(d, true, []), Dir(d, true, Put(cs, meta)));
  }

  /** Restoring a legacy folder whose members can all move: they go back to
      the recorded path, into the folder already there if there is one, and
      the zone folder disappears. A member meeting an entry of the other kind
      in that folder stays in the zone folder and the restore fails. A file
      at the recorded path makes the restore fail with nothing changed. */
  lemma RestoreLegacyWhole(disk: map<string, Entry>, zone: seq<Entry>, d: string, cs: seq<Entry>, m: Meta, ok: bool)
    requires ChildNamed(zone, d).None? && ChildNamed(zone, d + META_SUFFIX).None?
    requires AllMovable(cs) && ChildNamed(cs, LEGACY_META).None?
    ensures var meta := File(LEGACY_META, Some(0), MetaDoc(m));
      var orig := m.originalPath;
      var z := zone + [Dir(d, true, cs + [meta])];
      var st := RestoreStep(Fs(disk, z), d, ok);
      (orig !in disk ==> st == Step(Fs(disk[orig := Dir(BaseName(orig), true, cs)], zone), Restored(ChildrenSize(cs)))) &&
      (orig in disk && disk[orig].Dir? ==>
        var fits := Filter(cs, Fits(disk[orig].children));
        var blocked := Filter(cs, Blocked(disk[orig].children));
        var back := disk[orig := Into(disk[orig], fits)];
        (blocked == [] ==> st == Step(Fs(back, zone), Restored(ChildrenSize(cs)))) &&
        (blocked != [] ==> st == Step(Fs(back, zone + [Dir(d, true, blocked)]), RestoreFailed))) &&
      (orig in disk && !disk[orig].Dir? ==> st == Step(Fs(disk, z), RestoreFailed))
  {
    var meta := File(LEGACY_META, Some(0), MetaDoc(m));
    var orig := m.originalPath;
    var folder := Dir(d, true, cs + [meta]);
    var z := zone + [folder];
    assert ReadMeta(meta) == Some(m);
    LegacyFolderChosen(disk, zone, d, cs, meta, ok);
    assert Filter(folder.children, NotLegacyMeta) == cs by {
      LegacyMetaFiltered(cs, meta);
    }
    var at := Existing(disk, orig);
    RestoreEntriesWhole(at, cs);
    assert Remove(z, d) == zone by {
      RemoveFreshPut(zone, folder);
    }
    if orig !in disk {
      FreshFolderFits(cs);
    } else if disk[orig].Dir? {
      var blocked := Filter(cs, Blocked(at));
      if blocked == [] {
        NoneBlocked(at, cs);
      } else {
        assert Put(z, Dir(d, true, blocked)) == zone + [Dir(d, true, blocked)] by {
          assert z == Put(zone, folder);
          PutTwice(zone, folder, Dir(d, true, blocked));
        }
      }
    }
  }

  /** When no member clashes, all of them fit. */
  lemma NoneBlocked(at: seq<Entry>, cs: seq<Entry>)
    requires Filter(cs, Blocked(at)) == []
    ensures Filter(cs, Fits(at)) == cs
  {
    FilterIn(cs, Blocked(at));
    forall i | 0 <= i < |cs| ensures Fits(at)(cs[i]) {
      assert cs[i] in cs;
    }
    FilterAll(cs, Fits(at));
  }

  /** A legacy folder added under a fresh name is restored by the legacy
      path. */
  lemma LegacyFolderChosen(disk: map<string, Entry>, zone: seq<Entry>, d: string, cs: seq<Entry>, meta: Entry, ok: bool)
    requires ChildNamed(zone, d).None? && ChildNamed(zone, d + META_SUFFIX).None?
    requires ChildNamed(cs, LEGACY_META).None? && meta.name == LEGACY_META && ReadMeta(meta).Some?
    ensures var folder := Dir(d, true, cs + [meta]);
      RestoreStep(Fs(disk, zone + [folder]), d, ok) == RestoreLegacy(Fs(disk, zone + [folder]), d, ReadMeta(meta).value, folder)
  {
    var folder := Dir(d, true, cs + [meta]);
    var z := zone + [folder];
    assert z == Put(zone, folder);
    assert ChildNamed(z, d) == Some(folder);
    assert |d + META_SUFFIX| != |d|;
    assert ChildNamed(z, d + META_SUFFIX) == ChildNamed(zone, d + META_SUFFIX);
    assert cs + [meta] == Put(cs, meta);
    assert ChildNamed(folder.children, LEGACY_META) == Some(meta);
    RestoreChoosesLegacy(Fs(disk, z), d, folder, meta, ok);
  }

  /** Leaving out the legacy metadata file appended to members that hold
      none gives back those members. */
  lemma LegacyMetaFiltered(cs: seq<Entry>, meta: Entry)
    requires ChildNamed(cs, LEGACY_META).None? && meta.name == LEGACY_META
    ensures Filter(cs + [meta], NotLegacyMeta) == cs
  {
    FilterAppend(cs, [meta], NotLegacyMeta);
    assert [meta][..0] == [];
    forall i | 0 <= i < |cs| ensures NotLegacyMeta(cs[i]) {
      assert cs[i] in cs;
    }
    FilterAll(cs, NotLegacyMeta);
  }

  /** With no sidecar, a zone folder holding a parseable legacy metadata
      file is restored by the legacy path. */
  lemma RestoreChoosesLegacy(fs: Fs, d: string, folder: Entry, meta: Entry, ok: bool)
    requires ChildNamed(fs.zone, d + META_SUFFIX).None? && ChildNamed(fs.zone, d) == Some(folder)
    requires folder.Dir? && folder.listable && ChildNamed(folder.children, LEGACY_META) == Some(meta)
    requires ReadMeta(meta).Some?
    ensures RestoreStep(fs, d, ok) == RestoreLegacy(fs, d, ReadMeta(meta).value, folder)
  {
  }

  /** The legacy writer moves a fully movable folder whole; restoring it
      gives back the folder, its size and the zone as they were. */
  lemma LegacyMoveThenRestore(fs: Fs, root: string, p: string, itemId: string, stamp: string, movedAt: int, ok: bool)
    requires p in fs.disk
    requires fs.disk[p].Dir? && fs.disk[p].listable
    requires AllMovable(fs.disk[p].children) && ChildNamed(fs.disk[p].children, LEGACY_META).None?
    requires ChildNamed(fs.zone, itemId + "_" + stamp).None?
    requires ChildNamed(fs.zone, itemId + "_" + stamp + META_SUFFIX).None?
    ensures LegacyMoveStep(fs, root, p, itemId, stamp, movedAt).reply ==
      LegacyMoved(DirSize(fs.disk[p]), |FileSizes(fs.disk[p])|, Join(root, itemId + "_" + stamp))
    ensures RestoreStep(LegacyMoveStep(fs, root, p, itemId, stamp, movedAt).fs, itemId + "_" + stamp, ok) ==
      Step(fs, Restored(DirSize(fs.disk[p])))
  {
    var src := fs.disk[p];
    var meta := Meta(p, movedAt, None, None, Some(itemId));
    LegacyMoveWhole(fs, root, p, itemId, stamp, movedAt);
    RestoreLegacyWhole(fs.disk[p := Dir(src.name, true, [])], fs.zone, itemId + "_" + stamp, src.children, meta, ok);
    FreshFolderFits(src.children);
    FolderBack(fs.disk, p);
  }

  /** Emptying a folder and then copying its own members back into it
      restores the disk. */
  lemma FolderBack(disk: map<string, Entry>, p: string)
    requires p in disk && disk[p].Dir? && disk[p].listable
    ensures disk[p := Dir(disk[p].name, true, [])][p := Into(Dir(disk[p].name, true, []), disk[p].children)] == disk
  {
    assert Filter([], Unshadowed(disk[p].children)) == [];
    assert Into(Dir(disk[p].name, true, []), disk[p].children) == disk[p];
  }

  /** The members a legacy restore leaves behind keep the names of members
      that were there before it. */
  lemma {:induction false} LeftNames(at: seq<Entry>, cs: seq<Entry>)
    ensures forall x :: x in RestoreEntries(at, cs).left ==> exists c :: c in cs && c.name == x.name
  {
    if cs != [] {
      var init := cs[..|cs| - 1];
      var c := cs[|cs| - 1];
      LeftNames(at, init);
      assert cs == init + [c];
      var m := RestoreEntries(at, init);
      assert RestoreEntries(at, cs) == RestoreOne(at, m, c);
      MoveOneLeft(m, c);
      forall x | x in RestoreEntries(at, cs).left ensures exists y :: y in cs && y.name == x.name {
        if x in m.left {
          var y :| y in init && y.name == x.name;
          assert y in cs;
        } else {
          assert c in cs;
        }
      }
    }
  }

  /** One member's move leaves behind nothing but that member or what
      stayed of it, under its name. */
  lemma MoveOneLeft(m: Moved, c: Entry)
    ensures forall x :: x in MoveOne(m, c).left ==> x in m.left || x.name == c.name
  {
  }

  /** A legacy restore that leaves members behind has already unlinked the
      metadata file: it fails, and what stayed in the zone is no longer
      listed. A file at the recorded path stops it before anything moves. */
  lemma LegacyLeftoversUnlisted(fs: Fs, root: string, name: string, ok: bool)
    requires ChildNamed(fs.zone, name + META_SUFFIX).None?
    requires ChildNamed(fs.zone, name).Some?
    requires var e := ChildNamed(fs.zone, name).value;
      e.Dir? && e.listable && LegacyMeta(e).Some? &&
      RestoreEntries(Existing(fs.disk, LegacyMeta(e).value.originalPath), Filter(e.children, NotLegacyMeta)).left != []
    ensures var st := RestoreStep(fs, name, ok);
      var orig := LegacyMeta(ChildNamed(fs.zone, name).value).value.originalPath;
      st.reply == RestoreFailed &&
      (orig in fs.disk && !fs.disk[orig].Dir? ==> st.fs == fs) &&
      (!(orig in fs.disk && !fs.disk[orig].Dir?) ==>
        ChildNamed(st.fs.zone, name).Some? && ItemOf(root, st.fs.zone, ChildNamed(st.fs.zone, name).value).None?)
  {
    var e := ChildNamed(fs.zone, name).value;
    var members := Filter(e.children, NotLegacyMeta);
    var at := Existing(fs.disk, LegacyMeta(e).value.originalPath);
    var left := RestoreEntries(at, members).left;
    LeftNames(at, members);
    assert ChildNamed(left, LEGACY_META).None? by {
      forall x | x in left ensures x.name != LEGACY_META {
        var c :| c in members && c.name == x.name;
      }
    }
    var z := Put(fs.zone, Dir(name, true, left));
    assert |name + META_SUFFIX| != |name|;
    assert ChildNamed(z, name + META_SUFFIX).None?;
  }

  /** A permanent delete of an item that stats always unlinks its sidecar;
      Remove-Item then either removes the item and reports its size, or
      fails, leaving what it did not get to, which is the item with some
      entries taken out and no larger; no other zone entry and nothing
      outside the zone changes. */
  lemma DeleteOutcome(fs: Fs, name: string, ok: bool, left: Option<Entry>)
    requires UniqueNames(fs.zone)
    requires ChildNamed(fs.zone, name).Some? && StatSize(ChildNamed(fs.zone, name).value).Some?
    requires left.Some? ==> Pruned(left.value, ChildNamed(fs.zone, name).value)
    ensures var st := DeleteStep(fs, name, ok, left);
      st.fs.disk == fs.disk &&
      ChildNamed(st.fs.zone, name + META_SUFFIX).None? &&
      (forall n :: n != name && n != name + META_SUFFIX ==> ChildNamed(st.fs.zone, n) == ChildNamed(fs.zone, n)) &&
      (ok ==> st.reply == Deleted(StatSize(ChildNamed(fs.zone, name).value).value) && ChildNamed(st.fs.zone, name).None?) &&
      (!ok ==> st.reply == DeleteFailed && ChildNamed(st.fs.zone, name) == left) &&
      (!ok && left.Some? ==> DirSize(left.value) <= DirSize(ChildNamed(fs.zone, name).value))
  {
    if left.Some? {
      PrunedSizeLe(left.value, ChildNamed(fs.zone, name).value);
    }
    var side := name + META_SUFFIX;
    var z := if ChildNamed(fs.zone, side).Some? then Remove(fs.zone, side) else fs.zone;
    assert |side| != |name|;
    RemoveUnique(fs.zone, side);
    forall n ensures ChildNamed(z, n) == if n == side then None else ChildNamed(fs.zone, n) {
      if ChildNamed(fs.zone, side).Some? {
        LookupRemove(fs.zone, side, n);
      }
    }
    forall n ensures ChildNamed(Remove(z, name), n) == if n == name then None else ChildNamed(z, n) {
      LookupRemove(z, name, n);
    }
  }

  /** The legacy writer conserves bytes and files: what it reports moved
      plus what stayed in the source folder is the folder's old size, and
      the count is the number of readable files below it. */
  lemma LegacyMoveConserves(fs: Fs, root: string, p: string, itemId: string, stamp: string, movedAt: int)
    requires LegacyMoveStep(fs, root, p, itemId, stamp, movedAt).reply.LegacyMoved?
    ensures var st := LegacyMoveStep(fs, root, p, itemId, stamp, movedAt);
      p in fs.disk && p in st.fs.disk &&
      st.reply.movedSize + DirSize(st.fs.disk[p]) == DirSize(fs.disk[p]) &&
      st.reply.movedCount == |FileSizes(fs.disk[p])|
  {
    MoveEntriesConserves(fs.disk[p].children);
  }

  /** A folder the legacy writer moved is listed, as a folder, with the
      original path and time its metadata file records. */
  lemma LegacyMovedIsListed(fs: Fs, root: string, p: string, itemId: string, stamp: string, movedAt: int)
    requires LegacyMoveStep(fs, root, p, itemId, stamp, movedAt).reply.LegacyMoved?
    requires !EndsWith(itemId + "_" + stamp, META_SUFFIX)
    requires ChildNamed(fs.zone, itemId + "_" + stamp + META_SUFFIX).None?
    ensures var z := LegacyMoveStep(fs, root, p, itemId, stamp, movedAt).fs.zone;
      exists it :: it in RecoveryItems(root, z) &&
        it.id == itemId + "_" + stamp && it.originalPath == p && it.movedAt == movedAt && it.isDirectory
  {
    var d := itemId + "_" + stamp;
    var src := fs.disk[p];
    var m := MoveEntries(src.children);
    var meta := File(LEGACY_META, Some(0), MetaDoc(Meta(p, movedAt, None, None, Some(itemId))));
    var folder := Dir(d, true, Put(m.dest, meta));
    PutTwice(fs.zone, Dir(d, true, []), folder);
    var z := Put(fs.zone, folder);
    assert |d + META_SUFFIX| != |d|;
    assert ChildNamed(z, d + META_SUFFIX).None?;
    assert ChildNamed(z, d) == Some(folder);
    assert LegacyMeta(folder) == Some(meta.content.meta);
    ListingShape(root, z);
    assert ItemOf(root, z, folder).value in RecoveryItems(root, z);
  }
}
