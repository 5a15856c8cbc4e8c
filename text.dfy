/** String helpers shared by the model: ASCII case folding, Windows path
    pieces (separators, basename, extension, join) and the substring search
    behind String.prototype.includes / String.prototype.replace. */
module Text {

  datatype Option<T> = None | Some(value: T)

  /** Both separators Windows path functions accept. */
  predicate IsSep(c: char) { c == '\\' || c == '/' }

  function LowerChar(c: char): char
  {
    if 'A' <= c <= 'Z' then (c as int + 32) as char else c
  }

  /** toLowerCase, restricted to ASCII letters. */
  function Lower(s: string): (r: string)
    ensures |r| == |s|
    ensures forall i :: 0 <= i < |s| ==> r[i] == LowerChar(s[i])
  {
    seq(|s|, i requires 0 <= i < |s| => LowerChar(s[i]))
  }

  predicate StartsWith(s: string, p: string) { |p| <= |s| && s[..|p|] == p }

  predicate EndsWith(s: string, p: string) { |p| <= |s| && s[|s| - |p|..] == p }

  /** `p` occurs in `s` starting at index `i`. */
  predicate OccursAt(s: string, p: string, i: nat)
  {
    i + |p| <= |s| && s[i..i + |p|] == p
  }

  /** String.prototype.includes. */
  predicate Contains(s: string, p: string)
  {
    exists i: nat | i <= |s| :: OccursAt(s, p, i)
  }

  /** Index of the first occurrence of `p` in `s` at or after `from`, or -1. */
  function IndexFrom(s: string, p: string, from: nat): (r: int)
    requires from <= |s|
    ensures r == -1 || (from <= r <= |s| && OccursAt(s, p, r))
    ensures r == -1 ==> forall j: nat :: from <= j <= |s| ==> !OccursAt(s, p, j)
    ensures r != -1 ==> forall j: nat :: from <= j < r ==> !OccursAt(s, p, j)
    decreases |s| - from
  {
    if OccursAt(s, p, from) then from
    else if from == |s| then -1
    else IndexFrom(s, p, from + 1)
  }

  /** String.prototype.indexOf. */
  function IndexOf(s: string, p: string): (r: int)
    ensures r == -1 <==> !Contains(s, p)
    ensures r != -1 ==> 0 <= r <= |s| && OccursAt(s, p, r)
    ensures r != -1 ==> forall j: nat :: j < r ==> !OccursAt(s, p, j)
  {
    IndexFrom(s, p, 0)
  }

  /** String.prototype.replace with a string pattern: only the first
      occurrence of `p` is replaced (the replacement text is used literally). */
  function ReplaceFirst(s: string, p: string, v: string): string
  {
    var i := IndexOf(s, p);
    if i == -1 then s else s[..i] + v + s[i + |p|..]
  }

  /** ReplaceFirst leaves the text before the first occurrence and everything
      after it untouched, even further occurrences of the pattern. */
  lemma ReplaceFirstSplits(s: string, p: string, v: string)
    ensures !Contains(s, p) ==> ReplaceFirst(s, p, v) == s
    ensures Contains(s, p) ==>
      exists i: nat :: i + |p| <= |s| && OccursAt(s, p, i) &&
        (forall j: nat :: j < i ==> !OccursAt(s, p, j)) &&
        ReplaceFirst(s, p, v) == s[..i] + v + s[i + |p|..]
  {
    if Contains(s, p) {
      var i := IndexOf(s, p);
      assert OccursAt(s, p, i);
    }
  }

  /** Index of the last occurrence of character `c` in `s`, or -1. */
  function LastIndexOfChar(s: string, c: char): (r: int)
    ensures -1 <= r < |s|
    ensures r >= 0 ==> s[r] == c
    ensures forall j :: r < j < |s| ==> s[j] != c
  {
    if s == [] then -1
    else if s[|s| - 1] == c then |s| - 1
    else LastIndexOfChar(s[..|s| - 1], c)
  }

  /** Index just after the last separator in `s` (0 when there is none). */
  function AfterLastSep(s: string): (r: nat)
    ensures r <= |s|
    ensures r > 0 ==> IsSep(s[r - 1])
    ensures forall j :: r <= j < |s| ==> !IsSep(s[j])
  {
    if s == [] then 0
    else if IsSep(s[|s| - 1]) then |s|
    else AfterLastSep(s[..|s| - 1])
  }

  function TrimTrailingSeps(s: string): (r: string)
    ensures r <= s
    ensures r == [] || !IsSep(r[|r| - 1])
  {
    if s != [] && IsSep(s[|s| - 1]) then TrimTrailingSeps(s[..|s| - 1]) else s
  }

  /** path.win32.basename: the last segment, ignoring trailing separators. */
  function BaseName(s: string): string
  {
    var t := TrimTrailingSeps(s);
    t[AfterLastSep(t)..]
  }

  predicate NoSep(s: string) { forall i :: 0 <= i < |s| ==> !IsSep(s[i]) }

  /** path.win32.join of a directory path and a single entry name. */
  function Join(dir: string, name: string): string { dir + "\\" + name }

  lemma BaseNameOfJoin(dir: string, name: string)
    requires name != [] && NoSep(name)
    ensures BaseName(Join(dir, name)) == name
  {
    var s := Join(dir, name);
    assert TrimTrailingSeps(s) == s;
    assert IsSep(s[|dir|]);
    assert AfterLastSep(s) == |dir| + 1 by {
      AfterLastSepIsLast(s, |dir|);
    }
  }

  lemma {:induction false} AfterLastSepIsLast(s: string, k: nat)
    requires k < |s| && IsSep(s[k])
    requires forall j :: k < j < |s| ==> !IsSep(s[j])
    ensures AfterLastSep(s) == k + 1
    decreases |s|
  {
    if IsSep(s[|s| - 1]) {
      assert k == |s| - 1;
    } else {
      AfterLastSepIsLast(s[..|s| - 1], k);
    }
  }

  /** path.extname on a single entry name: the text from the last '.', or ""
      when there is no dot, the only dot is the first character, or the name
      is "..". */
  function ExtName(name: string): (r: string)
    ensures r == [] || r[0] == '.'
  {
    var k := LastIndexOfChar(name, '.');
    if k <= 0 || name == ".." then "" else name[k..]
  }

  /** The extension of `stem + ext` is `ext` when the stem is non-empty and
      `ext` is a dot followed by dot-free text. */
  lemma ExtNameOfSuffix(stem: string, ext: string)
    requires stem != []
    requires |ext| >= 2 && ext[0] == '.'
    requires forall i :: 1 <= i < |ext| ==> ext[i] != '.'
    ensures ExtName(stem + ext) == ext
  {
    var name := stem + ext;
    var k := LastIndexOfChar(name, '.');
    assert name[|stem|] == '.';
    assert k == |stem|;
    assert name[k..] == ext;
  }

  /** A prefix keeps its occurrences when text is appended. */
  lemma ContainsPrefix(s: string, t: string, p: string)
    requires Contains(s, p)
    ensures Contains(s + t, p)
  {
    var i: nat :| i <= |s| && OccursAt(s, p, i);
    assert (s + t)[i..i + |p|] == s[i..i + |p|];
    assert OccursAt(s + t, p, i);
  }
}
