/** getDeleteRecommendation over the DELETE_RULES tables
    (electron/main.js:754-933): a total, first-match-wins classification of a
    path into safe / caution / danger / unknown.

    Every rule of the tables is a case-insensitive regular expression built
    from literal text, the separator class [\\/] and at most one `.*`. Such a
    rule is decided here on the normalised path `Norm(p)` (separators turned
    into '/', ASCII letters lowered), with the rule's literal text written the
    same way: "ends with", "contains", or "contains a, and later b". */
module Classify {
  import opened Text

  datatype Level = Safe | Caution | Danger | Unknown

  /** The description the backend attaches to each outcome. */
  datatype Note =
    | OldDriverPackage      // ota-artifacts installer
    | DriverComponent       // ota-artifacts driver file
    | VenvDependency        // venv site-packages
    | BrowserModelCache     // Chrome / Edge on-device model
    | TempInstaller         // .exe inside a temp or cache folder
    | SystemFile            // a program or system file
    | TempOrCache           // a match in the safe table
    | UserFile              // a match in the caution table
    | NeedsReview           // nothing matched

  datatype Recommendation = Recommendation(level: Level, note: Note)

  function NormChar(c: char): char
  {
    if IsSep(c) then '/' else LowerChar(c)
  }

  /** The path as the case-insensitive rules see it. */
  function Norm(p: string): (r: string)
    ensures |r| == |p|
    ensures forall i :: 0 <= i < |p| ==> r[i] == NormChar(p[i])
  {
    seq(|p|, i requires 0 <= i < |p| => NormChar(p[i]))
  }

  /** One rule of the tables, on the normalised path. */
  datatype Pattern =
    | EndsIn(s: string)           // /...s$/i
    | Within(s: string)           // /...s.../i
    | Then(a: string, b: string)  // /a.*b/i

  /** `b` occurs in `s` starting at or after the end of an occurrence of `a`. */
  predicate HasThen(s: string, a: string, b: string)
  {
    exists i: nat, j: nat | i <= j <= |s| :: OccursAt(s, a, i) && i + |a| <= j && OccursAt(s, b, j)
  }

  predicate Matches(pat: Pattern, s: string)
  {
    match pat
    case EndsIn(x) => EndsWith(s, x)
    case Within(x) => Contains(s, x)
    case Then(a, b) => HasThen(s, a, b)
  }

  predicate AnyMatches(table: seq<Pattern>, s: string)
  {
    exists k :: 0 <= k < |table| && Matches(table[k], s)
  }

  /** DELETE_RULES.safe, in source order, by the groups the source uses. */
  const SAFE_RULES: seq<Pattern> :=
    SAFE_BASIC + SAFE_NODE + SAFE_PYTHON + SAFE_DEV + SAFE_SYSTEM + SAFE_BROWSER + SAFE_NVIDIA + SAFE_OTHER

  /** Basic temporary and cache folders, and junk extensions. */
  const SAFE_BASIC: seq<Pattern> := SAFE_TEMP + [
    EndsIn("/cache"), EndsIn("/cache"), Within("/cache/"),
    EndsIn("/caches"), Within("/caches/"),
    EndsIn("/.cache"), Within("/.cache/"),
    EndsIn("/crashdumps"), Within("/crashdumps/"),
    EndsIn("/logs"), Within("/logs/"),
    EndsIn(".tmp"), EndsIn(".log"), EndsIn(".bak"), EndsIn(".old"),
    EndsIn("thumbs.db"), EndsIn("desktop.ini")
  ]

  const SAFE_TEMP: seq<Pattern> := [EndsIn("/temp"), Within("/temp/")]

  const SAFE_NODE: seq<Pattern> := [
    EndsIn("/npm-cache"), Within("/npm-cache/"),
    EndsIn("/node_modules"), Within("/node_modules/")
  ]

  const SAFE_PYTHON: seq<Pattern> := [
    EndsIn("/__pycache__"), Within("/__pycache__/"),
    EndsIn("/uv"), Within("/uv/"),
    Within("/pip/cache")
  ]

  const SAFE_DEV: seq<Pattern> := [
    EndsIn("/.nuget"),
    Within("/.gradle/caches"),
    EndsIn("/huggingface"), Within("/huggingface/"),
    EndsIn("/torch/hub"),
    EndsIn("/installer")
  ]

  const SAFE_SYSTEM: seq<Pattern> := [
    EndsIn("/appdata/local/temp"), Within("/appdata/local/temp/"),
    EndsIn("/windows/temp"), Within("/windows/temp/"),
    Within("/softwaredistribution/download")
  ]

  const SAFE_BROWSER: seq<Pattern> := [
    Then("/chrome/user data/", "/cache"),
    Then("/edge/user data/", "/cache"),
    Within("/optguideondevicemodel/"),
    Within("/provenancedata/"),
    Within("/crx_cache/"),
    Within("/component_crx_cache/"),
    Within("/cachedextensionvsixs/"), EndsIn("/cachedextensionvsixs")
  ]

  const SAFE_NVIDIA: seq<Pattern> := [
    Then("/nvidia/", "/ota-artifacts/"),
    Within("/updateframework/ota-artifacts/")
  ]

  const SAFE_OTHER: seq<Pattern> := [
    EndsIn("/electron/cache"),
    Then("/microsoft/edge/", "/cache")
  ]

  /** DELETE_RULES.caution, in source order. */
  const CAUTION_RULES: seq<Pattern> := [
    EndsIn("/downloads"), Within("/downloads/"),
    Within("/documents/"), Within("/desktop/"), Within("/videos/"),
    Within("/pictures/"), Within("/music/"),
    EndsIn(".zip"), EndsIn(".rar"), EndsIn(".7z"), EndsIn(".iso"),
    EndsIn(".mp4"), EndsIn(".mkv"), EndsIn(".avi"), EndsIn(".mov"),
    EndsIn(".pdf"), EndsIn(".doc"), EndsIn(".docx"), EndsIn(".ppt"),
    EndsIn(".pptx"), EndsIn(".xls"), EndsIn(".xlsx"),
    EndsIn(".safetensors"), EndsIn(".ckpt"), EndsIn(".bin"), EndsIn(".pth")
  ]

  /** DELETE_RULES.danger, in source order. */
  const DANGER_RULES: seq<Pattern> := [
    Within("/windows/system32"), Within("/windows/syswow64"), Within("/windows/winsxs"),
    EndsIn(".exe"), EndsIn(".dll"), EndsIn(".sys"), EndsIn(".msi"),
    Within("/$recycle.bin/"), Within("/system volume information/")
  ]

  /** Extensions of program files, danger unless special-cased. */
  const PROGRAM_EXTS: seq<string> := [".dll", ".sys", ".exe", ".msi"]

  /** path.extname of the lowered basename. */
  function ExtOf(p: string): string
  {
    ExtName(Lower(BaseName(p)))
  }

  predicate IsOta(s: string) { Contains(s, "ota-artifacts") }

  predicate IsVenvPackage(s: string)
  {
    HasThen(s, "/venv/", "site-packages/") || HasThen(s, "/.venv/", "site-packages/")
  }

  predicate IsBrowserModel(s: string)
  {
    Contains(s, "optguideondevicemodel") || Contains(s, "provenancedata")
  }

  /** A Temp, Cache, npm-cache or -updater segment: where installers may go. */
  predicate InTempPlace(s: string)
  {
    Contains(s, "/temp/") || Contains(s, "/cache/") || Contains(s, "/npm-cache/") || Contains(s, "/-updater/")
  }

  /** getDeleteRecommendation. */
  function Recommend(p: string): (r: Recommendation)
    ensures r.level == Safe <==> r.note in {OldDriverPackage, BrowserModelCache, TempInstaller, TempOrCache}
    ensures r.level == Unknown <==> r.note == NeedsReview
  {
    var s := Norm(p);
    var ext := ExtOf(p);
    if IsOta(s) && (ext == ".exe" || ext == ".zip") then Recommendation(Safe, OldDriverPackage)
    else if IsOta(s) && (ext == ".dll" || ext == ".sys" || ext == ".so") then Recommendation(Danger, DriverComponent)
    else if IsVenvPackage(s) then Recommendation(Caution, VenvDependency)
    else if IsBrowserModel(s) then Recommendation(Safe, BrowserModelCache)
    else if ext in PROGRAM_EXTS then
      (if InTempPlace(s) && ext == ".exe" then Recommendation(Safe, TempInstaller)
       else Recommendation(Danger, SystemFile))
    else TableVerdict(s)
  }

  /** The three table loops: the first table with a matching rule decides. */
  function TableVerdict(s: string): (r: Recommendation)
    ensures r.level == Safe <==> AnyMatches(SAFE_RULES, s)
    ensures r.level == Unknown <==>
      !AnyMatches(SAFE_RULES, s) && !AnyMatches(CAUTION_RULES, s) && !AnyMatches(DANGER_RULES, s)
  {
    if AnyMatches(SAFE_RULES, s) then Recommendation(Safe, TempOrCache)
    else if AnyMatches(CAUTION_RULES, s) then Recommendation(Caution, UserFile)
    else if AnyMatches(DANGER_RULES, s) then Recommendation(Danger, SystemFile)
    else Recommendation(Unknown, NeedsReview)
  }

  // ---------------------------------------------------------------------
  // Reference: the same decision as one ordered rule list, first match wins.

  /** A guard of the ordered rule list. */
  datatype Guard =
    | PathIs(pat: Pattern)                // a table rule on the normalised path
    | ExtIs(exts: seq<string>)            // the extension is one of these
    | PathAndExt(pat: Pattern, exts: seq<string>)
    | PathAnyAndExt(pats: seq<Pattern>, exts: seq<string>)
    | AnyPath(pats: seq<Pattern>)

  datatype Rule = Rule(guard: Guard, outcome: Recommendation)

  predicate Holds(g: Guard, s: string, ext: string)
  {
    match g
    case PathIs(pat) => Matches(pat, s)
    case ExtIs(exts) => ext in exts
    case PathAndExt(pat, exts) => Matches(pat, s) && ext in exts
    case PathAnyAndExt(pats, exts) => AnyMatches(pats, s) && ext in exts
    case AnyPath(pats) => AnyMatches(pats, s)
  }

  /** Index of the first rule whose guard holds, |rules| when none does. */
  function FirstHolding(rules: seq<Rule>, s: string, ext: string): (k: nat)
    ensures k <= |rules|
    ensures k < |rules| ==> Holds(rules[k].guard, s, ext)
    ensures forall i :: 0 <= i < k ==> !Holds(rules[i].guard, s, ext)
  {
    if rules == [] then 0
    else if Holds(rules[0].guard, s, ext) then 0
    else 1 + FirstHolding(rules[1..], s, ext)
  }

  /** The outcome of the first rule whose guard holds, `deflt` when none does. */
  function FirstMatch(rules: seq<Rule>, s: string, ext: string, deflt: Recommendation): Recommendation
  {
    var k := FirstHolding(rules, s, ext);
    if k < |rules| then rules[k].outcome else deflt
  }

  function TableRules(table: seq<Pattern>, outcome: Recommendation): (r: seq<Rule>)
    ensures |r| == |table|
    ensures forall k :: 0 <= k < |table| ==> r[k] == Rule(PathIs(table[k]), outcome)
  {
    seq(|table|, k requires 0 <= k < |table| => Rule(PathIs(table[k]), outcome))
  }

  const VENV_RULES: seq<Pattern> := [Then("/venv/", "site-packages/"), Then("/.venv/", "site-packages/")]
  const MODEL_RULES: seq<Pattern> := [Within("optguideondevicemodel"), Within("provenancedata")]
  const TEMP_PLACES: seq<Pattern> := [Within("/temp/"), Within("/cache/"), Within("/npm-cache/"), Within("/-updater/")]

  /** The hand-written special cases, in the order they are tried. */
  const SPECIAL_RULES: seq<Rule> := [
    Rule(PathAndExt(Within("ota-artifacts"), [".exe", ".zip"]), Recommendation(Safe, OldDriverPackage)),
    Rule(PathAndExt(Within("ota-artifacts"), [".dll", ".sys", ".so"]), Recommendation(Danger, DriverComponent)),
    Rule(AnyPath(VENV_RULES), Recommendation(Caution, VenvDependency)),
    Rule(AnyPath(MODEL_RULES), Recommendation(Safe, BrowserModelCache)),
    Rule(PathAnyAndExt(TEMP_PLACES, [".exe"]), Recommendation(Safe, TempInstaller)),
    Rule(ExtIs(PROGRAM_EXTS), Recommendation(Danger, SystemFile))
  ]

  /** Every rule in the order getDeleteRecommendation tries it. */
  function AllRules(): seq<Rule>
  {
    SPECIAL_RULES
    + TableRules(SAFE_RULES, Recommendation(Safe, TempOrCache))
    + TableRules(CAUTION_RULES, Recommendation(Caution, UserFile))
    + TableRules(DANGER_RULES, Recommendation(Danger, SystemFile))
  }

  lemma {:induction false} FirstHoldingAppend(a: seq<Rule>, b: seq<Rule>, s: string, ext: string)
    ensures FirstHolding(a + b, s, ext) ==
      if FirstHolding(a, s, ext) < |a| then FirstHolding(a, s, ext) else |a| + FirstHolding(b, s, ext)
  {
    if a != [] {
      assert (a + b)[0] == a[0];
      assert (a + b)[1..] == a[1..] + b;
      FirstHoldingAppend(a[1..], b, s, ext);
    } else {
      assert a + b == b;
    }
  }

  lemma FirstMatchAppend(a: seq<Rule>, b: seq<Rule>, s: string, ext: string, d: Recommendation)
    ensures FirstMatch(a + b, s, ext, d) == FirstMatch(a, s, ext, FirstMatch(b, s, ext, d))
  {
    FirstHoldingAppend(a, b, s, ext);
    var k := FirstHolding(a, s, ext);
    if k >= |a| {
      var j := FirstHolding(b, s, ext);
      if j < |b| {
        assert (a + b)[|a| + j] == b[j];
      }
    } else {
      assert (a + b)[k] == a[k];
    }
  }

  /** A table whose rules all lead to the same outcome is decided by whether
      any of its rules matches. */
  lemma {:induction false} FirstMatchTable(table: seq<Pattern>, o: Recommendation, s: string, ext: string, d: Recommendation)
    ensures FirstMatch(TableRules(table, o), s, ext, d) == if AnyMatches(table, s) then o else d
  {
    if table != [] {
      var rs := TableRules(table, o);
      assert rs[1..] == TableRules(table[1..], o);
      FirstMatchTable(table[1..], o, s, ext, d);
      if AnyMatches(table[1..], s) {
        var k :| 0 <= k < |table[1..]| && Matches(table[1..][k], s);
        assert Matches(table[k + 1], s);
      }
      if AnyMatches(table, s) && !Matches(table[0], s) {
        var k :| 0 <= k < |table| && Matches(table[k], s);
        assert Matches(table[1..][k - 1], s);
      }
    }
  }

  lemma AnyMatchesPair(a: Pattern, b: Pattern, s: string)
    ensures AnyMatches([a, b], s) <==> Matches(a, s) || Matches(b, s)
  {
    if Matches(a, s) {
      assert Matches([a, b][0], s);
    }
    if Matches(b, s) {
      assert Matches([a, b][1], s);
    }
    if AnyMatches([a, b], s) {
      var k :| 0 <= k < 2 && Matches([a, b][k], s);
      assert k == 0 || k == 1;
    }
  }

  lemma TempPlacesMatch(s: string)
    ensures AnyMatches(TEMP_PLACES, s) <==> InTempPlace(s)
  {
    if Contains(s, "/temp/") { assert Matches(TEMP_PLACES[0], s); }
    if Contains(s, "/cache/") { assert Matches(TEMP_PLACES[1], s); }
    if Contains(s, "/npm-cache/") { assert Matches(TEMP_PLACES[2], s); }
    if Contains(s, "/-updater/") { assert Matches(TEMP_PLACES[3], s); }
  }

  lemma FirstMatchOne(r: Rule, s: string, ext: string, d: Recommendation)
    ensures FirstMatch([r], s, ext, d) == if Holds(r.guard, s, ext) then r.outcome else d
  {
  }

  /** The special case at index k is tried before those after it. */
  lemma SpecialStep(k: nat, s: string, ext: string, d: Recommendation)
    requires k < |SPECIAL_RULES|
    ensures FirstMatch(SPECIAL_RULES[k..], s, ext, d) ==
      if Holds(SPECIAL_RULES[k].guard, s, ext) then SPECIAL_RULES[k].outcome
      else FirstMatch(SPECIAL_RULES[k + 1..], s, ext, d)
  {
    var rs := SPECIAL_RULES[k..];
    assert rs[0] == SPECIAL_RULES[k];
    assert rs[1..] == SPECIAL_RULES[k + 1..];
    if !Holds(rs[0].guard, s, ext) {
      var j := FirstHolding(rs[1..], s, ext);
      if j < |rs| - 1 {
        assert rs[1 + j] == rs[1..][j];
      }
    }
  }

  /** What each special case's guard tests, in the source's terms. */
  lemma SpecialGuards(s: string, ext: string)
    ensures Holds(SPECIAL_RULES[0].guard, s, ext) <==> IsOta(s) && (ext == ".exe" || ext == ".zip")
    ensures Holds(SPECIAL_RULES[1].guard, s, ext) <==> IsOta(s) && (ext == ".dll" || ext == ".sys" || ext == ".so")
    ensures Holds(SPECIAL_RULES[2].guard, s, ext) <==> IsVenvPackage(s)
    ensures Holds(SPECIAL_RULES[3].guard, s, ext) <==> IsBrowserModel(s)
    ensures Holds(SPECIAL_RULES[4].guard, s, ext) <==> InTempPlace(s) && ext == ".exe"
    ensures Holds(SPECIAL_RULES[5].guard, s, ext) <==> ext in PROGRAM_EXTS
  {
    AnyMatchesPair(VENV_RULES[0], VENV_RULES[1], s);
    AnyMatchesPair(MODEL_RULES[0], MODEL_RULES[1], s);
    TempPlacesMatch(s);
  }

  /** The special cases, read as a rule list, are the if-chain of the source. */
  lemma SpecialRulesChain(s: string, ext: string, d: Recommendation)
    ensures FirstMatch(SPECIAL_RULES, s, ext, d) ==
      if IsOta(s) && (ext == ".exe" || ext == ".zip") then Recommendation(Safe, OldDriverPackage)
      else if IsOta(s) && (ext == ".dll" || ext == ".sys" || ext == ".so") then Recommendation(Danger, DriverComponent)
      else if IsVenvPackage(s) then Recommendation(Caution, VenvDependency)
      else if IsBrowserModel(s) then Recommendation(Safe, BrowserModelCache)
      else if ext in PROGRAM_EXTS then
        (if InTempPlace(s) && ext == ".exe" then Recommendation(Safe, TempInstaller)
         else Recommendation(Danger, SystemFile))
      else d
  {
    assert SPECIAL_RULES[0..] == SPECIAL_RULES;
    SpecialStep(0, s, ext, d);
    SpecialStep(1, s, ext, d);
    SpecialStep(2, s, ext, d);
    SpecialStep(3, s, ext, d);
    SpecialStep(4, s, ext, d);
    SpecialStep(5, s, ext, d);
    assert SPECIAL_RULES[6..] == [];
    SpecialGuards(s, ext);
    assert ".exe" in PROGRAM_EXTS;
  }

  /** The table loops, read as a rule list, are TableVerdict. */
  lemma TableRulesChain(s: string, ext: string)
    ensures FirstMatch(TableRules(SAFE_RULES, Recommendation(Safe, TempOrCache))
                       + (TableRules(CAUTION_RULES, Recommendation(Caution, UserFile))
                          + TableRules(DANGER_RULES, Recommendation(Danger, SystemFile))),
                       s, ext, Recommendation(Unknown, NeedsReview)) == TableVerdict(s)
  {
    var u := Recommendation(Unknown, NeedsReview);
    var safeR := TableRules(SAFE_RULES, Recommendation(Safe, TempOrCache));
    var cautR := TableRules(CAUTION_RULES, Recommendation(Caution, UserFile));
    var dangR := TableRules(DANGER_RULES, Recommendation(Danger, SystemFile));
    FirstMatchAppend(safeR, cautR + dangR, s, ext, u);
    FirstMatchAppend(cautR, dangR, s, ext, u);
    FirstMatchTable(DANGER_RULES, Recommendation(Danger, SystemFile), s, ext, u);
    var d3 := FirstMatch(dangR, s, ext, u);
    FirstMatchTable(CAUTION_RULES, Recommendation(Caution, UserFile), s, ext, d3);
    var d2 := FirstMatch(cautR, s, ext, d3);
    FirstMatchTable(SAFE_RULES, Recommendation(Safe, TempOrCache), s, ext, d2);
  }

  /** getDeleteRecommendation is exactly "first matching rule wins" over the
      special cases followed by the safe, caution and danger tables. */
  lemma RecommendIsFirstMatch(p: string)
    ensures Recommend(p) == FirstMatch(AllRules(), Norm(p), ExtOf(p), Recommendation(Unknown, NeedsReview))
  {
    var s, ext := Norm(p), ExtOf(p);
    var u := Recommendation(Unknown, NeedsReview);
    var tables := TableRules(SAFE_RULES, Recommendation(Safe, TempOrCache))
      + (TableRules(CAUTION_RULES, Recommendation(Caution, UserFile))
         + TableRules(DANGER_RULES, Recommendation(Danger, SystemFile)));
    assert AllRules() == SPECIAL_RULES + tables;
    FirstMatchAppend(SPECIAL_RULES, tables, s, ext, u);
    TableRulesChain(s, ext);
    SpecialRulesChain(s, ext, TableVerdict(s));
  }

  /** No rule of the list has the outcome unknown. */
  lemma NoRuleIsUnknown(k: nat)
    requires k < |AllRules()|
    ensures AllRules()[k].outcome.level != Unknown
  {
    var tables := TableRules(SAFE_RULES, Recommendation(Safe, TempOrCache))
      + (TableRules(CAUTION_RULES, Recommendation(Caution, UserFile))
         + TableRules(DANGER_RULES, Recommendation(Danger, SystemFile)));
    assert AllRules() == SPECIAL_RULES + tables;
    if k >= |SPECIAL_RULES| {
      assert AllRules()[k] == tables[k - |SPECIAL_RULES|];
    }
  }

  /** Unknown exactly when no rule of any table or special case applies. */
  lemma UnknownIff(p: string)
    ensures Recommend(p).level == Unknown <==>
      forall k :: 0 <= k < |AllRules()| ==> !Holds(AllRules()[k].guard, Norm(p), ExtOf(p))
  {
    RecommendIsFirstMatch(p);
    var k := FirstHolding(AllRules(), Norm(p), ExtOf(p));
    if k < |AllRules()| {
      NoRuleIsUnknown(k);
    }
  }

  // ---------------------------------------------------------------------
  // The properties the special cases exist for.

  /** Any path under an ota-artifacts folder: installers are safe, driver
      components are danger, before any other rule is consulted. */
  lemma OtaDecides(p: string)
    requires IsOta(Norm(p))
    ensures ExtOf(p) in [".exe", ".zip"] ==> Recommend(p) == Recommendation(Safe, OldDriverPackage)
    ensures ExtOf(p) in [".dll", ".sys", ".so"] ==> Recommend(p) == Recommendation(Danger, DriverComponent)
  {
    var ext := ExtOf(p);
    if ext in [".dll", ".sys", ".so"] {
      assert ext == ".dll" || ext == ".sys" || ext == ".so";
      assert ext != ".exe" && ext != ".zip";
    }
  }

  /** Under one ota-artifacts folder an installer is safe and a driver
      component is danger: the same parent gives different tiers. */
  lemma OtaSameParentDiffers(dir: string, stem: string)
    requires Contains(Norm(dir), "ota-artifacts")
    requires stem != [] && NoSep(stem) && forall i :: 0 <= i < |stem| ==> stem[i] != '.'
    ensures Recommend(Join(dir, stem + ".exe")).level == Safe
    ensures Recommend(Join(dir, stem + ".dll")).level == Danger
  {
    OtaFileLevel(dir, stem, ".exe");
    OtaFileLevel(dir, stem, ".dll");
  }

  lemma OtaFileLevel(dir: string, stem: string, ext: string)
    requires Contains(Norm(dir), "ota-artifacts")
    requires stem != [] && NoSep(stem) && forall i :: 0 <= i < |stem| ==> stem[i] != '.'
    requires ext in [".exe", ".dll"]
    ensures Recommend(Join(dir, stem + ext)).level == if ext == ".exe" then Safe else Danger
  {
    OtaFile(dir, stem, ext);
    OtaDecides(Join(dir, stem + ext));
  }

  /** A file `stem + ext` placed in an ota-artifacts folder. */
  lemma OtaFile(dir: string, stem: string, ext: string)
    requires Contains(Norm(dir), "ota-artifacts")
    requires stem != [] && NoSep(stem) && forall i :: 0 <= i < |stem| ==> stem[i] != '.'
    requires |ext| >= 2 && ext[0] == '.' && NoSep(ext)
    requires forall i :: 1 <= i < |ext| ==> ext[i] != '.' && !('A' <= ext[i] <= 'Z')
    ensures IsOta(Norm(Join(dir, stem + ext))) && ExtOf(Join(dir, stem + ext)) == ext
  {
    OtaKeptOnJoin(dir, stem + ext);
    NamedExt(dir, stem, ext);
  }

  lemma OtaKeptOnJoin(dir: string, name: string)
    requires Contains(Norm(dir), "ota-artifacts")
    ensures IsOta(Norm(Join(dir, name)))
  {
    var j := Join(dir, name);
    assert Norm(j) == Norm(dir) + Norm("\\" + name);
    ContainsPrefix(Norm(dir), Norm("\\" + name), "ota-artifacts");
  }

  /** The extension the classifier sees for a file `stem + ext` in `dir`. */
  lemma NamedExt(dir: string, stem: string, ext: string)
    requires stem != [] && NoSep(stem) && forall i :: 0 <= i < |stem| ==> stem[i] != '.'
    requires |ext| >= 2 && ext[0] == '.' && NoSep(ext)
    requires forall i :: 1 <= i < |ext| ==> ext[i] != '.' && !('A' <= ext[i] <= 'Z')
    ensures ExtOf(Join(dir, stem + ext)) == ext
  {
    var name := stem + ext;
    NoSepConcat(stem, ext);
    BaseNameOfJoin(dir, name);
    LowerKeepsExt(stem, ext);
    ExtNameOfSuffix(Lower(stem), ext);
  }

  lemma NoSepConcat(a: string, b: string)
    requires NoSep(a) && NoSep(b)
    ensures NoSep(a + b)
  {
    forall i | 0 <= i < |a + b| ensures !IsSep((a + b)[i]) {
      if i >= |a| { assert (a + b)[i] == b[i - |a|]; }
    }
  }

  lemma LowerKeepsExt(stem: string, ext: string)
    requires forall i :: 0 <= i < |ext| ==> !('A' <= ext[i] <= 'Z')
    ensures Lower(stem + ext) == Lower(stem) + ext
  {
    var name := stem + ext;
    var low := Lower(name);
    forall i | 0 <= i < |low| ensures low[i] == (Lower(stem) + ext)[i] {
      if i >= |stem| { assert name[i] == ext[i - |stem|]; }
    }
  }

  /** The .exe exception does not extend to other program files: a .dll in a
      Temp folder stays danger (unless a special case above it applies). */
  lemma DllInTempIsDanger(p: string)
    requires ExtOf(p) == ".dll"
    requires !IsOta(Norm(p)) && !IsVenvPackage(Norm(p)) && !IsBrowserModel(Norm(p))
    ensures Recommend(p) == Recommendation(Danger, SystemFile)
  {
  }

  /** An .exe in a Temp, Cache, npm-cache or -updater folder is safe. */
  lemma ExeInTempIsSafe(p: string)
    requires ExtOf(p) == ".exe" && InTempPlace(Norm(p))
    requires !IsVenvPackage(Norm(p)) && !IsBrowserModel(Norm(p))
    ensures Recommend(p).level == Safe
  {
  }

  /** The safe table is tried before the caution table: a .zip under \Temp\
      is safe, not caution. */
  lemma ZipUnderTempIsSafe(p: string)
    requires ExtOf(p) == ".zip" && Contains(Norm(p), "/temp/")
    requires !IsOta(Norm(p)) && !IsVenvPackage(Norm(p)) && !IsBrowserModel(Norm(p))
    ensures Recommend(p) == Recommendation(Safe, TempOrCache)
  {
    assert ".zip" !in PROGRAM_EXTS;
    TablesDecide(p);
    var s := Norm(p);
    assert Matches(SAFE_TEMP[1], s);
    AnyMatchesPrefix(SAFE_TEMP, SAFE_BASIC[|SAFE_TEMP|..], s);
    assert SAFE_TEMP + SAFE_BASIC[|SAFE_TEMP|..] == SAFE_BASIC;
    var t := SAFE_BASIC;
    AnyMatchesPrefix(t, SAFE_NODE, s);
    t := t + SAFE_NODE;
    AnyMatchesPrefix(t, SAFE_PYTHON, s);
    t := t + SAFE_PYTHON;
    AnyMatchesPrefix(t, SAFE_DEV, s);
    t := t + SAFE_DEV;
    AnyMatchesPrefix(t, SAFE_SYSTEM, s);
    t := t + SAFE_SYSTEM;
    AnyMatchesPrefix(t, SAFE_BROWSER, s);
    t := t + SAFE_BROWSER;
    AnyMatchesPrefix(t, SAFE_NVIDIA, s);
    t := t + SAFE_NVIDIA;
    AnyMatchesPrefix(t, SAFE_OTHER, s);
  }

  lemma AnyMatchesPrefix(a: seq<Pattern>, b: seq<Pattern>, s: string)
    requires AnyMatches(a, s)
    ensures AnyMatches(a + b, s)
  {
    var k :| 0 <= k < |a| && Matches(a[k], s);
    assert (a + b)[k] == a[k];
  }

  /** A path no special case applies to is decided by the tables. */
  lemma TablesDecide(p: string)
    requires !IsOta(Norm(p)) && !IsVenvPackage(Norm(p)) && !IsBrowserModel(Norm(p))
    requires ExtOf(p) !in PROGRAM_EXTS
    ensures Recommend(p) == TableVerdict(Norm(p))
  {
  }

  lemma TempKeptOnJoin(dir: string, name: string)
    requires Contains(Norm(dir), "/temp/")
    ensures Contains(Norm(Join(dir, name)), "/temp/")
  {
    var j := Join(dir, name);
    assert Norm(j) == Norm(dir) + Norm("\\" + name);
    ContainsPrefix(Norm(dir), Norm("\\" + name), "/temp/");
  }

  /** A virtual-environment dependency is caution even where the safe table
      would call it a cache. */
  lemma VenvBeatsSafeTable(p: string)
    requires IsVenvPackage(Norm(p)) && !IsOta(Norm(p))
    ensures Recommend(p) == Recommendation(Caution, VenvDependency)
  {
  }

}
