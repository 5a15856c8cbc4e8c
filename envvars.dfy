/** expandEnvVars (electron/main.js:93-107): the five well-known
    `%NAME%` tokens are replaced, case-insensitively and everywhere, by their
    environment values or by defaults under the home folder; any other
    `%NAME%` left afterwards becomes its environment value, or disappears. */
module EnvVars {
  import opened Text

  /** The process environment. A `||` fallback treats a missing name and an
      empty value alike; the bare `process.env.TEMP` that ends the `%TMP%`
      row does not. */
  type Env = map<string, string>

  /** One row of the token table. */
  datatype Binding = Binding(key: string, value: string)

  /** `process.env[name]`, None when it is missing or empty. */
  function Get(env: Env, name: string): Option<string>
  {
    if name in env && env[name] != "" then Some(env[name]) else None
  }

  /** `a || d` on an optional string. */
  function Or(a: Option<string>, d: string): string
  {
    if a.Some? then a.value else d
  }

  /** path.join(home, 'AppData', 'Local', 'Temp') and its siblings. */
  function TempDefault(home: string): string { Join(Join(Join(home, "AppData"), "Local"), "Temp") }
  function LocalDefault(home: string): string { Join(Join(home, "AppData"), "Local") }
  function RoamingDefault(home: string): string { Join(Join(home, "AppData"), "Roaming") }

  /** The names of the five well-known tokens, in table order. */
  const TOKEN_NAMES: seq<string> := ["TEMP", "TMP", "LOCALAPPDATA", "APPDATA", "USERPROFILE"]

  /** `%NAME%`. */
  function Token(name: string): string { "%" + name + "%" }

  /** The table as written: `%TMP%` falls back to TEMP only, as it is; when
      TMP is unset or empty and TEMP is missing, String.prototype.replace
      inserts the text "undefined". */
  function TableAsWritten(env: Env, home: string): seq<Binding>
  {
    [Binding(Token("TEMP"), Or(Get(env, "TEMP"), TempDefault(home))),
     Binding(Token("TMP"), Or(Get(env, "TMP"), if "TEMP" in env then env["TEMP"] else "undefined")),
     Binding(Token("LOCALAPPDATA"), Or(Get(env, "LOCALAPPDATA"), LocalDefault(home))),
     Binding(Token("APPDATA"), Or(Get(env, "APPDATA"), RoamingDefault(home))),
     Binding(Token("USERPROFILE"), Or(Get(env, "USERPROFILE"), home))]
  }

  /** The table with `%TMP%` falling back as `%TEMP%` does. */
  function Table(env: Env, home: string): seq<Binding>
  {
    [Binding(Token("TEMP"), Or(Get(env, "TEMP"), TempDefault(home))),
     Binding(Token("TMP"), Or(Get(env, "TMP"), Or(Get(env, "TEMP"), TempDefault(home)))),
     Binding(Token("LOCALAPPDATA"), Or(Get(env, "LOCALAPPDATA"), LocalDefault(home))),
     Binding(Token("APPDATA"), Or(Get(env, "APPDATA"), RoamingDefault(home))),
     Binding(Token("USERPROFILE"), Or(Get(env, "USERPROFILE"), home))]
  }

  /** Every token of a table starts with `%`. */
  predicate WellFormed(table: seq<Binding>)
  {
    forall i :: 0 <= i < |table| ==> table[i].key != [] && table[i].key[0] == '%'
  }

  /** The key `k` occurs at index i of `s`, ignoring ASCII case (the gi
      regular expression built from the escaped key). */
  predicate MatchesAt(s: string, k: string, i: nat)
  {
    i + |k| <= |s| && forall j :: 0 <= j < |k| ==> LowerChar(s[i + j]) == LowerChar(k[j])
  }

  /** String.prototype.replace with a global, case-insensitive pattern:
      every occurrence, left to right and without overlap, becomes `v`. */
  function ReplaceAllCI(s: string, k: string, v: string): string
    requires k != []
    decreases |s|
  {
    if |s| < |k| then s
    else if MatchesAt(s, k, 0) then v + ReplaceAllCI(s[|k|..], k, v)
    else [s[0]] + ReplaceAllCI(s[1..], k, v)
  }

  /** The result of the loop over the table's first rows. */
  function ApplyTable(s: string, table: seq<Binding>): string
    requires WellFormed(table)
  {
    if table == [] then s
    else
      var b := table[|table| - 1];
      ReplaceAllCI(ApplyTable(s, table[..|table| - 1]), b.key, b.value)
  }

  /** The final `/%([^%]+)%/g` pass: a `%`, at least one other character and
      the next `%` make a token, replaced by its environment value or by
      nothing. A `%%` is no token; a `%` with no later `%` ends the matches. */
  function ExpandRemaining(s: string, env: Env): string
    decreases |s|
  {
    if s == [] then []
    else if s[0] != '%' then [s[0]] + ExpandRemaining(s[1..], env)
    else
      var j := IndexOf(s[1..], "%");
      if j == -1 then s
      else if j == 0 then "%" + ExpandRemaining(s[1..], env)
      else Or(Get(env, s[1..j + 1]), "") + ExpandRemaining(s[j + 2..], env)
  }

  /** expandEnvVars over a given token table. */
  function ExpandWithTable(s: string, table: seq<Binding>, env: Env): string
    requires WellFormed(table)
  {
    if s == [] then s else ExpandRemaining(ApplyTable(s, table), env)
  }

  /** expandEnvVars as written. */
  function ExpandAsWritten(s: string, env: Env, home: string): string
  {
    ExpandWithTable(s, TableAsWritten(env, home), env)
  }

  /** expandEnvVars with `%TMP%` falling back to the Temp folder. */
  function Expand(s: string, env: Env, home: string): string
  {
    ExpandWithTable(s, Table(env, home), env)
  }

  /** The loop of expandEnvVars: each row of the table is applied in turn,
      then the final pass. */
  method ExpandEnvVars(pathStr: string, table: seq<Binding>, env: Env) returns (r: string)
    requires WellFormed(table)
    ensures r == ExpandWithTable(pathStr, table, env)
  {
    if pathStr == [] {
      return pathStr;
    }
    var result := pathStr;
    for i := 0 to |table|
      invariant result == ApplyTable(pathStr, table[..i])
    {
      assert table[..i + 1][..i] == table[..i];
      result := ReplaceAllCI(result, table[i].key, table[i].value);
    }
    assert table[..|table|] == table;
    r := ExpandRemaining(result, env);
  }

  // ---------------------------------------------------------------------
  // Properties.

  lemma LowerCharPercent(c: char)
    ensures LowerChar(c) == '%' <==> c == '%'
  {
  }

  /** A token starting with `%` never matches inside text without `%`. */
  lemma {:induction false} ReplaceWithoutPercent(s: string, k: string, v: string)
    requires k != [] && k[0] == '%' && '%' !in s
    ensures ReplaceAllCI(s, k, v) == s
    decreases |s|
  {
    if |s| >= |k| {
      LowerCharPercent(s[0]);
      assert !MatchesAt(s, k, 0);
      assert '%' !in s[1..];
      ReplaceWithoutPercent(s[1..], k, v);
      assert s == [s[0]] + s[1..];
    }
  }

  lemma {:induction false} ApplyWithoutPercent(s: string, table: seq<Binding>)
    requires WellFormed(table) && '%' !in s
    ensures ApplyTable(s, table) == s
  {
    if table != [] {
      ApplyWithoutPercent(s, table[..|table| - 1]);
      ReplaceWithoutPercent(s, table[|table| - 1].key, table[|table| - 1].value);
    }
  }

  lemma {:induction false} RemainingWithoutPercent(s: string, env: Env)
    requires '%' !in s
    ensures ExpandRemaining(s, env) == s
    decreases |s|
  {
    if s != [] {
      assert '%' !in s[1..];
      RemainingWithoutPercent(s[1..], env);
      assert s == [s[0]] + s[1..];
    }
  }

  /** A path without `%` comes back unchanged, whatever the environment. */
  lemma WithoutPercentUnchanged(s: string, env: Env, home: string)
    requires '%' !in s
    ensures Expand(s, env, home) == s
    ensures ExpandAsWritten(s, env, home) == s
  {
    ApplyWithoutPercent(s, Table(env, home));
    ApplyWithoutPercent(s, TableAsWritten(env, home));
    RemainingWithoutPercent(s, env);
  }

  /** Same letters, ignoring ASCII case. */
  predicate SameSpelling(a: string, b: string)
  {
    |a| == |b| && forall j :: 0 <= j < |a| ==> LowerChar(a[j]) == LowerChar(b[j])
  }

  /** The rows of `table` are the tokens of `names`, in order. */
  predicate TokensOf(table: seq<Binding>, names: seq<string>)
  {
    |table| == |names| &&
    forall i :: 0 <= i < |table| ==> names[i] != [] && '%' !in names[i] && table[i].key == Token(names[i])
  }

  lemma TablesAreTokens(env: Env, home: string)
    ensures TokensOf(Table(env, home), TOKEN_NAMES) && WellFormed(Table(env, home))
    ensures TokensOf(TableAsWritten(env, home), TOKEN_NAMES) && WellFormed(TableAsWritten(env, home))
  {
    TableIsTokens(Table(env, home));
    TableIsTokens(TableAsWritten(env, home));
  }

  /** Any table whose keys are the five tokens in order. */
  lemma TableIsTokens(t: seq<Binding>)
    requires |t| == 5 && forall i :: 0 <= i < 5 ==> t[i].key == Token(TOKEN_NAMES[i])
    ensures TokensOf(t, TOKEN_NAMES) && WellFormed(t)
  {
    assert forall i :: 0 <= i < 5 ==> TOKEN_NAMES[i] != [] && '%' !in TOKEN_NAMES[i];
  }

  /** The well-known names have pairwise different lengths, so no two of
      them are spelled alike. */
  lemma TokenNamesDiffer(i: nat, m: nat)
    requires i < |TOKEN_NAMES| && m < |TOKEN_NAMES| && i != m
    ensures |TOKEN_NAMES[i]| != |TOKEN_NAMES[m]|
  {
  }

  /** A `%KEY%` pattern can match a `%NAME%` token followed by %-free text
      only at the token itself, and only when the two are spelled alike. */
  lemma TokenMatch(name: string, rest: string, kn: string, p: nat)
    requires '%' !in name && '%' !in rest && '%' !in kn
    requires MatchesAt(Token(name) + rest, Token(kn), p)
    ensures p == 0 && SameSpelling(name, kn)
  {
    var s := Token(name) + rest;
    var k := Token(kn);
    forall q | 0 < q < |name| + 1 ensures s[q] != '%' {
      assert s[q] == name[q - 1];
    }
    forall q | |name| + 1 < q < |s| ensures s[q] != '%' {
      assert s[q] == rest[q - |name| - 2];
    }
    assert LowerChar(s[p]) == LowerChar(k[0]);
    LowerCharPercent(s[p]);
    assert LowerChar(s[p + |k| - 1]) == LowerChar(k[|k| - 1]);
    LowerCharPercent(s[p + |k| - 1]);
    assert p == 0;
    assert |kn| == |name|;
    forall j | 0 <= j < |name| ensures LowerChar(name[j]) == LowerChar(kn[j]) {
      assert LowerChar(s[j + 1]) == LowerChar(k[j + 1]);
    }
  }

  /** Text in which the pattern never matches is left alone. */
  lemma {:induction false} NoMatchUnchanged(s: string, k: string, v: string)
    requires k != []
    requires forall p: nat :: !MatchesAt(s, k, p)
    ensures ReplaceAllCI(s, k, v) == s
    decreases |s|
  {
    if |s| >= |k| {
      assert !MatchesAt(s, k, 0);
      forall p: nat ensures !MatchesAt(s[1..], k, p) {
        if MatchesAt(s[1..], k, p) {
          assert MatchesAt(s, k, p + 1) by {
            forall j | 0 <= j < |k| ensures LowerChar(s[p + 1 + j]) == LowerChar(k[j]) {
              assert s[1..][p + j] == s[p + 1 + j];
            }
          }
        }
      }
      NoMatchUnchanged(s[1..], k, v);
      assert s == [s[0]] + s[1..];
    }
  }

  /** Rows whose pattern never matches leave the text alone. */
  lemma {:induction false} RowsWithoutMatch(s: string, table: seq<Binding>, m: nat)
    requires WellFormed(table) && m <= |table|
    requires forall i: nat, p: nat :: i < m ==> !MatchesAt(s, table[i].key, p)
    ensures ApplyTable(s, table[..m]) == s
  {
    if m > 0 {
      RowsWithoutMatch(s, table, m - 1);
      assert table[..m][..m - 1] == table[..m - 1];
      NoMatchUnchanged(s, table[m - 1].key, table[m - 1].value);
    }
  }

  /** Once no `%` is left, later rows change nothing. */
  lemma {:induction false} RowsAfterPercentGone(s: string, table: seq<Binding>, m0: nat, m: nat)
    requires WellFormed(table) && m0 <= m <= |table|
    requires '%' !in ApplyTable(s, table[..m0])
    ensures ApplyTable(s, table[..m]) == ApplyTable(s, table[..m0])
    decreases m
  {
    if m > m0 {
      RowsAfterPercentGone(s, table, m0, m - 1);
      assert table[..m][..m - 1] == table[..m - 1];
      ReplaceWithoutPercent(ApplyTable(s, table[..m0]), table[m - 1].key, table[m - 1].value);
    }
  }

  /** A leading token spelled like row i's name (in any letter case) becomes
      that row's value, when no other row's name has its length and nothing
      else carries a `%`. */
  lemma KnownTokenExpands(table: seq<Binding>, names: seq<string>, i: nat, name: string, rest: string)
    requires WellFormed(table) && TokensOf(table, names) && i < |table|
    requires SameSpelling(name, names[i])
    requires forall m :: 0 <= m < |names| && m != i ==> |names[m]| != |name|
    requires '%' !in name && '%' !in rest && '%' !in table[i].value
    ensures ApplyTable(Token(name) + rest, table) == table[i].value + rest
  {
    var s := Token(name) + rest;
    forall m: nat, p: nat | m < i ensures !MatchesAt(s, table[m].key, p) {
      if MatchesAt(s, table[m].key, p) {
        TokenMatch(name, rest, names[m], p);
      }
    }
    RowsWithoutMatch(s, table, i);
    var k := table[i].key;
    assert MatchesAt(s, k, 0);
    assert s[|k|..] == rest;
    ReplaceWithoutPercent(rest, k, table[i].value);
    assert table[..i + 1][..i] == table[..i];
    assert ApplyTable(s, table[..i + 1]) == table[i].value + rest;
    RowsAfterPercentGone(s, table, i + 1, |table|);
    assert table[..|table|] == table;
  }

  /** The final pass on a `%NAME%` token followed by %-free text. */
  lemma RemainingToken(name: string, rest: string, env: Env)
    requires name != [] && '%' !in name && '%' !in rest
    ensures ExpandRemaining(Token(name) + rest, env) == Or(Get(env, name), "") + rest
  {
    var s := Token(name) + rest;
    var j := IndexOf(s[1..], "%");
    assert OccursAt(s[1..], "%", |name|);
    forall q: nat | q < |name| ensures !OccursAt(s[1..], "%", q) {
      assert s[1..][q] == name[q];
    }
    assert j == |name|;
    assert s[1..j + 1] == name;
    assert s[j + 2..] == rest;
    RemainingWithoutPercent(rest, env);
  }

  /** `%TEMP%`, in any letter case, becomes TEMP or the Temp folder under
      the home folder. */
  lemma TempExpands(name: string, rest: string, env: Env, home: string)
    requires SameSpelling(name, "TEMP") && '%' !in rest
    requires '%' !in Or(Get(env, "TEMP"), TempDefault(home))
    ensures Expand(Token(name) + rest, env, home) == Or(Get(env, "TEMP"), TempDefault(home)) + rest
  {
    KnownRow(0, name, rest, env, home);
  }

  /** Row i of the table expands its own token, in any letter case. */
  lemma KnownRow(i: nat, name: string, rest: string, env: Env, home: string)
    requires i < |TOKEN_NAMES| && SameSpelling(name, TOKEN_NAMES[i]) && '%' !in rest
    requires '%' !in Table(env, home)[i].value
    ensures Expand(Token(name) + rest, env, home) == Table(env, home)[i].value + rest
  {
    var table := Table(env, home);
    TablesAreTokens(env, home);
    TokenNameNoPercent(i, name);
    forall m | 0 <= m < |TOKEN_NAMES| && m != i ensures |TOKEN_NAMES[m]| != |name| {
      TokenNamesDiffer(i, m);
    }
    KnownTokenExpands(table, TOKEN_NAMES, i, name, rest);
    RemainingWithoutPercent(table[i].value + rest, env);
  }

  /** Any other `%NAME%` becomes its environment value, or disappears when
      the variable is unset. */
  lemma UnknownTokenExpands(name: string, rest: string, env: Env, home: string)
    requires name != [] && '%' !in name && '%' !in rest
    requires forall i :: 0 <= i < |TOKEN_NAMES| ==> !SameSpelling(name, TOKEN_NAMES[i])
    ensures Expand(Token(name) + rest, env, home) == Or(Get(env, name), "") + rest
  {
    var table := Table(env, home);
    var s := Token(name) + rest;
    TablesAreTokens(env, home);
    forall m: nat, p: nat | m < |table| ensures !MatchesAt(s, table[m].key, p) {
      if MatchesAt(s, table[m].key, p) {
        TokenMatch(name, rest, TOKEN_NAMES[m], p);
      }
    }
    RowsWithoutMatch(s, table, |table|);
    assert table[..|table|] == table;
    RemainingToken(name, rest, env);
  }

  /** As written, `%TMP%` (in any letter case) with TMP unset or empty and
      TEMP missing expands to the text "undefined". */
  lemma TmpUndefinedAsWritten(name: string, rest: string, env: Env, home: string)
    requires SameSpelling(name, "TMP") && '%' !in rest
    requires Get(env, "TMP").None? && "TEMP" !in env
    ensures ExpandAsWritten(Token(name) + rest, env, home) == "undefined" + rest
  {
    var table := TableAsWritten(env, home);
    TablesAreTokens(env, home);
    TokenNameNoPercent(1, name);
    forall m | 0 <= m < |TOKEN_NAMES| && m != 1 ensures |TOKEN_NAMES[m]| != |name| {
      TokenNamesDiffer(1, m);
    }
    assert table[1].value == "undefined";
    KnownTokenExpands(table, TOKEN_NAMES, 1, name, rest);
    RemainingWithoutPercent("undefined" + rest, env);
  }

  /** As written, `%TMP%` with TMP unset or empty and TEMP present expands to
      TEMP's value as it is, even when that is empty; the home default is
      never used. */
  lemma TmpRawTempAsWritten(name: string, rest: string, env: Env, home: string)
    requires SameSpelling(name, "TMP") && '%' !in rest
    requires Get(env, "TMP").None? && "TEMP" in env && '%' !in env["TEMP"]
    ensures ExpandAsWritten(Token(name) + rest, env, home) == env["TEMP"] + rest
    ensures env["TEMP"] == "" ==> ExpandAsWritten(Token(name) + rest, env, home) == rest
  {
    var table := TableAsWritten(env, home);
    TablesAreTokens(env, home);
    TokenNameNoPercent(1, name);
    forall m | 0 <= m < |TOKEN_NAMES| && m != 1 ensures |TOKEN_NAMES[m]| != |name| {
      TokenNamesDiffer(1, m);
    }
    assert table[1].value == env["TEMP"];
    KnownTokenExpands(table, TOKEN_NAMES, 1, name, rest);
    RemainingWithoutPercent(env["TEMP"] + rest, env);
    assert "" + rest == rest;
  }

  /** A name spelled like a well-known one carries no `%`. */
  lemma TokenNameNoPercent(i: nat, name: string)
    requires i < |TOKEN_NAMES| && SameSpelling(name, TOKEN_NAMES[i])
    ensures '%' !in name
  {
    forall j | 0 <= j < |name| ensures name[j] != '%' {
      LowerCharPercent(name[j]);
      LowerCharPercent(TOKEN_NAMES[i][j]);
    }
  }

  /** The default Temp folder under a home folder without `%` has none. */
  lemma TempDefaultNoPercent(home: string)
    requires '%' !in home
    ensures '%' !in TempDefault(home)
  {
    assert TempDefault(home) == home + "\\AppData" + "\\Local" + "\\Temp";
  }

  /** Corrected: `%TMP%` with TMP unset expands exactly as `%TEMP%` does. */
  lemma TmpFallsBackLikeTemp(name: string, rest: string, env: Env, home: string)
    requires SameSpelling(name, "TMP") && '%' !in rest && Get(env, "TMP").None?
    requires '%' !in Or(Get(env, "TEMP"), TempDefault(home))
    ensures Expand(Token(name) + rest, env, home) == Expand(Token("TEMP") + rest, env, home)
    ensures Expand(Token(name) + rest, env, home) == Or(Get(env, "TEMP"), TempDefault(home)) + rest
  {
    KnownRow(1, name, rest, env, home);
    KnownRow(0, "TEMP", rest, env, home);
  }
}
