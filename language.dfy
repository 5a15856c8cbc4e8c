/** The interface language of the renderer (src/composables/useLanguage.ts):
    one global current language, chosen at start from the saved setting or
    the system language, switched by toggle or set and persisted in local
    storage, and the translate function that looks a key up in the current
    language's table and fills in `{name}` placeholders. */
module Language {
  import opened Text

  datatype Lang = Zh | En

  /** The value stored for a language, as in the `Language` type. */
  function Code(l: Lang): string
  {
    match l
    case Zh => "zh"
    case En => "en"
  }

  /** The other language. */
  function Flip(l: Lang): Lang
  {
    match l
    case Zh => En
    case En => Zh
  }

  /** The local-storage key under which the choice is kept. */
  const STORAGE_KEY := "cleanc-language"

  /** The two translation tables, from key to text. */
  datatype Tables = Tables(zh: map<string, string>, en: map<string, string>)

  function TableFor(ts: Tables, l: Lang): map<string, string>
  {
    match l
    case Zh => ts.zh
    case En => ts.en
  }

  /** The start-up choice: a saved value of exactly "zh" or "en" wins;
      anything else falls back to the system language, English when it
      starts with "en" in any case, Chinese otherwise. */
  function InitialLang(systemLang: string, saved: Option<string>): Lang
  {
    if saved == Some("zh") then Zh
    else if saved == Some("en") then En
    else if StartsWith(Lower(systemLang), "en") then En
    else Zh
  }

  /** The text of `key` in a table, or the key itself when the table has no
      text or only an empty one for it. */
  function Lookup(table: map<string, string>, key: string): string
  {
    if key in table && table[key] != "" then table[key] else key
  }

  function Placeholder(name: string): string { "{" + name + "}" }

  /** The parameters applied in their order, each replacing the first
      `{name}` left in the text by its value. */
  function Interpolated(text: string, params: seq<(string, string)>): string
    decreases |params|
  {
    if params == [] then text
    else Interpolated(ReplaceFirst(text, Placeholder(params[0].0), params[0].1), params[1..])
  }

  /** The language state: the current language and the local storage it is
      persisted in. */
  class Settings {
    var current: Lang
    var storage: map<string, string>

    /** Module load: Chinese, then the system language, then the saved
        value, each overriding the one before. */
    constructor (systemLang: string, storage0: map<string, string>)
      ensures current == InitialLang(systemLang, if STORAGE_KEY in storage0 then Some(storage0[STORAGE_KEY]) else None)
      ensures storage == storage0
    {
      storage := storage0;
      current := Zh;
      if StartsWith(Lower(systemLang), "en") {
        current := En;
      }
      if STORAGE_KEY in storage0 {
        var savedLang := storage0[STORAGE_KEY];
        if savedLang == "zh" {
          current := Zh;
        } else if savedLang == "en" {
          current := En;
        }
      }
    }

    /** toggleLanguage: switch to the other language and save it. */
    method Toggle()
      modifies this
      ensures current == Flip(old(current))
      ensures storage == old(storage)[STORAGE_KEY := Code(current)]
    {
      current := if current == Zh then En else Zh;
      storage := storage[STORAGE_KEY := Code(current)];
    }

    /** setLanguage: make `lang` current and save it. */
    method Set(lang: Lang)
      modifies this
      ensures current == lang
      ensures storage == old(storage)[STORAGE_KEY := Code(lang)]
    {
      current := lang;
      storage := storage[STORAGE_KEY := Code(lang)];
    }

    /** translate(key, params) against the current language's table. */
    method Translate(ts: Tables, key: string, params: seq<(string, string)>) returns (text: string)
      ensures text == Interpolated(Lookup(TableFor(ts, current), key), params)
    {
      text := Lookup(TableFor(ts, current), key);
      ghost var looked := text;
      var i := 0;
      while i < |params|
        invariant 0 <= i <= |params|
        invariant Interpolated(text, params[i..]) == Interpolated(looked, params)
      {
        assert params[i..][1..] == params[i + 1..];
        text := ReplaceFirst(text, Placeholder(params[i].0), params[i].1);
        i := i + 1;
      }
    }
  }

  /** Toggling twice gives back the language started from. */
  lemma FlipTwice(l: Lang)
    ensures Flip(Flip(l)) == l && Flip(l) != l
  {
  }

  /** What toggle or set saves is read back as the same language at the next
      start, whatever the system language. */
  lemma SavedIsRestored(systemLang: string, l: Lang)
    ensures InitialLang(systemLang, Some(Code(l))) == l
  {
  }

  /** A saved value other than "zh" and "en" is ignored: the start-up
      choice is the one made with nothing saved. */
  lemma UnknownSavedIgnored(systemLang: string, saved: Option<string>)
    requires saved != Some("zh") && saved != Some("en")
    ensures InitialLang(systemLang, saved) == InitialLang(systemLang, None)
  {
  }

  /** The system language is compared without regard to ASCII letter case. */
  lemma InitialLangIgnoresCase(systemLang: string, saved: Option<string>)
    ensures InitialLang(Lower(systemLang), saved) == InitialLang(systemLang, saved)
  {
    assert Lower(Lower(systemLang)) == Lower(systemLang);
  }

  /** A key without a text shows as itself, whatever parameters are given,
      as long as none of their placeholders is part of the key. */
  lemma MissingKeyShowsKey(table: map<string, string>, key: string, params: seq<(string, string)>)
    requires key !in table || table[key] == ""
    requires forall i :: 0 <= i < |params| ==> !Contains(key, Placeholder(params[i].0))
    ensures Interpolated(Lookup(table, key), params) == key
  {
    UnmatchedUntouched(key, params);
  }

  /** Without parameters the text is returned as it is. */
  lemma NoParamsUnchanged(text: string)
    ensures Interpolated(text, []) == text
  {
  }

  /** Applying two lists of parameters one after the other is applying
      their concatenation. */
  lemma {:induction false} InterpolatedAppend(text: string, ps: seq<(string, string)>, qs: seq<(string, string)>)
    ensures Interpolated(text, ps + qs) == Interpolated(Interpolated(text, ps), qs)
    decreases |ps|
  {
    if ps == [] {
      assert ps + qs == qs;
    } else {
      assert (ps + qs)[1..] == ps[1..] + qs;
      InterpolatedAppend(ReplaceFirst(text, Placeholder(ps[0].0), ps[0].1), ps[1..], qs);
    }
  }

  /** One parameter replaces only the first occurrence of its placeholder:
      the text before it and every later occurrence stay as they were. */
  lemma OnlyFirstReplaced(pre: string, name: string, value: string, post: string)
    requires forall j: nat :: j < |pre| ==> !OccursAt(pre + Placeholder(name) + post, Placeholder(name), j)
    ensures Interpolated(pre + Placeholder(name) + post, [(name, value)]) == pre + value + post
  {
    var s := pre + Placeholder(name) + post;
    var p := Placeholder(name);
    assert s[|pre|..|pre| + |p|] == p;
    assert OccursAt(s, p, |pre|);
    assert IndexOf(s, p) == |pre|;
    assert s[..|pre|] == pre && s[|pre| + |p|..] == post;
    assert [(name, value)][1..] == [];
  }

  /** Parameters whose placeholders do not occur leave the text as it is. */
  lemma {:induction false} UnmatchedUntouched(text: string, params: seq<(string, string)>)
    requires forall i :: 0 <= i < |params| ==> !Contains(text, Placeholder(params[i].0))
    ensures Interpolated(text, params) == text
    decreases |params|
  {
    if params != [] {
      ReplaceFirstSplits(text, Placeholder(params[0].0), params[0].1);
      assert forall i :: 0 <= i < |params[1..]| ==> params[1..][i] == params[i + 1];
      UnmatchedUntouched(text, params[1..]);
    }
  }
}
