/**
 * Translation of message keys: a language's string table with a fallback
 * language behind it, and the substitution of `{%i}` placeholders by the
 * translations of a message's parameters, which may themselves be messages.
 */
module Languages {
  import opened Common

  const FALLBACK_LANGUAGE: string := "eng"

  /** A language's table and the fallback table consulted for keys it lacks. */
  datatype Language = Language(langName: string, lang: map<string, string>, fallback: map<string, string>)

  /** The error raised when the file of language `code` is missing. */
  function NotFound(code: string): Error {
    LanguageNotFound("Language " + code + " not found.")
  }

  /**
   * Opens `language` with `fallbackLang` behind it. `files` holds the table
   * loaded from each language file that exists, by language code. The name
   * is lower-cased; a fallback equal to that name is not loaded again, the
   * primary table stands in for it.
   */
  function Open(language: string, files: map<string, map<string, string>>, fallbackLang: string): (r: Result<Language>)
    ensures var code := ToLower(language);
      && (r.Ok? <==> code in files && (code == fallbackLang || fallbackLang in files))
      && (code !in files ==> r == Err(NotFound(code)))
      && (code in files && code != fallbackLang && fallbackLang !in files ==> r == Err(NotFound(fallbackLang)))
      && (r.Ok? ==> r.value.langName == code && r.value.lang == files[code])
      && (r.Ok? && code == fallbackLang ==> r.value.fallback == r.value.lang)
      && (r.Ok? && code != fallbackLang ==> r.value.fallback == files[fallbackLang])
  {
    var code := ToLower(language);
    if code !in files then Err(NotFound(code))
    else
      var lang := files[code];
      if code != fallbackLang then
        if fallbackLang !in files then Err(NotFound(fallbackLang))
        else Ok(Language(code, lang, files[fallbackLang]))
      else Ok(Language(code, lang, lang))
  }

  /** The entry of the language's own table, else that of the fallback table, else nothing. */
  function InternalGet(l: Language, id: string): (r: Option<string>)
    ensures id in l.lang ==> r == Some(l.lang[id])
    ensures id !in l.lang && id in l.fallback ==> r == Some(l.fallback[id])
    ensures r.None? <==> id !in l.lang && id !in l.fallback
  {
    if id in l.lang then Some(l.lang[id])
    else if id in l.fallback then Some(l.fallback[id])
    else None
  }

  /**
   * The translation of `id`, which is `id` itself when neither table has it;
   * `Translate(id)` is this same lookup.
   */
  function Get(l: Language, id: string): (r: string)
    ensures id in l.lang ==> r == l.lang[id]
    ensures id !in l.lang && id in l.fallback ==> r == l.fallback[id]
    ensures id !in l.lang && id !in l.fallback ==> r == id
  {
    match InternalGet(l, id)
    case Some(text) => text
    case None => id
  }

  /** The language's display name: its own name key, translated. */
  function Name(l: Language): (r: string)
    ensures l.langName !in l.lang && l.langName !in l.fallback ==> r == l.langName
    ensures l.langName in l.lang ==> r == l.lang[l.langName]
  {
    Get(l, l.langName)
  }

  /**
   * A language opened under the fallback's own name has no separate fallback:
   * a key it lacks translates as itself.
   */
  lemma OpenedAsFallback(language: string, files: map<string, map<string, string>>, id: string)
    requires ToLower(language) == FALLBACK_LANGUAGE && ToLower(language) in files
    ensures Open(language, files, FALLBACK_LANGUAGE).Ok?
    ensures var l := Open(language, files, FALLBACK_LANGUAGE).value;
      && (InternalGet(l, id).Some? <==> id in files[FALLBACK_LANGUAGE])
      && (id !in files[FALLBACK_LANGUAGE] ==> Get(l, id) == id)
  {
  }

  /** The placeholder that parameter `i` replaces. */
  function Placeholder(i: nat): (p: string)
    ensures |p| >= 3 && p[..2] == "{%" && p[|p| - 1] == '}'
  {
    IntToStringShape(i);
    "{%" + IntToString(i) + "}"
  }

  /** Distinct parameter positions have distinct placeholders. */
  lemma PlaceholderInjective(i: nat, j: nat)
    ensures Placeholder(i) == Placeholder(j) <==> i == j
  {
    if Placeholder(i) == Placeholder(j) {
      Unwrapped(IntToString(i), IntToString(j));
      DigitsValueOfNat(i);
      DigitsValueOfNat(j);
    }
  }

  /** The text between `{%` and `}` is determined by the whole placeholder. */
  lemma Unwrapped(a: string, b: string)
    requires "{%" + a + "}" == "{%" + b + "}"
    ensures a == b
  {
    var p := "{%" + a + "}";
    assert a == p[2..|p| - 1];
  }

  /**
   * `template` with each placeholder `{%i}`, for i = 0, 1, ... in turn,
   * replaced by `args[i]`. Later replacements also act on the text earlier
   * ones put in.
   */
  function Rendered(template: string, args: seq<string>): string
    decreases |args|
  {
    if args == [] then template
    else
      var n := |args| - 1;
      Replace(Rendered(template, args[..n]), Placeholder(n), args[n])
  }

  lemma RenderedStep(template: string, args: seq<string>, i: nat)
    requires i < |args|
    ensures Rendered(template, args[..i + 1]) == Replace(Rendered(template, args[..i]), Placeholder(i), args[i])
  {
    assert args[..i + 1][..i] == args[..i];
  }

  /** Text with no `{%` in it holds no placeholder. */
  lemma NoOpenNoPlaceholder(s: string, i: nat)
    requires !Occurs(s, "{%")
    ensures !Occurs(s, Placeholder(i))
  {
    var p := Placeholder(i);
    forall k | OccursAt(s, p, k) ensures false {
      assert s[k..k + 2] == p[..2];
      assert OccursAt(s, "{%", k);
    }
  }

  /** Replacements whose placeholders do not occur in the text rendered so far leave it as it is. */
  lemma {:induction false} RenderedStable(template: string, args: seq<string>, k: nat, m: nat)
    requires k <= m <= |args|
    requires forall j :: k <= j < m ==> !Occurs(Rendered(template, args[..k]), Placeholder(j))
    ensures Rendered(template, args[..m]) == Rendered(template, args[..k])
    decreases m
  {
    if m > k {
      RenderedStable(template, args, k, m - 1);
      RenderedStep(template, args, m - 1);
      ReplaceAbsent(Rendered(template, args[..k]), Placeholder(m - 1), args[m - 1]);
    }
  }

  /** A template with no `{%` in it is returned as it is, whatever the arguments. */
  lemma RenderedPlain(template: string, args: seq<string>)
    requires !Occurs(template, "{%")
    ensures Rendered(template, args) == template
  {
    assert args[..0] == [] && args[..|args|] == args;
    forall j | 0 <= j < |args| ensures !Occurs(Rendered(template, args[..0]), Placeholder(j)) {
      NoOpenNoPlaceholder(template, j);
    }
    RenderedStable(template, args, 0, |args|);
  }

  /** The only placeholder occurring in `{%k}` is `{%k}` itself. */
  lemma PlaceholderOccursOnlyInItself(k: nat, j: nat)
    requires j != k
    ensures !Occurs(Placeholder(k), Placeholder(j))
  {
    var pk, pj := Placeholder(k), Placeholder(j);
    IntToStringShape(k);
    forall i | OccursAt(pk, pj, i) ensures false {
      assert pk[i] == pj[0] == '{';
      assert i == 0;
      if |pj| == |pk| {
        assert pk == pk[0..|pj|];
        PlaceholderInjective(k, j);
      }
    }
  }

  /** Replacing a text that is exactly the pattern gives the replacement. */
  lemma ReplaceWhole(pattern: string, replacement: string)
    requires |pattern| > 0
    ensures Replace(pattern, pattern, replacement) == replacement
  {
    assert pattern[..|pattern|] == pattern;
    assert pattern[|pattern|..] == [];
    assert replacement + [] == replacement;
  }

  /**
   * A template that is a lone placeholder `{%k}` renders as the k-th
   * argument, provided that argument has no `{%` of its own.
   */
  lemma RenderedLonePlaceholder(k: nat, args: seq<string>)
    requires k < |args| && !Occurs(args[k], "{%")
    ensures Rendered(Placeholder(k), args) == args[k]
  {
    var t := Placeholder(k);
    assert args[..0] == [] && args[..|args|] == args;
    forall j | 0 <= j < k ensures !Occurs(Rendered(t, args[..0]), Placeholder(j)) {
      PlaceholderOccursOnlyInItself(k, j);
    }
    RenderedStable(t, args, 0, k);
    RenderedStep(t, args, k);
    ReplaceWhole(t, args[k]);
    forall j | k + 1 <= j < |args| ensures !Occurs(Rendered(t, args[..k + 1]), Placeholder(j)) {
      NoOpenNoPlaceholder(args[k], j);
    }
    RenderedStable(t, args, k + 1, |args|);
  }

  /** A message key and its parameters, each a message in turn. */
  datatype Translatable = Translatable(text: string, parameters: seq<Translatable>)

  /** The translations of plain keys. */
  function Gets(l: Language, ids: seq<string>): (r: seq<string>)
    ensures |r| == |ids| && forall i :: 0 <= i < |ids| ==> r[i] == Get(l, ids[i])
  {
    seq(|ids|, i requires 0 <= i < |ids| => Get(l, ids[i]))
  }

  /** The translation of a message: its key translated, with its parameters' translations put in. */
  function Translation(l: Language, t: Translatable): string
    decreases t
  {
    Rendered(Get(l, t.text), Translations(l, t.parameters))
  }

  /** The translations of messages, in order. */
  function Translations(l: Language, ts: seq<Translatable>): (r: seq<string>)
    ensures |r| == |ts| && forall i :: 0 <= i < |ts| ==> r[i] == Translation(l, ts[i])
    decreases ts
  {
    seq(|ts|, i requires 0 <= i < |ts| => Translation(l, ts[i]))
  }

  /** A message without parameters translates as its key. */
  lemma TranslationOfKey(l: Language, text: string)
    ensures Translation(l, Translatable(text, [])) == Get(l, text)
  {
  }

  /** The message whose parameters are `parameters`, each wrapped as a message without parameters. */
  method Wrap(text: string, parameters: seq<string>) returns (t: Translatable)
    ensures t.text == text && |t.parameters| == |parameters|
    ensures forall i :: 0 <= i < |parameters| ==> t.parameters[i] == Translatable(parameters[i], [])
  {
    var wrapped: seq<Translatable> := [];
    for i := 0 to |parameters|
      invariant |wrapped| == i
      invariant forall j :: 0 <= j < i ==> wrapped[j] == Translatable(parameters[j], [])
    {
      wrapped := wrapped + [Translatable(parameters[i], [])];
    }
    t := Translatable(text, wrapped);
  }

  /** A message with no parameters. */
  function Key(text: string): (t: Translatable)
    ensures t.text == text && |t.parameters| == 0
  {
    Translatable(text, [])
  }

  /** Wrapping the parameters does not change the translation: both overloads of `Translate` agree. */
  lemma WrappedTranslatesAlike(l: Language, text: string, parameters: seq<string>, t: Translatable)
    requires t.text == text && |t.parameters| == |parameters|
    requires forall i :: 0 <= i < |parameters| ==> t.parameters[i] == Translatable(parameters[i], [])
    ensures Translation(l, t) == Rendered(Get(l, text), Gets(l, parameters))
  {
    assert Translations(l, t.parameters) == Gets(l, parameters);
  }

  /**
   * `Translate(id, values)` for plain strings: each value is looked up as a
   * key and put in for its placeholder, in order.
   */
  method TranslateStrings(l: Language, id: string, values: seq<string>) returns (text: string)
    ensures text == Rendered(Get(l, id), Gets(l, values))
  {
    text := Get(l, id);
    ghost var args := Gets(l, values);
    for i := 0 to |values|
      invariant text == Rendered(Get(l, id), args[..i])
    {
      RenderedStep(Get(l, id), args, i);
      text := Replace(text, "{%" + IntToString(i) + "}", Get(l, values[i]));
    }
    assert args[..|values|] == args;
  }

  /** `Translate(id, values)` for messages: each value is translated in turn and put in for its placeholder. */
  method TranslateList(l: Language, id: string, values: seq<Translatable>) returns (text: string)
    ensures text == Rendered(Get(l, id), Translations(l, values))
    decreases values
  {
    text := Get(l, id);
    ghost var args := Translations(l, values);
    for i := 0 to |values|
      invariant text == Rendered(Get(l, id), args[..i])
    {
      var value := Translate(l, values[i]);
      RenderedStep(Get(l, id), args, i);
      text := Replace(text, "{%" + IntToString(i) + "}", value);
    }
    assert args[..|values|] == args;
  }

  /** `Translate(t)`: the translation of the message, through nested parameters. */
  method Translate(l: Language, t: Translatable) returns (text: string)
    ensures text == Translation(l, t)
    decreases t
  {
    text := TranslateList(l, t.text, t.parameters);
  }

  /**
   * `GetParameter(i)` as written: it indexes the parameters only when their
   * count is below `i`, where the index is always out of range, and answers
   * nothing otherwise.
   */
  function GetParameterAsWritten(t: Translatable, i: int): (r: Result<Option<Translatable>>)
    ensures r.Err? <==> |t.parameters| < i
    ensures r.Err? ==> r.error == ArgumentOutOfRange("index")
    ensures r.Ok? ==> r.value.None?
  {
    if |t.parameters| < i then Err(ArgumentOutOfRange("index")) else Ok(None)
  }

  /** The parameter at position `i`, or nothing when there is none. */
  function GetParameter(t: Translatable, i: int): (r: Option<Translatable>)
    ensures r.Some? <==> 0 <= i < |t.parameters|
    ensures r.Some? ==> r.value == t.parameters[i] && r.value < t
  {
    if 0 <= i < |t.parameters| then Some(t.parameters[i]) else None
  }

  /** As written, `GetParameter` never returns a parameter, even when one is there. */
  lemma GetParameterMissesPresent(t: Translatable, i: int)
    requires 0 <= i < |t.parameters|
    ensures GetParameterAsWritten(t, i) == Ok(None)
    ensures GetParameter(t, i) == Some(t.parameters[i])
  {
  }
}
