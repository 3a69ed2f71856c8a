/** The translation object of util/I18n.kt: nested-key lookup in a locale's JSON document,
    the fallback from the requested locale to the default one and to the key itself,
    `%s` substitution, and the choice of the current locale. Reading the locale files
    and downloading a missing locale are inputs. */
module I18n {
  import opened Text

  /** `DEFAULT_LANGUAGE` (GLOBAL.kt). */
  const DEFAULT_LANGUAGE: string := "en"

  /** A JSON element: a primitive with its content, `null`, an object or an array. */
  datatype Json =
    | Primitive(content: string)
    | Null
    | Object(fields: map<string, Json>)
    | Array(items: seq<Json>)

  /** The element reached from `j` by following the object keys `parts`, if every step
      finds an object holding that key. */
  function Lookup(j: Json, parts: seq<string>): Option<Json> {
    if parts == [] then Some(j)
    else if j.Object? && parts[0] in j.fields then Lookup(j.fields[parts[0]], parts[1..])
    else None
  }

  /** What a resolved element prints as: a primitive its content, an object or array its
      JSON text (`encode`, the serializer's `toString`); `null` has no content. */
  function Rendered(j: Json, encode: Json -> string): Option<string> {
    match j
    case Primitive(c) => Some(c)
    case Null => None
    case Object(_) => Some(encode(j))
    case Array(_) => Some(encode(j))
  }

  /** `resolveNested(data, key)`. */
  function Resolve(data: map<string, Json>, key: string, encode: Json -> string): Option<string> {
    match Lookup(Object(data), Split(key, '.'))
    case None => None
    case Some(j) => Rendered(j, encode)
  }

  /** Following a path in two legs is following it in one. */
  lemma {:induction false} LookupAppend(j: Json, ps: seq<string>, qs: seq<string>)
    ensures Lookup(j, ps + qs) == if Lookup(j, ps).Some? then Lookup(Lookup(j, ps).value, qs) else None
  {
    if ps != [] {
      assert (ps + qs)[0] == ps[0];
      assert (ps + qs)[1..] == ps[1..] + qs;
      if j.Object? && ps[0] in j.fields {
        LookupAppend(j.fields[ps[0]], ps[1..], qs);
      }
    } else {
      assert ps + qs == qs;
    }
  }

  /** A key without dots is looked up directly in the document. */
  lemma FlatKey(data: map<string, Json>, key: string, encode: Json -> string)
    requires '.' !in key
    ensures Resolve(data, key, encode) == if key in data then Rendered(data[key], encode) else None
  {
    SplitOfPiece(key, '.');
    assert [key][1..] == [];
    if key in data {
      assert Lookup(Object(data), [key]) == Lookup(data[key], []);
    }
  }

  /** "a.rest" is "rest" resolved inside the object under "a"; when "a" is missing or
      does not hold an object there is nothing to resolve. */
  lemma NestedKey(data: map<string, Json>, a: string, rest: string, encode: Json -> string)
    requires '.' !in a
    ensures Resolve(data, a + "." + rest, encode)
         == if a in data && data[a].Object? then Resolve(data[a].fields, rest, encode) else None
  {
    SplitAfterPiece(a, '.', rest);
    assert Split(a + "." + rest, '.') == [a] + Split(rest, '.');
    if a in data {
      assert Lookup(Object(data), [a] + Split(rest, '.')) == Lookup(data[a], Split(rest, '.'));
      if !data[a].Object? {
        assert Lookup(data[a], Split(rest, '.')) == None;
      }
    }
  }

  /** The loop of `resolveNested`: step into the current object for each dot-separated
      segment, giving up as soon as a segment is missing or the current element is not
      an object. */
  method ResolveNested(data: map<string, Json>, key: string, encode: Json -> string) returns (r: Option<string>)
    ensures r == Resolve(data, key, encode)
  {
    var parts := Split(key, '.');
    var current := Object(data);
    for i := 0 to |parts|
      invariant Lookup(Object(data), parts) == Lookup(current, parts[i..])
    {
      if !(current.Object? && parts[i] in current.fields) {
        return None;
      }
      assert parts[i..][1..] == parts[i + 1..];
      current := current.fields[parts[i]];
    }
    return Rendered(current, encode);
  }

  /** `value?.toString() ?: "null"`. */
  function Shown(v: Option<string>): string {
    if v.Some? then v.value else "null"
  }

  /** `replaceVars`: each variable in turn replaces the first "%s" still in the text
      (which may be one a previous value brought in). */
  function Substituted(text: string, vars: seq<Option<string>>): string
    decreases |vars|
  {
    if vars == [] then text else Substituted(ReplaceFirst(text, "%s", Shown(vars[0])), vars[1..])
  }

  method ReplaceVars(text: string, vars: seq<Option<string>>) returns (result: string)
    ensures result == Substituted(text, vars)
  {
    result := text;
    for i := 0 to |vars|
      invariant Substituted(text, vars) == Substituted(result, vars[i..])
    {
      assert vars[i..][1..] == vars[i + 1..];
      result := ReplaceFirst(result, "%s", Shown(vars[i]));
    }
  }

  /** A text without "%s" is left as it is, however many variables are given. */
  lemma {:induction false} NoPlaceholderUnchanged(text: string, vars: seq<Option<string>>)
    requires IndexOf(text, "%s").None?
    ensures Substituted(text, vars) == text
    decreases |vars|
  {
    if vars != [] {
      NoPlaceholderUnchanged(text, vars[1..]);
    }
  }

  /** A text without '%' holds no "%s". */
  lemma NoPlaceholderInPlain(t: string)
    requires '%' !in t
    ensures IndexOf(t, "%s").None?
  {
    forall j: nat ensures !MatchAt(t, "%s", j) {
      if j + 2 <= |t| {
        assert t[j..j + 2][0] == t[j];
        assert t[j] in t;
      }
    }
  }

  /** The first "%s" of a text is the one after a prefix that holds no '%'. */
  lemma FirstPlaceholder(a: string, b: string)
    requires '%' !in a
    ensures IndexOf(a + "%s" + b, "%s") == Some(|a|)
  {
    var s := a + "%s" + b;
    assert MatchAt(s, "%s", |a|) by { assert s[|a|..|a| + 2] == "%s"; }
    forall j: nat | j < |a| ensures !MatchAt(s, "%s", j) {
      assert s[j..j + 2][0] == s[j] == a[j];
      assert a[j] in a;
    }
  }

  /** Substituting into the first "%s" after a prefix without '%'. */
  lemma ReplaceAfterPlain(a: string, b: string, v: string)
    requires '%' !in a
    ensures ReplaceFirst(a + "%s" + b, "%s", v) == a + v + b
  {
    FirstPlaceholder(a, b);
    var s := a + "%s" + b;
    assert s[..|a|] == a;
    assert s[|a| + 2..] == b;
  }

  /** The text that the template pieces and the values make, interleaved. */
  function Interleave(pieces: seq<string>, values: seq<string>): string
    requires |pieces| >= 1 && |values| == |pieces| - 1
  {
    if |pieces| == 1 then pieces[0]
    else pieces[0] + values[0] + Interleave(pieces[1..], values[1..])
  }

  predicate NoPercent(parts: seq<string>) {
    forall k :: 0 <= k < |parts| ==> '%' !in parts[k]
  }

  function ShownAll(vars: seq<Option<string>>): (ss: seq<string>)
    ensures |ss| == |vars| && forall k :: 0 <= k < |vars| ==> ss[k] == Shown(vars[k])
  {
    seq(|vars|, k requires 0 <= k < |vars| => Shown(vars[k]))
  }

  /** For a template whose pieces and values hold no '%', the i-th value lands in the
      i-th "%s"; values beyond the placeholders change nothing. */
  lemma {:induction false} FillsPlaceholders(prefix: string, pieces: seq<string>, vars: seq<Option<string>>)
    requires '%' !in prefix
    requires |pieces| >= 1 && |vars| >= |pieces| - 1
    requires NoPercent(pieces) && NoPercent(ShownAll(vars))
    ensures Substituted(prefix + Join(pieces, "%s"), vars)
         == prefix + Interleave(pieces, ShownAll(vars)[..|pieces| - 1])
    decreases |pieces|
  {
    if |pieces| == 1 {
      PlainConcat(prefix, pieces[0]);
      NoPlaceholderInPlain(prefix + pieces[0]);
      NoPlaceholderUnchanged(prefix + pieces[0], vars);
    } else {
      var v := ShownAll(vars)[0];
      FirstFilled(prefix, pieces, vars);
      PlainConcat(prefix, pieces[0]);
      PlainConcat(prefix + pieces[0], v);
      assert ShownAll(vars[1..]) == ShownAll(vars)[1..];
      FillsPlaceholders(prefix + pieces[0] + v, pieces[1..], vars[1..]);
      InterleaveStep(prefix, pieces, ShownAll(vars));
    }
  }

  /** The first value fills the first placeholder, after the first piece. */
  lemma FirstFilled(prefix: string, pieces: seq<string>, vars: seq<Option<string>>)
    requires '%' !in prefix
    requires |pieces| >= 2 && |vars| >= |pieces| - 1
    requires NoPercent(pieces)
    ensures Substituted(prefix + Join(pieces, "%s"), vars)
         == Substituted(prefix + pieces[0] + Shown(vars[0]) + Join(pieces[1..], "%s"), vars[1..])
  {
    var rest := Join(pieces[1..], "%s");
    var head := prefix + pieces[0];
    PlainConcat(prefix, pieces[0]);
    assert Join(pieces, "%s") == pieces[0] + "%s" + rest;
    Assoc(prefix, pieces[0] + "%s", rest);
    Assoc(prefix, pieces[0], "%s");
    ReplaceAfterPlain(head, rest, Shown(vars[0]));
  }

  /** The interleaving after the first value is the rest of the interleaving. */
  lemma InterleaveStep(prefix: string, pieces: seq<string>, shown: seq<string>)
    requires |pieces| >= 2 && |shown| >= |pieces| - 1
    ensures prefix + pieces[0] + shown[0] + Interleave(pieces[1..], shown[1..][..|pieces| - 2])
         == prefix + Interleave(pieces, shown[..|pieces| - 1])
  {
    var vs := shown[..|pieces| - 1];
    assert shown[1..][..|pieces| - 2] == vs[1..];
    var x := Interleave(pieces[1..], vs[1..]);
    assert Interleave(pieces, vs) == pieces[0] + vs[0] + x;
    Assoc(prefix, pieces[0] + vs[0], x);
    Assoc(prefix, pieces[0], vs[0]);
  }

  lemma PlainConcat(a: string, b: string)
    requires '%' !in a && '%' !in b
    ensures '%' !in a + b
  {
  }

  /** The text `tr` starts from: the key in the requested (or current) locale, else in
      the default locale, else the key itself. A locale that was never loaded counts as an
      empty document. */
  function Translated(translations: map<string, map<string, Json>>, locale: string, key: string,
                      encode: Json -> string): (t: string)
    ensures locale in translations && Resolve(translations[locale], key, encode).Some? ==>
      t == Resolve(translations[locale], key, encode).value
    ensures (locale !in translations || Resolve(translations[locale], key, encode).None?) ==>
      t == if DEFAULT_LANGUAGE in translations && Resolve(translations[DEFAULT_LANGUAGE], key, encode).Some?
           then Resolve(translations[DEFAULT_LANGUAGE], key, encode).value else key
  {
    var here := Resolve(if locale in translations then translations[locale] else map[], key, encode);
    var fallback := Resolve(if DEFAULT_LANGUAGE in translations then translations[DEFAULT_LANGUAGE] else map[], key, encode);
    if here.Some? then here.value else if fallback.Some? then fallback.value else key
  }

  /** An empty document resolves no key. */
  lemma EmptyDocumentResolvesNothing(key: string, encode: Json -> string)
    ensures Resolve(map[], key, encode).None?
  {
    assert Split(key, '.') != [];
  }

  /** The `I18n` object: the current locale and the loaded translations. */
  class Translator {
    var currentLocale: string
    var translations: map<string, map<string, Json>>

    /** The locale in use is the default or one that has been loaded. */
    predicate Valid()
      reads this
    {
      currentLocale == DEFAULT_LANGUAGE || currentLocale in translations
    }

    constructor(loaded: map<string, map<string, Json>>)
      ensures currentLocale == DEFAULT_LANGUAGE && translations == loaded
      ensures Valid()
    {
      currentLocale := DEFAULT_LANGUAGE;
      translations := loaded;
    }

    /** `setLocale(lang)`: a loaded locale is set; a missing one is downloaded first
        (`fetched` is the document the download yields, None when it fails), and a failed
        download sets the default locale instead. */
    method SetLocale(lang: string, fetched: Option<map<string, Json>>)
      modifies this
      ensures old(lang in translations) ==> currentLocale == lang && translations == old(translations)
      ensures !old(lang in translations) && fetched.None? ==>
        currentLocale == DEFAULT_LANGUAGE && translations == old(translations)
      ensures !old(lang in translations) && fetched.Some? ==>
        currentLocale == lang && translations == old(translations)[lang := fetched.value]
      ensures Valid()
    {
      if lang !in translations {
        if fetched.None? {
          currentLocale := DEFAULT_LANGUAGE;
          return;
        }
        translations := translations[lang := fetched.value];
      }
      currentLocale := lang;
    }

    /** `tr(key, vars, lang)`: the translated text with the variables substituted. */
    method Tr(key: string, vars: seq<Option<string>>, lang: Option<string>, encode: Json -> string)
      returns (s: string)
      ensures s == Substituted(Translated(translations, if lang.Some? then lang.value else currentLocale, key, encode), vars)
    {
      var locale := if lang.Some? then lang.value else currentLocale;
      var text := ResolveNested(if locale in translations then translations[locale] else map[], key, encode);
      if text.None? {
        text := ResolveNested(if DEFAULT_LANGUAGE in translations then translations[DEFAULT_LANGUAGE] else map[], key, encode);
      }
      var t := if text.Some? then text.value else key;
      s := ReplaceVars(t, vars);
    }
  }
}
