/** The string table shared by every generation (`src/shared/i18n.ts`): one entry per
    English key holding the four translations, each falling back to English, a
    lookup `t` that falls back to the key itself, and placeholder filling `tf`.
    The language files themselves are inputs here. */
module I18n {
  import opened Base
  import opened Types

  /** `I18nEntry`. */
  datatype Entry = Entry(en: string, es: string, pt: string, fr: string)

  /** One language file: key to text. */
  type Table = map<string, string>

  /** `TABLE[key] ?? fallback`. */
  function Lookup(table: Table, key: string, fallback: string): (r: string)
    ensures key in table ==> r == table[key]
    ensures key !in table ==> r == fallback
  {
    if key in table then table[key] else fallback
  }

  /** `entry[lang]`. */
  function Pick(e: Entry, lang: Language): string
  {
    match lang
    case En => e.en
    case Es => e.es
    case Pt => e.pt
    case Fr => e.fr
  }

  /** The language file `lang` selects among the four. */
  function TableOf(lang: Language, en: Table, es: Table, pt: Table, fr: Table): Table
  {
    match lang
    case En => en
    case Es => es
    case Pt => pt
    case Fr => fr
  }

  /** The entry the reducer builds for `key`. */
  function EntryFor(key: string, en: Table, es: Table, pt: Table, fr: Table): Entry
    requires key in en
  {
    Entry(en[key], Lookup(es, key, en[key]), Lookup(pt, key, en[key]), Lookup(fr, key, en[key]))
  }

  /** `STRINGS` as a value: every English key, with fallbacks filled in. */
  function Strings(en: Table, es: Table, pt: Table, fr: Table): (strings: map<string, Entry>)
    ensures strings.Keys == en.Keys
  {
    map key | key in en :: EntryFor(key, en, es, pt, fr)
  }

  /** The `Object.keys(EN).reduce(...)` that builds `STRINGS`; `keys` is the key order
      of `EN`. */
  method BuildStrings(keys: seq<string>, en: Table, es: Table, pt: Table, fr: Table)
    returns (strings: map<string, Entry>)
    requires forall k :: k in en <==> k in keys
    ensures strings == Strings(en, es, pt, fr)
  {
    strings := map[];
    var i := 0;
    while i < |keys|
      invariant 0 <= i <= |keys|
      invariant strings.Keys == set k | k in keys[..i]
      invariant forall k :: k in strings ==> k in en && strings[k] == EntryFor(k, en, es, pt, fr)
    {
      var key := keys[i];
      strings := strings[key := Entry(en[key], Lookup(es, key, en[key]), Lookup(pt, key, en[key]), Lookup(fr, key, en[key]))];
      i := i + 1;
    }
    assert keys[..i] == keys;
  }

  /** `t(lang, key)`: the entry's text for the language, else the key itself. */
  function T(strings: map<string, Entry>, lang: Language, key: string): (r: string)
    ensures key !in strings ==> r == key
  {
    if key in strings then Pick(strings[key], lang) else key
  }

  /** Over the built table, `t` yields the language's text, else the English text,
      else the key. */
  lemma TFallback(en: Table, es: Table, pt: Table, fr: Table, lang: Language, key: string)
    ensures var table := TableOf(lang, en, es, pt, fr);
      T(Strings(en, es, pt, fr), lang, key) ==
        if key !in en then key
        else if key in table then table[key]
        else en[key]
  {
  }

  /** The placeholder `{name}` of a variable. */
  function Placeholder(name: string): (p: string)
    ensures |p| == |name| + 2 && p[0] == '{' && p[|p| - 1] == '}'
  {
    "{" + name + "}"
  }

  /** `tf`'s loop as a fold: each variable, in order, replaces the first occurrence of its placeholder. */
  function Fill(text: string, vars: seq<(string, string)>): string
    decreases |vars|
  {
    if |vars| == 0 then text
    else Fill(ReplaceFirst(text, Placeholder(vars[0].0), vars[0].1), vars[1..])
  }

  /** `tf(lang, key, vars)`; `vars` lists the entries in `Object.entries` order. */
  method Tf(strings: map<string, Entry>, lang: Language, key: string, vars: seq<(string, string)>)
    returns (text: string)
    ensures text == Fill(T(strings, lang, key), vars)
    ensures vars == [] ==> text == T(strings, lang, key)
  {
    text := T(strings, lang, key);
    var i := 0;
    while i < |vars|
      invariant 0 <= i <= |vars|
      invariant Fill(text, vars[i..]) == Fill(T(strings, lang, key), vars)
    {
      var (k, v) := vars[i];
      assert vars[i..][1..] == vars[i + 1..];
      text := ReplaceFirst(text, "{" + k + "}", v);
      i := i + 1;
    }
  }

  /** A single variable changes only the first occurrence of its placeholder: the
      text around it, later occurrences included, is kept. The value goes in with its
      `$` patterns expanded, and as written when it holds no `$`. */
  lemma {:induction false} FillOneReplacesFirst(text: string, name: string, value: string)
    requires Contains(text, Placeholder(name))
    ensures var k := IndexOf(text, Placeholder(name)).value;
      var after := text[k + |Placeholder(name)|..];
      (forall j :: 0 <= j < k ==> !StartsWith(text[j..], Placeholder(name)))
      && Fill(text, [(name, value)]) == text[..k] + ExpandReplacement(value, Placeholder(name), text[..k], after) + after
      && ('$' !in value ==> Fill(text, [(name, value)]) == text[..k] + value + after)
  {
    var vars := [(name, value)];
    assert vars[1..] == [];
    var r := ReplaceFirst(text, Placeholder(name), value);
    assert Fill(text, vars) == Fill(r, []) == r;
  }

  /** A value of `$&` puts the matched placeholder back: the text is unchanged. */
  lemma {:induction false} FillWithMatchPattern(text: string, name: string)
    requires Contains(text, Placeholder(name))
    ensures Fill(text, [(name, "$&")]) == text
  {
    var p := Placeholder(name);
    var k := IndexOf(text, p).value;
    var before, after := text[..k], text[k + |p|..];
    FillOneReplacesFirst(text, name, "$&");
    assert Fill(text, [(name, "$&")]) == before + ExpandReplacement("$&", p, before, after) + after;
    ExpandReplacementPatterns('&', [], p, before, after);
    assert ['$', '&'] + [] == "$&";
    assert ExpandReplacement("$&", p, before, after) == p;
    JoinAtMatch(text, p, k);
  }

  /** A variable whose placeholder is absent leaves the text alone. */
  lemma {:induction false} FillAbsent(text: string, name: string, value: string, rest: seq<(string, string)>)
    requires !Contains(text, Placeholder(name))
    ensures Fill(text, [(name, value)] + rest) == Fill(text, rest)
  {
    assert ([(name, value)] + rest)[1..] == rest;
  }
}
