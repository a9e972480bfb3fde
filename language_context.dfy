/** The language provider: the active language, its text direction, and `t`,
    the dot-path lookup into the nested translation table with its
    fall-back to the key. The table itself is compiled-in data that is not
    part of this model; every member takes it as a parameter. */
module LanguageContext {
  import opened Wrappers

  /** A translation table: a string at a leaf, a nested object at a node. */
  datatype Tree = Leaf(text: string) | Node(children: map<string, Tree>)

  /** JavaScript truthiness of a value `t` may return: only the empty string
      is falsy (every object is truthy). */
  predicate Truthy(v: Tree) {
    v.Leaf? ==> v.text != ""
  }

  // ---------------------------------------------------------------- split

  /** `key.split('.')`: the segments between dots, empty ones included. */
  function Split(s: string): (parts: seq<string>)
    ensures |parts| >= 1
    ensures forall i :: 0 <= i < |parts| ==> '.' !in parts[i]
  {
    if s == [] then [""]
    else if s[0] == '.' then [""] + Split(s[1..])
    else var rest := Split(s[1..]); [[s[0]] + rest[0]] + rest[1..]
  }

  /** `parts.join('.')`, the inverse of `Split`. */
  function Join(parts: seq<string>): string
    requires |parts| >= 1
  {
    if |parts| == 1 then parts[0] else parts[0] + "." + Join(parts[1..])
  }

  lemma {:induction false} JoinSplit(s: string)
    ensures Join(Split(s)) == s
  {
    if s != [] {
      JoinSplit(s[1..]);
      var rest := Split(s[1..]);
      if s[0] != '.' {
        if |rest| == 1 {
          assert Split(s) == [[s[0]] + rest[0]];
        } else {
          assert Split(s)[1..] == rest[1..];
          assert Join(rest) == rest[0] + "." + Join(rest[1..]);
        }
      }
    }
  }

  lemma {:induction false} SplitJoin(parts: seq<string>)
    requires |parts| >= 1
    requires forall i :: 0 <= i < |parts| ==> '.' !in parts[i]
    ensures Split(Join(parts)) == parts
  {
    if |parts| == 1 {
      SplitSegment(parts[0]);
    } else {
      SplitJoin(parts[1..]);
      SplitPrefix(parts[0], Join(parts[1..]));
      assert [parts[0]] + parts[1..] == parts;
    }
  }

  /** A string without dots splits into itself. */
  lemma {:induction false} SplitSegment(w: string)
    requires '.' !in w
    ensures Split(w) == [w]
  {
    if w != [] {
      SplitSegment(w[1..]);
      assert [w[0]] + w[1..] == w;
    }
  }

  /** Splitting `w + "." + rest` for a dot-free `w` puts `w` in front of the
      segments of `rest`. */
  lemma {:induction false} SplitPrefix(w: string, rest: string)
    requires '.' !in w
    ensures Split(w + "." + rest) == [w] + Split(rest)
  {
    if w == [] {
      assert w + "." + rest == "." + rest;
      assert ("." + rest)[1..] == rest;
    } else {
      SplitPrefix(w[1..], rest);
      assert (w + "." + rest)[1..] == w[1..] + "." + rest;
      assert [w[0]] + w[1..] == w;
    }
  }

  // ----------------------------------------------------------------- walk

  /** `value?.[k]`: undefined stays undefined, a string has no such entry
      here, a node gives its child or undefined. */
  function Step(value: Option<Tree>, k: string): (r: Option<Tree>)
    ensures r.Some? <==> value.Some? && value.value.Node? && k in value.value.children
    ensures r.Some? ==> r.value == value.value.children[k]
  {
    match value
    case Some(Node(m)) => if k in m then Some(m[k]) else None
    case _ => None
  }

  /** The value after applying `Step` for every segment in turn. */
  function Walk(value: Option<Tree>, path: seq<string>): Option<Tree>
    decreases path
  {
    if path == [] then value else Walk(Step(value, path[0]), path[1..])
  }

  /** Once a segment is missing the walk stays undefined. */
  lemma {:induction false} WalkFromUndefined(path: seq<string>)
    ensures Walk(None, path) == None
  {
    if path != [] {
      WalkFromUndefined(path[1..]);
    }
  }

  /** Walking a concatenated path walks the two parts one after the other. */
  lemma {:induction false} WalkConcat(value: Option<Tree>, p: seq<string>, q: seq<string>)
    ensures Walk(value, p + q) == Walk(Walk(value, p), q)
    decreases p
  {
    if p == [] {
      assert p + q == q;
    } else {
      assert (p + q)[1..] == p[1..] + q;
      WalkConcat(Step(value, p[0]), p[1..], q);
    }
  }

  // -------------------------------------------------------------- resolve

  /** The table of `language`: `translations[language]`. */
  function LanguageTable(translations: map<string, Tree>, language: string): (table: Option<Tree>)
    ensures table.Some? <==> language in translations
    ensures table.Some? ==> table.value == translations[language]
  {
    Step(Some(Node(translations)), language)
  }

  /** What the walk for `key` in `language` reaches. */
  function Lookup(translations: map<string, Tree>, language: string, key: string): Option<Tree>
  {
    Walk(LanguageTable(translations, language), Split(key))
  }

  /** `value || key`: what `t(key)` returns. */
  function Resolve(translations: map<string, Tree>, language: string, key: string): (r: Tree)
    ensures r == Leaf(key) || Lookup(translations, language, key) == Some(r)
    ensures Lookup(translations, language, key) == None ==> r == Leaf(key)
    ensures Lookup(translations, language, key) == Some(Leaf("")) ==> r == Leaf(key)
    ensures forall s :: s != "" && Lookup(translations, language, key) == Some(Leaf(s)) ==> r == Leaf(s)
    ensures forall m :: Lookup(translations, language, key) == Some(Node(m)) ==> r == Node(m)
  {
    match Lookup(translations, language, key)
    case Some(v) => if Truthy(v) then v else Leaf(key)
    case None => Leaf(key)
  }

  /** When any prefix of the path is already missing, `t` returns the key. */
  lemma MissingSegmentGivesKey(translations: map<string, Tree>, language: string, key: string, i: nat)
    requires i <= |Split(key)|
    requires Walk(LanguageTable(translations, language), Split(key)[..i]) == None
    ensures Resolve(translations, language, key) == Leaf(key)
  {
    var keys := Split(key);
    assert keys == keys[..i] + keys[i..];
    WalkConcat(LanguageTable(translations, language), keys[..i], keys[i..]);
    WalkFromUndefined(keys[i..]);
  }

  /** A language without a table (an unvalidated stored value, say) shows
      every key as itself. */
  lemma UnknownLanguageShowsKeys(translations: map<string, Tree>, language: string, key: string)
    requires language !in translations
    ensures Resolve(translations, language, key) == Leaf(key)
  {
    MissingSegmentGivesKey(translations, language, key, 0);
  }

  /** A key whose first segment the language's table lacks, such as
      "nonexistent.key", is shown as itself. */
  lemma MissingFirstSegmentGivesKey(translations: map<string, Tree>, language: string, key: string)
    requires LanguageTable(translations, language).Some? ==>
             LanguageTable(translations, language).value.Leaf? ||
             Split(key)[0] !in LanguageTable(translations, language).value.children
    ensures Resolve(translations, language, key) == Leaf(key)
  {
    assert Walk(LanguageTable(translations, language), Split(key)[..1]) == None;
    MissingSegmentGivesKey(translations, language, key, 1);
  }

  /** For a non-empty key `t` never returns a falsy value, so a `t(k) || d`
      in a caller never falls back to `d`. */
  lemma ResolveIsTruthy(translations: map<string, Tree>, language: string, key: string)
    requires key != ""
    ensures Truthy(Resolve(translations, language, key))
  {
  }

  /** A dotted path to a nested string is found one segment at a time. */
  lemma ResolveNested(translations: map<string, Tree>, language: string,
                      section: string, entry: string, text: string)
    requires '.' !in section && '.' !in entry && text != ""
    requires language in translations && translations[language].Node?
    requires section in translations[language].children
    requires translations[language].children[section].Node?
    requires entry in translations[language].children[section].children
    requires translations[language].children[section].children[entry] == Leaf(text)
    ensures Resolve(translations, language, section + "." + entry) == Leaf(text)
  {
    SplitPrefix(section, entry);
    SplitSegment(entry);
    var keys := Split(section + "." + entry);
    assert keys == [section, entry];
    var table := LanguageTable(translations, language);
    var node := translations[language].children[section];
    assert Step(table, section) == Some(node);
    assert Walk(table, keys) == Walk(Some(node), keys[1..]);
    assert Walk(Some(node), keys[1..]) == Walk(Some(Leaf(text)), keys[2..]);
  }

  // --------------------------------------------------------- language state

  /** `saved || 'en'`: the stored value when it is a non-empty string.
      It is not checked against the supported languages. */
  function InitialLanguage(saved: Option<string>): (language: string)
    ensures saved.Some? && saved.value != "" ==> language == saved.value
    ensures saved.None? || saved.value == "" ==> language == "en"
  {
    if saved.Some? && saved.value != "" then saved.value else "en"
  }

  /** `language === 'ar'` */
  function IsRtl(language: string): (rtl: bool)
    ensures rtl <==> language == "ar"
  {
    language == "ar"
  }

  /** `prev === 'en' ? 'ar' : 'en'` */
  function Toggle(prev: string): (next: string)
    ensures next in {"en", "ar"}
    ensures next == "ar" <==> prev == "en"
  {
    if prev == "en" then "ar" else "en"
  }

  /** Toggling twice restores a supported language; any other stored value
      is replaced by English after one toggle and never comes back. */
  lemma ToggleTwice(language: string)
    ensures language in {"en", "ar"} ==> Toggle(Toggle(language)) == language
    ensures language !in {"en", "ar"} ==> Toggle(language) == "en" && Toggle(Toggle(language)) == "ar"
  {
  }

  /** Each toggle flips the text direction of a supported language. */
  lemma ToggleFlipsDirection(language: string)
    requires language in {"en", "ar"}
    ensures IsRtl(Toggle(language)) == !IsRtl(language)
  {
  }

  /** The provider's state: the active language and the table `t` reads. */
  class LanguageProvider {
    var language: string
    const translations: map<string, Tree>

    constructor (saved: Option<string>, translations: map<string, Tree>)
      ensures language == InitialLanguage(saved)
      ensures this.translations == translations
    {
      language := InitialLanguage(saved);
      this.translations := translations;
    }

    method SetLanguage(code: string)
      modifies this
      ensures language == code
    {
      language := code;
    }

    method ToggleLanguage()
      modifies this
      ensures language == Toggle(old(language))
    {
      language := Toggle(language);
    }

    /** `t(key)`: split the key, walk the active language's table one
        segment at a time, and return what was found or else the key. */
    method T(key: string) returns (r: Tree)
      ensures r == Resolve(translations, language, key)
    {
      var keys := Split(key);
      var value := LanguageTable(translations, language);
      var i := 0;
      while i < |keys|
        invariant 0 <= i <= |keys|
        invariant Walk(value, keys[i..]) == Lookup(translations, language, key)
      {
        assert keys[i..][1..] == keys[i + 1..];
        value := Step(value, keys[i]);
        i := i + 1;
      }
      if value.Some? && Truthy(value.value) {
        r := value.value;
      } else {
        r := Leaf(key);
      }
    }
  }

  const MissingProviderMessage: string := "useLanguage must be used within a LanguageProvider"

  /** `useLanguage()`: the provider in scope, or an error when there is none. */
  function UseLanguage(context: Option<LanguageProvider>): (r: Result<LanguageProvider, string>)
    ensures r.Failure? <==> context.None?
    ensures r.Failure? ==> r.error == MissingProviderMessage
    ensures r.Success? ==> r.value == context.value
  {
    match context
    case None => Failure(MissingProviderMessage)
    case Some(provider) => Success(provider)
  }
}
