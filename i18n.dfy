/** The translation lookups of js/i18n.js: `t` (a dotted key in the current
    language, then in the fallback language, then the key itself), `tAllergen`
    (the same chain over the `allergens` section) and `tConfig` (a
    per-language configuration value with a default). The loaded translation
    tables, the configuration and the current language are parameters. */
module I18n {
  import opened Collections
  import opened Text
  import opened Values
  import opened Utils

  /** `TRANSLATIONS`: language code to the translation object loaded for it. */
  type Translations = map<string, Json>

  /** `TRANSLATIONS[lang]`, undefined when that language was not loaded. */
  function Table(tr: Translations, lang: string): (r: Option<Json>)
    ensures r.Some? <==> lang in tr
    ensures r.Some? ==> r.value == tr[lang]
  {
    if lang in tr then Some(tr[lang]) else None
  }

  /** `a || b` on JSON values. */
  function Either(a: Option<Json>, b: Json): (r: Json)
    ensures Truthy(a) ==> r == a.value
    ensures !Truthy(a) ==> r == b
  {
    if Truthy(a) then a.value else b
  }

  const FallbackPath: seq<string> := ["i18n", "fallbackLanguage"]

  /** `state.config?.i18n?.fallbackLanguage || 'en'`: the configured language
      when it is a non-empty string, `en` otherwise. */
  function FallbackLanguage(config: Option<Json>): (r: string)
    ensures r != []
    ensures r == "en" || Follow(config, FallbackPath) == Some(JStr(r))
    ensures !Truthy(Follow(config, FallbackPath)) ==> r == "en"
  {
    match Follow(config, FallbackPath)
    case Some(JStr(s)) => if s != [] then s else "en"
    case _ => "en"
  }

  /** `t(key)`: the value at the dotted path `key` in the current language's
      table when it is truthy, else the one in the fallback language's table,
      else the key itself. */
  function T(tr: Translations, lang: string, fallback: string, key: string): (r: Json)
    ensures Truthy(NestedValue(Table(tr, lang), key)) ==> r == NestedValue(Table(tr, lang), key).value
    ensures !Truthy(NestedValue(Table(tr, lang), key)) && Truthy(NestedValue(Table(tr, fallback), key)) ==>
              r == NestedValue(Table(tr, fallback), key).value
    ensures !Truthy(NestedValue(Table(tr, lang), key)) && !Truthy(NestedValue(Table(tr, fallback), key)) ==>
              r == JStr(key)
  {
    Either(NestedValue(Table(tr, lang), key), Either(NestedValue(Table(tr, fallback), key), JStr(key)))
  }

  /** `tAllergen(key)`: `allergens[key]` in the current language, else in the
      fallback language, else the key. */
  function TAllergen(tr: Translations, lang: string, fallback: string, key: string): (r: Json)
    ensures Truthy(Member(Member(Table(tr, lang), "allergens"), key)) ==>
              r == Member(Member(Table(tr, lang), "allergens"), key).value
    ensures !Truthy(Member(Member(Table(tr, lang), "allergens"), key))
              && Truthy(Member(Member(Table(tr, fallback), "allergens"), key)) ==>
              r == Member(Member(Table(tr, fallback), "allergens"), key).value
    ensures !Truthy(Member(Member(Table(tr, lang), "allergens"), key))
              && !Truthy(Member(Member(Table(tr, fallback), "allergens"), key)) ==>
              r == JStr(key)
  {
    Either(Member(Member(Table(tr, lang), "allergens"), key),
           Either(Member(Member(Table(tr, fallback), "allergens"), key), JStr(key)))
  }

  /** `typeof obj === 'object'` for a truthy value. */
  predicate IsObject(obj: Option<Json>) {
    obj.Some? && (obj.value.JObj? || obj.value.JArr?)
  }

  /** `tConfig(obj, defaultValue)`: anything but an object is returned as it
      is, or the default when falsy; an object gives its entry for the
      current language, else for the fallback language, else the default. */
  function TConfig(obj: Option<Json>, default: Json, lang: string, fallback: string): (r: Json)
    ensures !IsObject(obj) && Truthy(obj) ==> r == obj.value
    ensures !IsObject(obj) && !Truthy(obj) ==> r == default
    ensures IsObject(obj) && Truthy(Member(obj, lang)) ==> r == Member(obj, lang).value
    ensures IsObject(obj) && !Truthy(Member(obj, lang)) && Truthy(Member(obj, fallback)) ==>
              r == Member(obj, fallback).value
    ensures IsObject(obj) && !Truthy(Member(obj, lang)) && !Truthy(Member(obj, fallback)) ==>
              r == default
  {
    if !Truthy(obj) || !IsObject(obj) then Either(obj, default)
    else Either(Member(obj, lang), Either(Member(obj, fallback), default))
  }

  // ------------------------------------------------------------ properties

  /** A translation of a non-empty key is never empty or otherwise falsy:
      when neither table has a truthy value the key itself is shown. */
  lemma TNeverFalsy(tr: Translations, lang: string, fallback: string, key: string)
    requires key != []
    ensures Truthy(Some(T(tr, lang, fallback, key)))
  {
  }

  /** When the current language is the fallback language, the chain has two
      steps: that table, then the key. */
  lemma TSameLanguage(tr: Translations, lang: string, key: string)
    ensures T(tr, lang, lang, key) == Either(NestedValue(Table(tr, lang), key), JStr(key))
  {
  }

  /** With neither language loaded every key is shown as itself. */
  lemma TNothingLoaded(tr: Translations, lang: string, fallback: string, key: string)
    requires lang !in tr && fallback !in tr
    ensures T(tr, lang, fallback, key) == JStr(key)
  {
  }

  /** A key without dots is a plain field lookup in the current language's
      table, and a truthy field there is the answer. */
  lemma TPlainKey(tr: Translations, lang: string, fallback: string, key: string)
    requires key != [] && '.' !in key
    requires lang in tr && tr[lang].JObj? && key in tr[lang].fields && Truthy(Some(tr[lang].fields[key]))
    ensures T(tr, lang, fallback, key) == tr[lang].fields[key]
  {
    NestedSingle(tr[lang].fields, key);
  }

  /** For a key without dots, `tAllergen(key)` makes the same two lookups as
      `t('allergens.' + key)` and gives the same answer when either finds a
      truthy value; when neither does it shows the bare key. */
  lemma TAllergenIsT(tr: Translations, lang: string, fallback: string, key: string)
    requires '.' !in key
    ensures Truthy(NestedValue(Table(tr, lang), "allergens." + key))
              || Truthy(NestedValue(Table(tr, fallback), "allergens." + key)) ==>
              TAllergen(tr, lang, fallback, key) == T(tr, lang, fallback, "allergens." + key)
    ensures !Truthy(NestedValue(Table(tr, lang), "allergens." + key))
              && !Truthy(NestedValue(Table(tr, fallback), "allergens." + key)) ==>
              TAllergen(tr, lang, fallback, key) == JStr(key)
  {
    AllergenPath(Table(tr, lang), key);
    AllergenPath(Table(tr, fallback), key);
  }

  lemma AllergenPath(table: Option<Json>, key: string)
    requires '.' !in key
    ensures NestedValue(table, "allergens." + key) == Member(Member(table, "allergens"), key)
  {
    var path := "allergens." + key;
    assert path == "allergens" + ['.'] + key;
    SplitAt("allergens", '.', key);
    SplitPlain(key, '.');
    assert Split(path, '.') == ["allergens", key];
    if Truthy(table) {
      assert ["allergens", key][1..] == [key];
      assert [key][1..] == [];
      assert Follow(table, ["allergens", key]) == Follow(Member(table, "allergens"), [key]);
      assert Follow(Member(table, "allergens"), [key]) == Follow(Member(Member(table, "allergens"), key), []);
    }
  }

  /** `tConfig` with a truthy default never yields a falsy value. */
  lemma TConfigTruthy(obj: Option<Json>, default: Json, lang: string, fallback: string)
    requires Truthy(Some(default))
    ensures Truthy(Some(TConfig(obj, default, lang, fallback)))
  {
  }
}
