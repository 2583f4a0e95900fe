// Translation lookup.  The host application's locale picks the French table
// when it is exactly `fr` and the English table otherwise.  `getTranslation`
// falls back to the key itself when the chosen table has no entry or an
// empty one; the `Translations` class looks the key up with no fallback.
// The two tables are a parameter: their contents are data.

module Translations {
  import opened Common

  datatype Locale = Fr | En

  /** `getCurrentLocale`: `moment.locale() || 'en'`, then French only for `fr`. */
  function CurrentLocale(hostLocale: string): (r: Locale)
    ensures r == Fr <==> hostLocale == "fr"
  {
    var locale := if hostLocale == "" then "en" else hostLocale;
    if locale == "fr" then Fr else En
  }

  /** The `fr` and `en` tables, from key to text. */
  datatype Tables = Tables(fr: map<string, string>, en: map<string, string>)

  function Table(t: Tables, l: Locale): map<string, string>
  {
    match l
    case Fr => t.fr
    case En => t.en
  }

  /** `getTranslation`. */
  function GetTranslation(t: Tables, hostLocale: string, key: string): (r: string)
    ensures var table := Table(t, CurrentLocale(hostLocale));
            if key in table && table[key] != "" then r == table[key] else r == key
  {
    var table := Table(t, CurrentLocale(hostLocale));
    if key !in table || table[key] == "" then key else table[key]
  }

  /** The `Translations` class: its tables are set once, by the constructor. */
  class Translations {
    const tables: Tables

    constructor(tables: Tables)
      ensures this.tables == tables
    {
      this.tables := tables;
    }

    /** `t`: `None` stands for the `undefined` a missing key gives. */
    function T(hostLocale: string, key: string): (r: Option<string>)
      ensures r.Some? <==> key in Table(tables, CurrentLocale(hostLocale))
      ensures r.Some? ==> r.value == Table(tables, CurrentLocale(hostLocale))[key]
    {
      var lang := if hostLocale == "fr" then Fr else En;
      var table := Table(tables, lang);
      if key in table then Some(table[key]) else None
    }
  }

  /** The class and the function pick the same table; they differ only where the
      function falls back to the key. */
  lemma TAgreesWithGetTranslation(c: Translations, hostLocale: string, key: string)
    ensures c.T(hostLocale, key).Some? && c.T(hostLocale, key).value != "" ==>
              GetTranslation(c.tables, hostLocale, key) == c.T(hostLocale, key).value
    ensures c.T(hostLocale, key).None? || c.T(hostLocale, key).value == "" ==>
              GetTranslation(c.tables, hostLocale, key) == key
  {
  }

  /** A non-empty key never translates to the empty string. */
  lemma TranslationNeverEmpty(t: Tables, hostLocale: string, key: string)
    requires key != ""
    ensures GetTranslation(t, hostLocale, key) != ""
  {
  }

  /** Both tables have every key of the French table, which is what the tables' type
      demands. */
  predicate Complete(t: Tables)
  {
    t.fr.Keys <= t.en.Keys
  }

  /** For a key of complete tables with non-empty texts, the lookup gives the text of
      the locale's table, whatever the locale. */
  lemma CompleteNeverFallsBack(t: Tables, hostLocale: string, key: string)
    requires Complete(t) && key in t.fr
    requires forall k :: k in t.en ==> t.en[k] != ""
    requires forall k :: k in t.fr ==> t.fr[k] != ""
    ensures hostLocale == "fr" ==> GetTranslation(t, hostLocale, key) == t.fr[key]
    ensures hostLocale != "fr" ==> GetTranslation(t, hostLocale, key) == t.en[key]
  {
  }
}
