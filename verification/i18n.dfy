/**
 * The translation resolver: nested translation tables per locale, a
 * process-wide current locale, dot-path lookup, the `t` function with its
 * fallback order (target locale, then the baseline `en` table, then the key
 * itself) and placeholder substitution.
 */
module I18n {
  import opened Wrappers
  import Strings
  import Placeholders

  /** A value of a translation table: a string, a nested table, or any other JSON scalar. */
  datatype Node = Text(s: string) | Table(entries: map<string, Node>) | Scalar

  /** The baseline locale, `DEFAULT_LOCALE`. */
  const Baseline: string := "en"

  /** Translation tables by locale; the baseline table is always present. */
  type Tables = m: map<string, Node> | Baseline in m witness map[Baseline := Table(map[])]

  /** Placeholder values, as in `{ roleLabel: 'Admin' }`. */
  type Values = Option<map<string, string>>

  /** The node reached by following `keys` from `node`, if every step finds an entry of a table. */
  function Walk(node: Node, keys: seq<string>): Option<Node>
    decreases |keys|
  {
    if |keys| == 0 then Some(node)
    else if node.Table? && keys[0] in node.entries then Walk(node.entries[keys[0]], keys[1..])
    else None
  }

  /** The string at the end of the path, if the path exists and ends on a string. */
  function Lookup(node: Node, keys: seq<string>): Option<string>
  {
    match Walk(node, keys)
    case Some(Text(s)) => Some(s)
    case _ => None
  }

  /** Walking a concatenated path is walking its first part, then its second. */
  lemma {:induction false} WalkAppend(node: Node, a: seq<string>, b: seq<string>)
    ensures Walk(node, a + b) == (match Walk(node, a) case None => None case Some(m) => Walk(m, b))
    decreases |a|
  {
    if |a| == 0 {
      assert a + b == b;
    } else {
      assert (a + b)[0] == a[0];
      assert (a + b)[1..] == a[1..] + b;
      if node.Table? && a[0] in node.entries {
        WalkAppend(node.entries[a[0]], a[1..], b);
      }
    }
  }

  /**
   * `getNestedValue` yields a string exactly when every segment of the path
   * is found in the table reached so far and the last node is a string.
   */
  lemma LookupFindsEverySegment(node: Node, keys: seq<string>)
    ensures Lookup(node, keys).Some? <==>
      (forall i :: 0 <= i < |keys| ==> StepExists(node, keys, i)) && Walk(node, keys).Some? && Walk(node, keys).value.Text?
  {
    if Lookup(node, keys).Some? {
      forall i | 0 <= i < |keys| ensures StepExists(node, keys, i) {
        WalkAppend(node, keys[..i], keys[i..]);
        assert keys[..i] + keys[i..] == keys;
      }
    } else if forall i :: 0 <= i < |keys| ==> StepExists(node, keys, i) {
      AllStepsReachEnd(node, keys, |keys|);
      assert keys[..|keys|] == keys;
    }
  }

  /** Before segment `i`, the walk is at a table holding that segment. */
  predicate StepExists(node: Node, keys: seq<string>, i: nat)
    requires i < |keys|
  {
    var m := Walk(node, keys[..i]);
    m.Some? && m.value.Table? && keys[i] in m.value.entries
  }

  lemma {:induction false} AllStepsReachEnd(node: Node, keys: seq<string>, n: nat)
    requires n <= |keys|
    requires forall i :: 0 <= i < |keys| ==> StepExists(node, keys, i)
    ensures Walk(node, keys[..n]).Some?
    decreases n
  {
    if n > 0 {
      AllStepsReachEnd(node, keys, n - 1);
      assert StepExists(node, keys, n - 1);
      WalkAppend(node, keys[..n - 1], [keys[n - 1]]);
      assert keys[..n - 1] + [keys[n - 1]] == keys[..n];
    }
  }

  /** `getNestedValue(obj, path)`: split the path at dots and walk it one segment at a time. */
  method GetNestedValue(obj: Node, path: string) returns (r: Option<string>)
    ensures r == Lookup(obj, Strings.Split(path, '.'))
  {
    var keys := Strings.Split(path, '.');
    var current := obj;
    for i := 0 to |keys|
      invariant Walk(obj, keys) == Walk(current, keys[i..])
    {
      assert keys[i..][0] == keys[i] && keys[i..][1..] == keys[i + 1..];
      if current.Table? && keys[i] in current.entries {
        current := current.entries[keys[i]];
      } else {
        return None;
      }
    }
    assert keys[|keys|..] == [];
    r := if current.Text? then Some(current.s) else None;
  }

  /** `locale || currentLocale`: an absent or empty locale argument means the current locale. */
  function TargetLocale(current: string, locale: Option<string>): string
  {
    if locale.Some? && locale.value != "" then locale.value else current
  }

  /** `!translated`: no string found, or the empty string. */
  predicate Missing(v: Option<string>)
  {
    v.None? || v.value == ""
  }

  /** `t(key, values, locale)`. */
  function Translate(tables: Tables, current: string, key: string, values: Values, locale: Option<string>): string
    decreases if TargetLocale(current, locale) in tables then 0 else 1
  {
    var target := TargetLocale(current, locale);
    if target !in tables then
      Translate(tables, current, key, values, Some(Baseline))
    else
      var keys := Strings.Split(key, '.');
      var own := Lookup(tables[target], keys);
      var found := if Missing(own) && target != Baseline then Lookup(tables[Baseline], keys) else own;
      if Missing(found) then key else Placeholders.ReplacePlaceholders(found.value, values)
  }

  /** A locale-and-table view of the resolver, used by the parts of the system that call `t`. */
  datatype Translator = Translator(tables: Tables, current: string)
  {
    function T(key: string, values: Values): string
    {
      Translate(tables, current, key, values, None)
    }
  }

  /** An explicit, non-empty locale argument makes the result independent of the current locale. */
  lemma ExplicitLocaleIgnoresCurrent(tables: Tables, c1: string, c2: string, key: string, values: Values, locale: string)
    requires locale != ""
    ensures Translate(tables, c1, key, values, Some(locale)) == Translate(tables, c2, key, values, Some(locale))
  {
  }

  /** An unknown target locale resolves exactly as the baseline locale does. */
  lemma UnknownLocaleUsesBaseline(tables: Tables, current: string, key: string, values: Values, locale: Option<string>)
    requires TargetLocale(current, locale) !in tables
    ensures Translate(tables, current, key, values, locale) == Translate(tables, Baseline, key, values, None)
  {
  }

  /** A non-empty string in the target locale's table is used, with placeholders filled in. */
  lemma TargetTableWins(tables: Tables, current: string, key: string, values: Values, locale: Option<string>, s: string)
    requires TargetLocale(current, locale) in tables
    requires Lookup(tables[TargetLocale(current, locale)], Strings.Split(key, '.')) == Some(s) && s != ""
    ensures Translate(tables, current, key, values, locale) == Placeholders.ReplacePlaceholders(s, values)
  {
  }

  /** A non-baseline locale lacking the key (or holding `""`) falls back to the baseline table. */
  lemma FallsBackToBaseline(tables: Tables, current: string, key: string, values: Values, locale: Option<string>, s: string)
    requires TargetLocale(current, locale) in tables && TargetLocale(current, locale) != Baseline
    requires Missing(Lookup(tables[TargetLocale(current, locale)], Strings.Split(key, '.')))
    requires Lookup(tables[Baseline], Strings.Split(key, '.')) == Some(s) && s != ""
    ensures Translate(tables, current, key, values, locale) == Placeholders.ReplacePlaceholders(s, values)
  {
  }

  /** When neither the target table nor the baseline table has a non-empty string, the key itself comes back. */
  lemma MissingEverywhereReturnsKey(tables: Tables, current: string, key: string, values: Values, locale: Option<string>)
    requires Missing(Lookup(tables[Baseline], Strings.Split(key, '.')))
    requires TargetLocale(current, locale) in tables ==> Missing(Lookup(tables[TargetLocale(current, locale)], Strings.Split(key, '.')))
    ensures Translate(tables, current, key, values, locale) == key
  {
  }

  /**
   * Whatever the inputs, the result is the key or a non-empty string of the
   * target or baseline table with its placeholders filled in.
   */
  lemma TranslateResultSource(tables: Tables, current: string, key: string, values: Values, locale: Option<string>)
    ensures var r := Translate(tables, current, key, values, locale);
      r == key ||
      exists l, s :: l in tables && (l == Baseline || l == TargetLocale(current, locale)) &&
        Lookup(tables[l], Strings.Split(key, '.')) == Some(s) && s != "" && r == Placeholders.ReplacePlaceholders(s, values)
  {
    var target := TargetLocale(current, locale);
    var keys := Strings.Split(key, '.');
    var r := Translate(tables, current, key, values, locale);
    var l := if target in tables && !Missing(Lookup(tables[target], keys)) then target else Baseline;
    if target !in tables {
      assert r == Translate(tables, current, key, values, Some(Baseline));
    }
    if r != key {
      assert !Missing(Lookup(tables[l], keys));
      var s := Lookup(tables[l], keys).value;
      assert r == Placeholders.ReplacePlaceholders(s, values);
    }
  }

  /** The module-level state of the resolver: the tables and `currentLocale`. */
  class LocaleState {
    const translations: Tables
    var currentLocale: string
    /** Number of "locale not found" warnings written so far. */
    ghost var warnings: nat

    ghost predicate Valid()
      reads this
    {
      currentLocale in translations
    }

    constructor (translations: Tables)
      ensures this.translations == translations
      ensures currentLocale == Baseline && warnings == 0 && Valid()
    {
      this.translations := translations;
      currentLocale := Baseline;
      warnings := 0;
    }

    /** `setLocale`: a known locale is taken, an unknown one warns and resets to the baseline. */
    method SetLocale(locale: string)
      modifies this
      ensures Valid()
      ensures locale in translations ==> currentLocale == locale && warnings == old(warnings)
      ensures locale !in translations ==> currentLocale == Baseline && warnings == old(warnings) + 1
    {
      if locale in translations {
        currentLocale := locale;
      } else {
        warnings := warnings + 1;
        currentLocale := Baseline;
      }
    }

    /** `getLocale`. */
    method GetLocale() returns (locale: string)
      requires Valid()
      ensures locale == currentLocale && locale in translations
    {
      locale := currentLocale;
    }

    /** `initI18n(locale = 'en')`: an omitted argument means the baseline locale. */
    method InitI18n(locale: Option<string>)
      modifies this
      ensures Valid()
      ensures locale.None? ==> currentLocale == Baseline && warnings == old(warnings)
      ensures locale.Some? && locale.value in translations ==> currentLocale == locale.value && warnings == old(warnings)
      ensures locale.Some? && locale.value !in translations ==> currentLocale == Baseline && warnings == old(warnings) + 1
    {
      SetLocale(if locale.Some? then locale.value else Baseline);
    }

    /** `t(key, values, locale)` against the current state. */
    function T(key: string, values: Values, locale: Option<string>): string
      reads this
    {
      Translate(translations, currentLocale, key, values, locale)
    }
  }

  /**
   * Switching to an unknown locale leaves the baseline locale current and
   * writes exactly one warning (the scenario of the resolver's test suite).
   */
  method UnknownLocaleScenario(tables: Tables, unknown: string) returns (locale: string, ghost warnings: nat)
    requires unknown !in tables
    ensures locale == Baseline && warnings == 1
  {
    var state := new LocaleState(tables);
    state.SetLocale(unknown);
    locale := state.GetLocale();
    warnings := state.warnings;
  }
}
