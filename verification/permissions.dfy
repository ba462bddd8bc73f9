/**
 * The permission catalog builder: from the configured collections and
 * optional custom permissions, the ordered list of every selectable
 * permission with its label, value, category and description.
 *
 * Labels and descriptions come from the translation resolver; the
 * human-readable formatting of a slug (`formatLabel`) is a parameter.
 */
module Permissions {
  import opened Wrappers
  import Strings
  import I18n

  /** An entry of the catalog. Custom entries may lack a category or a description. */
  datatype Permission = Permission(labelText: string, value: string, category: Option<string>, description: Option<string>)

  /** How a collection declares authentication: unset, `true`/`false`, or an options object. */
  datatype AuthSetting = AuthUnset | AuthFlag(enabled: bool) | AuthOptions

  /** The parts of a collection's configuration the core reads. `versions` is the truthiness of its `versions` setting. */
  datatype CollectionConfig = CollectionConfig(slug: string, versions: bool, auth: AuthSetting, singularLabel: Option<string>)

  /** A custom permission supplied by the plugin's options. */
  datatype CustomPermission = CustomPermission(labelText: string, value: string, description: Option<string>)

  /** `CRUD_OPERATIONS`. */
  const CrudOperations: seq<string> := ["create", "read", "update", "delete"]

  /** `PERMISSIONS.ALL`, `ALL_READ`, `ALL_CREATE`, `ALL_UPDATE`, `ALL_DELETE`, in emission order. */
  const SpecialValues: seq<string> := ["*", "*.read", "*.create", "*.update", "*.delete"]

  const SpecialCategory: string := "Special"

  function Special(tr: I18n.Translator, key: string, value: string): Permission
  {
    Permission(tr.T("permissions.special." + key, None), value, Some(SpecialCategory),
               Some(tr.T("permissions.special." + key + "Description", None)))
  }

  /** `getSpecialPermissions`: the five global wildcards. */
  function SpecialPermissions(tr: I18n.Translator): (ps: seq<Permission>)
    ensures |ps| == |SpecialValues|
    ensures forall i :: 0 <= i < |ps| ==> ps[i].value == SpecialValues[i] && ps[i].category == Some(SpecialCategory)
  {
    [Special(tr, "fullAccess", "*"), Special(tr, "allRead", "*.read"), Special(tr, "allCreate", "*.create"),
     Special(tr, "allUpdate", "*.update"), Special(tr, "allDelete", "*.delete")]
  }

  /** `getOperationLabel`: the translated operation name, or the operation itself when the key comes back untranslated. */
  function OperationLabel(tr: I18n.Translator, op: string): (opLabel: string)
    ensures opLabel != "permissions.operations." + op
  {
    var key := "permissions.operations." + op;
    var translated := tr.T(key, None);
    if translated != key then translated else op
  }

  /** With no string for the operation in either table, its label is the operation name. */
  lemma OperationLabelUntranslated(tr: I18n.Translator, op: string)
    requires var keys := Strings.Split("permissions.operations." + op, '.');
      I18n.Missing(I18n.Lookup(tr.tables[I18n.Baseline], keys)) &&
      (tr.current in tr.tables ==> I18n.Missing(I18n.Lookup(tr.tables[tr.current], keys)))
    ensures OperationLabel(tr, op) == op
  {
    I18n.MissingEverywhereReturnsKey(tr.tables, tr.current, "permissions.operations." + op, None, None);
  }

  /** A non-empty string for the operation, other than its key, found in the current table or else in `en`, is its label. */
  lemma OperationLabelTranslated(tr: I18n.Translator, op: string, s: string)
    requires var keys := Strings.Split("permissions.operations." + op, '.');
      (tr.current in tr.tables && I18n.Lookup(tr.tables[tr.current], keys) == Some(s)) ||
      ((tr.current in tr.tables ==> I18n.Missing(I18n.Lookup(tr.tables[tr.current], keys))) &&
       I18n.Lookup(tr.tables[I18n.Baseline], keys) == Some(s))
    requires s != "" && s != "permissions.operations." + op
    ensures OperationLabel(tr, op) == s
  {
    var key := "permissions.operations." + op;
    var keys := Strings.Split(key, '.');
    if tr.current in tr.tables && I18n.Lookup(tr.tables[tr.current], keys) == Some(s) {
      I18n.TargetTableWins(tr.tables, tr.current, key, None, None, s);
    } else if tr.current !in tr.tables {
      I18n.UnknownLocaleUsesBaseline(tr.tables, tr.current, key, None, None);
      I18n.TargetTableWins(tr.tables, I18n.Baseline, key, None, None, s);
    } else {
      I18n.FallsBackToBaseline(tr.tables, tr.current, key, None, None, s);
    }
  }

  function CollectionValues(collectionLabel: string): I18n.Values
  {
    Some(map["collection" := collectionLabel])
  }

  function WildcardEntry(tr: I18n.Translator, collectionLabel: string, slug: string): Permission
  {
    Permission(tr.T("permissions.collection.allOperations", CollectionValues(collectionLabel)), slug + ".*", Some(collectionLabel),
               Some(tr.T("permissions.collection.allOperationsDescription", CollectionValues(collectionLabel))))
  }

  function CrudEntry(tr: I18n.Translator, collectionLabel: string, slug: string, op: string): Permission
  {
    Permission(tr.T("permissions.collection.operation", Some(map["operation" := OperationLabel(tr, op), "collection" := collectionLabel])),
               slug + "." + op, Some(collectionLabel),
               Some(tr.T("permissions.collection.operationDescription", Some(map["operation" := op, "collection" := collectionLabel]))))
  }

  function ManageEntry(tr: I18n.Translator, collectionLabel: string, slug: string): Permission
  {
    Permission(tr.T("permissions.collection.manage", CollectionValues(collectionLabel)), slug + ".manage", Some(collectionLabel),
               Some(tr.T("permissions.collection.manageDescription", CollectionValues(collectionLabel))))
  }

  function PublishEntry(tr: I18n.Translator, collectionLabel: string, slug: string): Permission
  {
    Permission(tr.T("permissions.collection.publish", CollectionValues(collectionLabel)), slug + ".publish", Some(collectionLabel),
               Some(tr.T("permissions.collection.publishDescription", CollectionValues(collectionLabel))))
  }

  /** `CRUD_OPERATIONS.map(...)` for one collection. */
  function CrudEntries(tr: I18n.Translator, collectionLabel: string, slug: string, ops: seq<string>): (entries: seq<Permission>)
    ensures |entries| == |ops|
    ensures forall k :: 0 <= k < |ops| ==> entries[k].value == slug + "." + ops[k] && entries[k].category == Some(collectionLabel)
    decreases |ops|
  {
    if |ops| == 0 then [] else [CrudEntry(tr, collectionLabel, slug, ops[0])] + CrudEntries(tr, collectionLabel, slug, ops[1..])
  }

  /** Number of entries a collection contributes. */
  function BlockSize(c: CollectionConfig): nat
  {
    2 + |CrudOperations| + (if c.versions then 1 else 0)
  }

  /** The entries of one collection: `slug.*`, one entry per CRUD operation, `slug.manage`, and `slug.publish` when versioned. */
  function CollectionBlock(tr: I18n.Translator, formatLabel: string -> string, c: CollectionConfig): (block: seq<Permission>)
    ensures |block| == BlockSize(c)
  {
    var collectionLabel := formatLabel(c.slug);
    var base := [WildcardEntry(tr, collectionLabel, c.slug)] + CrudEntries(tr, collectionLabel, c.slug, CrudOperations) + [ManageEntry(tr, collectionLabel, c.slug)];
    if c.versions then base + [PublishEntry(tr, collectionLabel, c.slug)] else base
  }

  /**
   * A collection's block opens with its wildcard, lists one entry per CRUD
   * operation in constant order, then `manage`, and ends with `publish`
   * when the collection is versioned. Every entry is in the collection's
   * formatted label as category.
   */
  lemma CollectionBlockShape(tr: I18n.Translator, formatLabel: string -> string, c: CollectionConfig)
    ensures var block := CollectionBlock(tr, formatLabel, c);
      && (forall k :: 0 <= k < |block| ==> block[k].category == Some(formatLabel(c.slug)))
      && block[0].value == c.slug + ".*"
      && (forall k :: 0 <= k < |CrudOperations| ==> block[1 + k].value == c.slug + "." + CrudOperations[k])
      && block[1 + |CrudOperations|].value == c.slug + ".manage"
      && (c.versions ==> block[2 + |CrudOperations|].value == c.slug + ".publish")
  {
    var collectionLabel := formatLabel(c.slug);
    var crud := CrudEntries(tr, collectionLabel, c.slug, CrudOperations);
    var base := [WildcardEntry(tr, collectionLabel, c.slug)] + crud + [ManageEntry(tr, collectionLabel, c.slug)];
    assert forall k :: 0 <= k < |crud| ==> base[1 + k] == crud[k];
  }

  /** `flatMap`: the results of `f` on each element, concatenated in input order. */
  function FlatMap<A, B>(xs: seq<A>, f: A -> seq<B>): seq<B>
    decreases |xs|
  {
    if |xs| == 0 then [] else f(xs[0]) + FlatMap(xs[1..], f)
  }

  lemma {:induction false} FlatMapConcat<A, B>(xs: seq<A>, ys: seq<A>, f: A -> seq<B>)
    ensures FlatMap(xs + ys, f) == FlatMap(xs, f) + FlatMap(ys, f)
    decreases |xs|
  {
    if |xs| == 0 {
      assert xs + ys == ys;
    } else {
      assert (xs + ys)[0] == xs[0];
      assert (xs + ys)[1..] == xs[1..] + ys;
      FlatMapConcat(xs[1..], ys, f);
      assert f(xs[0]) + (FlatMap(xs[1..], f) + FlatMap(ys, f)) == (f(xs[0]) + FlatMap(xs[1..], f)) + FlatMap(ys, f);
    }
  }

  /** Entry `k` of the `i`-th result sits right after the results for the elements before it. */
  lemma FlatMapAt<A, B>(xs: seq<A>, f: A -> seq<B>, i: nat, k: nat)
    requires i < |xs| && k < |f(xs[i])|
    ensures |FlatMap(xs[..i], f)| + k < |FlatMap(xs, f)|
    ensures FlatMap(xs, f)[|FlatMap(xs[..i], f)| + k] == f(xs[i])[k]
  {
    assert xs == xs[..i] + xs[i..];
    FlatMapConcat(xs[..i], xs[i..], f);
    assert xs[i..][0] == xs[i];
  }

  /** The collection entries, collection by collection in input order (the `flatMap` over the collections). */
  function Blocks(tr: I18n.Translator, formatLabel: string -> string, cs: seq<CollectionConfig>): seq<Permission>
  {
    FlatMap(cs, c => CollectionBlock(tr, formatLabel, c))
  }

  function TotalSize(cs: seq<CollectionConfig>): nat
    decreases |cs|
  {
    if |cs| == 0 then 0 else BlockSize(cs[0]) + TotalSize(cs[1..])
  }

  /** The text of a custom value before its first dot (the whole value if it has none). */
  function Namespace(value: string): (ns: string)
    ensures Strings.StartsWith(value, ns) && '.' !in ns
    ensures |ns| == |value| || value[|ns|] == '.'
  {
    Strings.SplitHead(value, '.');
    Strings.Split(value, '.')[0]
  }

  /** A custom permission keeps its own fields and gains the formatted namespace as category, when that is non-empty. */
  function ProcessCustom(formatLabel: string -> string, p: CustomPermission): (r: Permission)
    ensures r.labelText == p.labelText && r.value == p.value && r.description == p.description
    ensures r.category.None? <==> |p.value| == 0 || p.value[0] == '.'
    ensures r.category.Some? ==> r.category.value == formatLabel(Namespace(p.value))
  {
    var ns := Namespace(p.value);
    Permission(p.labelText, p.value, if ns != "" then Some(formatLabel(ns)) else None, p.description)
  }

  /** `customPermissions?.map(...) || []`. */
  function CustomEntries(formatLabel: string -> string, custom: Option<seq<CustomPermission>>): seq<Permission>
  {
    match custom
    case None => []
    case Some(cs) => seq(|cs|, k requires 0 <= k < |cs| => ProcessCustom(formatLabel, cs[k]))
  }

  function CustomCount(custom: Option<seq<CustomPermission>>): nat
  {
    if custom.None? then 0 else |custom.value|
  }

  /** The whole catalog: specials, then the collections' entries, then the custom entries. */
  function Catalog(tr: I18n.Translator, formatLabel: string -> string, cs: seq<CollectionConfig>,
                   custom: Option<seq<CustomPermission>>): seq<Permission>
  {
    SpecialPermissions(tr) + Blocks(tr, formatLabel, cs) + CustomEntries(formatLabel, custom)
  }

  /** `generateCollectionPermissions`: builds each collection's array, pushing `publish` onto it when versioned. */
  method GenerateCollectionPermissions(tr: I18n.Translator, formatLabel: string -> string, collections: seq<CollectionConfig>,
                                       customPermissions: Option<seq<CustomPermission>>)
    returns (result: seq<Permission>)
    ensures result == Catalog(tr, formatLabel, collections, customPermissions)
  {
    var collectionPermissions: seq<Permission> := [];
    for i := 0 to |collections|
      invariant collectionPermissions == Blocks(tr, formatLabel, collections[..i])
    {
      var c := collections[i];
      var collectionLabel := formatLabel(c.slug);
      var basePermissions := [WildcardEntry(tr, collectionLabel, c.slug)] + CrudEntries(tr, collectionLabel, c.slug, CrudOperations) + [ManageEntry(tr, collectionLabel, c.slug)];
      if c.versions {
        basePermissions := basePermissions + [PublishEntry(tr, collectionLabel, c.slug)];
      }
      assert basePermissions == CollectionBlock(tr, formatLabel, c);
      BlocksAppend(tr, formatLabel, collections[..i], c);
      assert collections[..i + 1] == collections[..i] + [c];
      collectionPermissions := collectionPermissions + basePermissions;
    }
    assert collections[..|collections|] == collections;
    var processed := CustomEntries(formatLabel, customPermissions);
    result := SpecialPermissions(tr) + collectionPermissions + processed;
  }

  lemma BlocksAppend(tr: I18n.Translator, formatLabel: string -> string, cs: seq<CollectionConfig>, c: CollectionConfig)
    ensures Blocks(tr, formatLabel, cs + [c]) == Blocks(tr, formatLabel, cs) + CollectionBlock(tr, formatLabel, c)
  {
    FlatMapConcat(cs, [c], c => CollectionBlock(tr, formatLabel, c));
    assert [c][1..] == [];
  }

  lemma {:induction false} BlocksLength(tr: I18n.Translator, formatLabel: string -> string, cs: seq<CollectionConfig>)
    ensures |Blocks(tr, formatLabel, cs)| == TotalSize(cs)
    decreases |cs|
  {
    if |cs| > 0 {
      BlocksLength(tr, formatLabel, cs[1..]);
    }
  }

  /** Catalog length: five specials, each collection's block, and one entry per custom permission. */
  lemma CatalogLength(tr: I18n.Translator, formatLabel: string -> string, cs: seq<CollectionConfig>, custom: Option<seq<CustomPermission>>)
    ensures |Catalog(tr, formatLabel, cs, custom)| == |SpecialValues| + TotalSize(cs) + CustomCount(custom)
  {
    BlocksLength(tr, formatLabel, cs);
  }

  /** The catalog opens with the five global wildcards, in order, all in the `Special` category. */
  lemma CatalogStartsWithSpecials(tr: I18n.Translator, formatLabel: string -> string, cs: seq<CollectionConfig>,
                                  custom: Option<seq<CustomPermission>>, i: nat)
    requires i < |SpecialValues|
    ensures i < |Catalog(tr, formatLabel, cs, custom)|
    ensures Catalog(tr, formatLabel, cs, custom)[i].value == SpecialValues[i]
    ensures Catalog(tr, formatLabel, cs, custom)[i].category == Some(SpecialCategory)
  {
  }

  /** Entry `k` of collection `i`'s block sits right after the blocks of the collections before it. */
  lemma BlocksAt(tr: I18n.Translator, formatLabel: string -> string, cs: seq<CollectionConfig>, i: nat, k: nat)
    requires i < |cs| && k < BlockSize(cs[i])
    ensures TotalSize(cs[..i]) + k < |Blocks(tr, formatLabel, cs)|
    ensures Blocks(tr, formatLabel, cs)[TotalSize(cs[..i]) + k] == CollectionBlock(tr, formatLabel, cs[i])[k]
  {
    FlatMapAt(cs, c => CollectionBlock(tr, formatLabel, c), i, k);
    BlocksLength(tr, formatLabel, cs[..i]);
  }

  /** Collection `i`'s entries occupy positions `5 + TotalSize(cs[..i])` onwards of the catalog. */
  lemma CatalogCollectionEntry(tr: I18n.Translator, formatLabel: string -> string, cs: seq<CollectionConfig>,
                               custom: Option<seq<CustomPermission>>, i: nat, k: nat)
    requires i < |cs| && k < BlockSize(cs[i])
    ensures |SpecialValues| + TotalSize(cs[..i]) + k < |Catalog(tr, formatLabel, cs, custom)|
    ensures Catalog(tr, formatLabel, cs, custom)[|SpecialValues| + TotalSize(cs[..i]) + k] == CollectionBlock(tr, formatLabel, cs[i])[k]
  {
    BlocksAt(tr, formatLabel, cs, i, k);
    var specials := SpecialPermissions(tr);
    var blocks := Blocks(tr, formatLabel, cs);
    var j := TotalSize(cs[..i]) + k;
    assert (specials + blocks + CustomEntries(formatLabel, custom))[|specials| + j] == blocks[j];
  }

  /** Custom entries come last, in their own order, after every collection entry. */
  lemma CatalogCustomEntry(tr: I18n.Translator, formatLabel: string -> string, cs: seq<CollectionConfig>,
                           custom: seq<CustomPermission>, j: nat)
    requires j < |custom|
    ensures |SpecialValues| + TotalSize(cs) + j < |Catalog(tr, formatLabel, cs, Some(custom))|
    ensures Catalog(tr, formatLabel, cs, Some(custom))[|SpecialValues| + TotalSize(cs) + j] == ProcessCustom(formatLabel, custom[j])
  {
    BlocksLength(tr, formatLabel, cs);
  }

  /** The blocks follow input order: an earlier collection's block ends before a later one's starts. */
  lemma {:induction false} BlocksInInputOrder(cs: seq<CollectionConfig>, i: nat, j: nat)
    requires i < j <= |cs|
    ensures TotalSize(cs[..i]) + BlockSize(cs[i]) <= TotalSize(cs[..j])
    decreases j
  {
    PrefixSize(cs, j - 1);
    if i < j - 1 {
      BlocksInInputOrder(cs, i, j - 1);
    }
  }

  lemma {:induction false} PrefixSize(cs: seq<CollectionConfig>, n: nat)
    requires n < |cs|
    ensures TotalSize(cs[..n + 1]) == TotalSize(cs[..n]) + BlockSize(cs[n])
    decreases n
  {
    if n > 0 {
      PrefixSize(cs[1..], n - 1);
      assert cs[..n + 1][1..] == cs[1..][..n];
      assert cs[..n][1..] == cs[1..][..n - 1];
    } else {
      assert cs[..1][1..] == [];
    }
  }

  lemma SuffixesDiffer(slug: string, a: string, b: string)
    requires |a| > 1 && |b| > 1 && a[1] != b[1]
    ensures slug + a != slug + b
  {
    assert (slug + a)[|slug| + 1] == a[1];
    assert (slug + b)[|slug| + 1] == b[1];
  }

  /** `slug.publish` differs from the values a block lists before it. */
  lemma PublishDiffersFromEarlierValues(slug: string)
    ensures slug + ".publish" != slug + ".*" && slug + ".publish" != slug + ".manage"
    ensures forall op :: op in CrudOperations ==> slug + ".publish" != slug + "." + op
  {
    var publish := slug + ".publish";
    assert (slug + ".*")[|slug| + 1] == '*';
    assert publish[|slug| + 1] == 'p';
    SuffixesDiffer(slug, ".publish", ".manage");
    forall op | op in CrudOperations
      ensures publish != slug + "." + op
    {
      assert slug + "." + op == slug + ("." + op);
      SuffixesDiffer(slug, ".publish", "." + op);
    }
  }

  /** A collection's block holds a `publish` entry exactly when the collection is versioned, and then only after `manage`. */
  lemma PublishIffVersioned(tr: I18n.Translator, formatLabel: string -> string, c: CollectionConfig)
    ensures var block := CollectionBlock(tr, formatLabel, c);
      (exists k :: 0 <= k < |block| && block[k].value == c.slug + ".publish") <==> c.versions
    ensures var block := CollectionBlock(tr, formatLabel, c);
      forall k :: 0 <= k < |block| && block[k].value == c.slug + ".publish" ==> k == |block| - 1 && block[k - 1].value == c.slug + ".manage"
  {
    var block := CollectionBlock(tr, formatLabel, c);
    var publish := c.slug + ".publish";
    CollectionBlockShape(tr, formatLabel, c);
    PublishDiffersFromEarlierValues(c.slug);
    forall k | 0 <= k < 2 + |CrudOperations|
      ensures block[k].value != publish
    {
      if 1 <= k <= |CrudOperations| {
        assert CrudOperations[k - 1] in CrudOperations;
      }
    }
    if c.versions {
      assert block[|block| - 1].value == publish;
    }
  }
}
