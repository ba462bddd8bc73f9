# Role-based access control for a Payload CMS plugin: a Dafny model

This project models the core of a plugin that governs access to the
collections of a Payload CMS application through roles carrying
string permissions (`*`, `*.read`, `posts.*`, `posts.update`,
`posts.manage`, `posts.publish`, …). It covers four parts of that core:

- **Translation resolver** (`I18n`, `Placeholders`, `Strings`). Per-locale nested
  translation tables and the process-wide current locale, kept in the class
  `LocaleState`. `setLocale`, `getLocale` and `initI18n` are its methods.
  Dot-path lookup (`getNestedValue`) is a loop proved against a path-walking
  function. The `t` function (`Translate`) falls back from the target locale to the
  baseline `en` table and then to the key itself. `{{name}}` placeholders are
  substituted by a tokenizer that scans like the `{{(\w+)}}` pattern.
- **Permission catalog builder** (`Permissions`). `generateCollectionPermissions`
  is a loop over the collections that builds each collection's entries and
  appends `publish` for versioned collections. It is proved equal to the
  specification `Catalog`, and lemmas about `Catalog` state its order, length
  and positions.
- **Role protection guard** (`Roles`). The `read`, `create`, `update` and
  `delete` access rules. The `beforeChange` hook is a method that updates the
  submitted `RoleData` object in place (`active = true`). It is proved against
  the decision function `ChangeVerdict`, and lemmas about that function state
  the protection rules. Also modelled: the `beforeDelete` hook and the option
  lists of the `permissions` and `visibleFor` fields.
- **Built-in roles** (`DefaultRoles`). The super-admin, public and example
  roles. Lemmas connect them to the guard.

The permission matcher (`checkPermission`) and the framework's lookups are
outside the model. Their answers become inputs: whether the user holds `*`
(`superAdminCheck`), whether it holds `roles.create`/`update`/`delete`, the
admin collection's user count, and the stored role. `formatLabel` is a
function-typed parameter. The translation tables are a parameter of type
`Tables`, which always contains the baseline `en` table.

Points where the code's behaviour is easy to misread:

- A custom permission whose value has no `.` gets the category
  `formatLabel(value)`, not "no category". Only an empty namespace (an empty
  value, or one starting with `.`) gives no category (`ProcessCustom`).
- The super-admin self-lockout check applies to whichever role the super admin
  holds, protected or not. It runs only when the payload has a `permissions`
  property.
- No check guards the `protected` flag. A super admin may submit `protected`
  on any update. A user allowed to update roles may submit it for an
  unprotected role, and anyone allowed to create roles may set it on a new role.
- An unknown locale reaching `t` resolves against `en` by re-entering `t` with
  `en` (`UnknownLocaleUsesBaseline`).

## Model

| member | source | states |
|---|---|---|
| `Strings.Split` | src/i18n/index.ts:40 | `split('.')` yields at least one piece, and no piece contains the separator |
| `Strings.JoinSplit` | src/i18n/index.ts:40 | joining the pieces of a split with the separator gives back the original string |
| `Strings.SplitJoin` | src/i18n/index.ts:40 | splitting the join of separator-free pieces gives back exactly those pieces |
| `Strings.SplitHead` | src/utils/generatePermissions.ts:103 | `split('.')[0]` is the prefix before the first dot: a prefix followed by a dot or by the end of the string |
| `Placeholders.ReplacePlaceholders` | src/i18n/index.ts:58-59 | with no value map the string is returned unchanged |
| `Placeholders.UnparseTokenize` | src/i18n/index.ts:61 | the tokenizer loses nothing: its pieces spell the input |
| `Placeholders.TokensAreWords` | src/i18n/index.ts:61 | every recognised token has a non-empty name of word characters (`\w+`) |
| `Placeholders.Tokenize` | src/i18n/index.ts:61 | the global scan of `/\{\{(\w+)\}\}/g`; specified by `UnparseTokenize`, `TokensAreWords`, `CharsAreNotTokenStarts`, `TokenizeLeadingToken` and `TokenizeSingle` |
| `Placeholders.CharsAreNotTokenStarts` | src/i18n/index.ts:61 | the scan misses no match: no single character it passes over starts a `{{word}}` match of the rest of the text |
| `Placeholders.TokenizeLeadingToken` | src/i18n/index.ts:61 | a `{{w}}` at the start of the text, with `w` a word, is recognised as one token and the scan resumes right after it |
| `Placeholders.ReplaceUnboundKeepsText` | src/i18n/index.ts:61-63 | tokens whose names have no value stay verbatim, so a template with no bound names is unchanged |
| `Placeholders.ReplaceEmptyMap` | src/i18n/index.ts:58-64 | an empty value map changes nothing |
| `Placeholders.TokenizeSingle` | src/i18n/index.ts:61 | `{{w}}`, with `w` a word, is recognised as one token named `w` |
| `Placeholders.ReplaceSingleToken` | src/i18n/index.ts:61-63 | `{{w}}` becomes `values[w]` when `w` has a value and stays `{{w}}` otherwise |
| `Placeholders.ReplaceTokenInText` | src/i18n/index.ts:58-64 | a `{{w}}` between brace-free texts becomes `values[w]`, or stays `{{w}}` when `w` has no value, and the surrounding text is kept |
| `Placeholders.CreatedRoleMessage` | src/__tests__/i18n/index.test.ts:96-98 | `✅ Created role: {{name}}` with `name` bound becomes `✅ Created role: ` followed by the name |
| `I18n.LookupFindsEverySegment` | src/i18n/index.ts:39-52 | a lookup yields a string iff every segment is found in the table reached so far and the last node is a string |
| `I18n.GetNestedValue` | src/i18n/index.ts:39-52 | the segment-by-segment loop, with its early exit, returns exactly the path lookup of `split(path, '.')` |
| `I18n.Translate` | src/i18n/index.ts:73-100 | the `t` function; specified by `ExplicitLocaleIgnoresCurrent`, `UnknownLocaleUsesBaseline`, `TargetTableWins`, `FallsBackToBaseline`, `MissingEverywhereReturnsKey` and `TranslateResultSource` |
| `I18n.ExplicitLocaleIgnoresCurrent` | src/i18n/index.ts:73-79 | with a non-empty explicit locale, the result does not depend on the current locale |
| `I18n.UnknownLocaleUsesBaseline` | src/i18n/index.ts:78-84 | an unknown target locale resolves exactly as the `en` locale does |
| `I18n.TargetTableWins` | src/i18n/index.ts:86-99 | a non-empty string in the target locale's table is used, with placeholders filled in |
| `I18n.FallsBackToBaseline` | src/i18n/index.ts:88-91 | a non-`en` locale lacking the key or mapping it to `""` falls back to the `en` table's value |
| `I18n.MissingEverywhereReturnsKey` | src/i18n/index.ts:93-97 | when neither table yields a non-empty string, the key itself is returned |
| `I18n.TranslateResultSource` | src/i18n/index.ts:73-100 | for all inputs the result is the key, or a non-empty string of the target or `en` table with placeholders filled in |
| `I18n.LocaleState.constructor` | src/i18n/index.ts:15 | the current locale starts as `en`, with no warnings |
| `I18n.LocaleState.SetLocale` | src/i18n/index.ts:20-27 | a known locale becomes current; an unknown one adds one warning and resets the locale to `en`; the current locale stays a known one |
| `I18n.LocaleState.GetLocale` | src/i18n/index.ts:32-34 | returns the current locale and changes nothing |
| `I18n.LocaleState.InitI18n` | src/i18n/index.ts:105-107 | with no argument the locale becomes `en`; otherwise it behaves as `setLocale` |
| `I18n.UnknownLocaleScenario` | src/__tests__/i18n/index.test.ts:26-35 | setting an unknown locale leaves `en` current after exactly one warning |
| `Permissions.SpecialPermissions` | src/utils/generatePermissions.ts:9-40 | five entries with values `*`, `*.read`, `*.create`, `*.update`, `*.delete` in order, all in category `Special` |
| `Permissions.OperationLabel` | src/utils/generatePermissions.ts:125-130 | the label is never the raw key `permissions.operations.<op>`; `OperationLabelTranslated` and `OperationLabelUntranslated` give its value |
| `Permissions.OperationLabelTranslated` | src/utils/generatePermissions.ts:125-130 | when the resolver finds a non-empty string other than the key for `permissions.operations.<op>`, in the current table or else in `en`, the label is that string |
| `Permissions.OperationLabelUntranslated` | src/utils/generatePermissions.ts:125-130 | with no string for the operation in either table, the label is the operation name |
| `Permissions.CrudEntries` | src/utils/generatePermissions.ts:69-74 | `CRUD_OPERATIONS.map`: one entry per operation, in the given order, valued `slug.<op>` and in the collection's category |
| `Permissions.CollectionBlockShape` | src/utils/generatePermissions.ts:57-97 | a collection's block: `slug.*`, `slug.<op>` per CRUD operation in constant order, `slug.manage`, then `slug.publish` when versioned; all in category `formatLabel(slug)` |
| `Permissions.FlatMapAt` | src/utils/generatePermissions.ts:57 | `flatMap` places entry `k` of element `i`'s result right after the results of the elements before `i` |
| `Permissions.PublishIffVersioned` | src/utils/generatePermissions.ts:86-93 | the block holds a `slug.publish` entry iff the collection is versioned, and then only as its last entry, right after `slug.manage` |
| `Permissions.Namespace` | src/utils/generatePermissions.ts:103 | `value.split('.')[0]`: the dot-free prefix of the value that ends at its first `.` or at its end |
| `Permissions.ProcessCustom` | src/utils/generatePermissions.ts:101-110 | a custom entry keeps label, value and description; it has no category iff its value is empty or starts with `.`, and otherwise the category is `formatLabel` of the namespace |
| `Permissions.Catalog` | src/utils/generatePermissions.ts:48-118 | the returned list; specified by `CatalogLength`, `CatalogStartsWithSpecials`, `CatalogCollectionEntry`, `BlocksInInputOrder` and `CatalogCustomEntry` |
| `Permissions.GenerateCollectionPermissions` | src/utils/generatePermissions.ts:48-118 | the loop that builds each collection's array and pushes `publish` returns exactly `Catalog` |
| `Permissions.CatalogLength` | src/utils/generatePermissions.ts:57-117 | length is `5 + Σ(2 + 4 + [versions]) + number of custom entries` (0 when none are given) |
| `Permissions.CatalogStartsWithSpecials` | src/utils/generatePermissions.ts:113-117 | the first five catalog entries are the special wildcards in order, in category `Special` |
| `Permissions.CatalogCollectionEntry` | src/utils/generatePermissions.ts:57-115 | entry `k` of collection `i`'s block sits at position `5 + (sizes of the collections before i) + k` |
| `Permissions.BlocksInInputOrder` | src/utils/generatePermissions.ts:57-98 | an earlier collection's block ends before a later collection's block begins |
| `Permissions.CatalogCustomEntry` | src/utils/generatePermissions.ts:101-117 | custom entry `j` sits after all collection entries, at `5 + total block size + j` |
| `Roles.WithActive` | src/collections/Roles.ts:295-329 | `data.active = true`: `active` reads `true`, every other property reads as before, and the key order is kept |
| `Roles.ReadAccess` | src/collections/Roles.ts:40-62 | allowed iff a user is logged in, or an admin collection is configured and its count succeeded with 0 users |
| `Roles.WriteAccess` | src/collections/Roles.ts:63-70 | allowed iff the user has a role and the permission check grants `roles.create` (resp. `roles.update`) |
| `Roles.DeleteAccess` | src/collections/Roles.ts:71-96 | allowed iff the user has a role, holds `roles.delete`, and the target is not a fetched protected role |
| `Roles.DisallowedFields` | src/collections/Roles.ts:304-315 | exactly the submitted keys that are neither system fields nor `description`/`permissions`, in key order |
| `Roles.FieldErrors` | src/collections/Roles.ts:317-325 | one error per disallowed field, at that field's path, in order |
| `Roles.ChangeVerdict` | src/collections/Roles.ts:228-331 | the `beforeChange` decision; specified by `SkipLeavesDataUnchanged`, `ProtectedNameIsImmutable`, `SuperAdminKeepsOwnWildcard`, `SuperAdminWithoutPermissionsAccepted`, `NonSuperAdminWhitelist`, `AcceptedProtectedUpdateForcesActive`, `OnlyProtectedUpdatesRewritten` and `RejectionsNamePresentFields` |
| `Roles.BeforeChange` | src/collections/Roles.ts:228-332 | the hook returns `ChangeVerdict` of the submitted data; the data object changes only on `Accept(true)`, by `active = true` |
| `Roles.SkipLeavesDataUnchanged` | src/collections/Roles.ts:229-237 | with permission checks skipped, the data is accepted unchanged |
| `Roles.ProtectedNameIsImmutable` | src/collections/Roles.ts:252-266 | renaming a protected role to a different non-empty name is rejected with one error at `name`, for super admins too |
| `Roles.SuperAdminKeepsOwnWildcard` | src/collections/Roles.ts:268-292 | a super admin updating the role it holds with a list lacking `*` gets one error at `permissions` |
| `Roles.SuperAdminWithoutPermissionsAccepted` | src/collections/Roles.ts:279-301 | without a `permissions` property the self-lockout check is skipped and a super admin's update is accepted |
| `Roles.NonSuperAdminWhitelist` | src/collections/Roles.ts:303-329 | a non-super-admin's protected update is rejected with one error per disallowed key, in key order, or accepted with `active` forced when there are none |
| `Roles.WhitelistedFieldsAccepted` | src/collections/Roles.ts:303-329 | a payload of only `description`, `permissions` and system fields passes and has `active` forced |
| `Roles.ForeignFieldRejected` | src/collections/Roles.ts:303-325 | any other submitted field, such as `label`, is named by an error |
| `Roles.AcceptedProtectedUpdateForcesActive` | src/collections/Roles.ts:294-329 | every protected update that passes the checks is written with `active == true` and all other fields unchanged |
| `Roles.OnlyProtectedUpdatesRewritten` | src/collections/Roles.ts:294-331 | only an unskipped protected update is rewritten; all other writes keep the submitted data |
| `Roles.RejectionsNamePresentFields` | src/collections/Roles.ts:253-325 | every rejection has at least one error, and each names a field present in the submitted data |
| `Roles.BeforeDelete` | src/collections/Roles.ts:334-344 | forbidden iff the fetched role is protected, with `protectedCannotDelete` naming its label when that is non-empty and its name when the label is empty; a failed fetch propagates |
| `Roles.ProtectedRoleUndeletable` | src/collections/Roles.ts:71-96 | a protected role is refused by both the delete access rule and the delete hook, whatever the user's permissions |
| `Roles.PermissionOptions` | src/collections/Roles.ts:135-138 | the `permissions` field's options: label and value of each catalog entry; specified by `RolesPermissionsOffered` |
| `Roles.RolesPermissionsOffered` | src/collections/Roles.ts:18-27 | the `permissions` options always offer `<rolesSlug>.*`, each CRUD operation and `manage` of the roles collection |
| `Roles.AuthCollections` | src/collections/Roles.ts:215-216 | exactly the auth-enabled collections (`auth === true` or an object), in configuration order |
| `Roles.VisibleForOptions` | src/collections/Roles.ts:215-220 | the `visibleFor` field's options; specified by `AuthCollections` and `VisibleForMatchesAuthCollections` |
| `Roles.VisibleForMatchesAuthCollections` | src/collections/Roles.ts:210-224 | `visibleFor` offers each auth-enabled collection's slug, and every option comes from one, labelled by its singular label or formatted slug |
| `DefaultRoles.SuperAdminRole` | src/defaultRoles.ts:8-15 | name `super_admin`, permissions exactly `['*']`, protected and active |
| `DefaultRoles.PublicRole` | src/defaultRoles.ts:24-32 | permissions `['*.read']` by default and otherwise the given list; protected, active, empty `visibleFor` |
| `DefaultRoles.GetExampleRoles` | src/defaultRoles.ts:41-98 | admin, editor and user are unprotected and active; the user role holds exactly `users.read`, `users.update`, `media.create`, `media.read` |
| `DefaultRoles.ExampleAdminHasNoRoleManagement` | src/defaultRoles.ts:45-61 | no permission of the example admin starts with `roles.` |
| `DefaultRoles.BuiltInRolesUndeletable` | src/defaultRoles.ts:8-32 | the stored super-admin and public roles are refused by the delete hook, and the super-admin role by the delete access rule |
| `DefaultRoles.ExampleRolesDeletable` | src/defaultRoles.ts:41-98 | the delete hook lets each stored example role go |
| `DefaultRoles.SuperAdminCannotLockItselfOut` | src/collections/Roles.ts:268-292 | a user holding the stored super-admin role cannot submit permissions without `*` for it |

## Left out

- Console output: the resolver's missing-key and unknown-locale warnings from `t`, the read rule's error log and the delete rule's warning are not modelled. Only `setLocale`'s warning is counted, by the ghost field `LocaleState.warnings`.
- JavaScript prototype properties are not modelled. Keys such as `toString` that `in` would find on a table, on the locale registry or on the value map are treated as absent.
- Translation tables are modelled as strings, nested tables and other scalars; JSON arrays inside a table are not modelled.
- Placeholder values are strings; `String(n)` for numeric values is not modelled.
- The `Roles.Value` type models a submitted property as absent, `null`, a boolean, a string or a list of strings. Number and object values are not modelled, because the guard only tests presence, truthiness, `*` membership and string equality.
- `Roles.DisplayLabel`: `labels.singular` is modelled as a string. Payload also accepts a per-locale record there, which is not modelled.
- `Roles.IsUpdatingOwnRole`: a role property holding `null`, `0` or `""` is treated like `undefined`. A `RoleId` is taken to be a string id.
- `Roles.ChangeVerdict`: `Object.keys` order is taken as given. JavaScript's reordering of integer-like keys is not modelled.
- The `afterChange` hook only writes an informational log when the super-admin role is created, so it is not modelled.
- Admin UI configuration (descriptions, groups, columns, field conditions, the `protectedNotice` UI field), the React notice component and the field schema of the roles collection are not modelled.
- `checkPermission`, `formatLabel`, `getRolesSlug` and the `payload.count`/`payload.findByID` calls are not part of this model. Their results are inputs or parameters.
- The function form of `skipPermissionChecks` is modelled by its boolean result.
