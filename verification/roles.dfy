/**
 * The roles collection: its access rules, the protection guard run before
 * a role is written (`beforeChange`) or deleted (`beforeDelete`), and the
 * option lists of its `permissions` and `visibleFor` fields.
 *
 * The permission matcher and the framework's lookups are not part of this
 * model: their answers ("holds `*`", "holds `roles.delete`", the admin user
 * count, the stored role) are inputs.
 */
module Roles {
  import opened Wrappers
  import I18n
  import Permissions

  // ----- Payload documents -----

  /** A JavaScript value a payload field can hold. */
  datatype Value = Str(s: string) | StrList(items: seq<string>) | Flag(b: bool) | Null | Undefined

  predicate Truthy(v: Value)
  {
    match v
    case Str(s) => s != ""
    case StrList(_) => true
    case Flag(b) => b
    case Null => false
    case Undefined => false
  }

  datatype Field = Field(key: string, value: Value)

  predicate UniqueKeys(fields: seq<Field>)
  {
    forall i, j :: 0 <= i < j < |fields| ==> fields[i].key != fields[j].key
  }

  /** The submitted data of a role: its own properties in `Object.keys` order. */
  type Payload = fields: seq<Field> | UniqueKeys(fields) witness []

  function Keys(data: seq<Field>): (keys: seq<string>)
    ensures |keys| == |data|
    ensures forall i :: 0 <= i < |data| ==> keys[i] == data[i].key
    decreases |data|
  {
    if |data| == 0 then [] else [data[0].key] + Keys(data[1..])
  }

  /** `data[key]`: a property that is not there reads as `undefined`. */
  function Get(data: seq<Field>, key: string): Value
    decreases |data|
  {
    if |data| == 0 then Undefined
    else if data[0].key == key then data[0].value
    else Get(data[1..], key)
  }

  lemma {:induction false} GetAbsent(data: seq<Field>, key: string)
    requires key !in Keys(data)
    ensures Get(data, key) == Undefined
    decreases |data|
  {
    if |data| > 0 {
      assert Keys(data)[0] == data[0].key;
      assert Keys(data[1..]) == Keys(data)[1..];
      GetAbsent(data[1..], key);
    }
  }

  /** `data[key] = v`: an existing property keeps its place, a new one goes last. */
  function Assign(data: seq<Field>, key: string, v: Value): seq<Field>
    decreases |data|
  {
    if |data| == 0 then [Field(key, v)]
    else if data[0].key == key then [Field(key, v)] + data[1..]
    else [data[0]] + Assign(data[1..], key, v)
  }

  lemma {:induction false} AssignKeys(data: seq<Field>, key: string, v: Value)
    ensures Keys(Assign(data, key, v)) == if key in Keys(data) then Keys(data) else Keys(data) + [key]
    decreases |data|
  {
    if |data| == 0 {
      assert Keys([Field(key, v)]) == [key];
    } else {
      var rest := Keys(data[1..]);
      assert Keys(data) == [data[0].key] + rest;
      if data[0].key != key {
        AssignKeys(data[1..], key, v);
        var tail := Keys(Assign(data[1..], key, v));
        assert Keys(Assign(data, key, v)) == [data[0].key] + tail;
        assert key in Keys(data) <==> key in rest;
        if key !in rest {
          assert [data[0].key] + (rest + [key]) == Keys(data) + [key];
        }
      } else {
        assert Keys(Assign(data, key, v)) == [key] + rest;
        assert Keys(data)[0] == key;
      }
    }
  }

  lemma {:induction false} AssignGet(data: seq<Field>, key: string, v: Value, k: string)
    ensures Get(Assign(data, key, v), k) == if k == key then v else Get(data, k)
    decreases |data|
  {
    if |data| > 0 && data[0].key != key {
      AssignGet(data[1..], key, v, k);
    }
  }

  lemma AssignUnique(data: Payload, key: string, v: Value)
    ensures UniqueKeys(Assign(data, key, v))
  {
    var r := Assign(data, key, v);
    AssignKeys(data, key, v);
    var keys := Keys(r);
    forall i, j | 0 <= i < j < |r| ensures r[i].key != r[j].key {
      assert keys[i] == r[i].key && keys[j] == r[j].key;
      if j < |data| {
        assert Keys(data)[i] == data[i].key && Keys(data)[j] == data[j].key;
      } else {
        assert keys[j] == key && key !in Keys(data);
        assert Keys(data)[i] == data[i].key;
      }
    }
  }

  /** `data.active = true`: `active` now reads `true`, every other property reads as before, and the key order is kept. */
  function WithActive(data: Payload): (r: Payload)
    ensures Get(r, "active") == Flag(true)
    ensures forall k :: k != "active" ==> Get(r, k) == Get(data, k)
    ensures Keys(r) == if "active" in Keys(data) then Keys(data) else Keys(data) + ["active"]
  {
    AssignUnique(data, "active", Flag(true));
    AssignKeys(data, "active", Flag(true));
    forall k ensures Get(Assign(data, "active", Flag(true)), k) == if k == "active" then Flag(true) else Get(data, k) {
      AssignGet(data, "active", Flag(true), k);
    }
    Assign(data, "active", Flag(true))
  }

  // ----- Users and stored roles -----

  /**
   * How an authenticated user refers to its role: no `role` property, a
   * property holding `undefined`, an id (non-empty), or a populated role
   * object with or without an `id`.
   */
  datatype RoleRef = NoRoleProperty | UndefinedRole | RoleId(id: string) | RoleObject(objectId: Option<string>)

  datatype User = User(role: RoleRef)

  /** A role as stored. */
  datatype RoleDoc = RoleDoc(id: string, name: string, labelText: string, protected: bool)

  /** `user && 'role' in user && user.role`. */
  predicate HasRole(user: Option<User>)
  {
    user.Some? &&
    match user.value.role
    case RoleId(id) => id != ""
    case RoleObject(_) => true
    case _ => false
  }

  // ----- Access rules -----

  /** Outcome of counting the admin collection's users. */
  datatype CountResult = Counted(totalDocs: nat) | CountFailed

  /** `access.read`: authenticated users always; anonymous ones only during first-user setup. */
  function ReadAccess(user: Option<User>, adminCollectionSlug: Option<string>, count: CountResult): (allowed: bool)
    ensures allowed <==> user.Some? || (adminCollectionSlug.Some? && adminCollectionSlug.value != "" && count == Counted(0))
  {
    if user.None? then
      if adminCollectionSlug.Some? && adminCollectionSlug.value != "" then
        match count
        case Counted(n) => n == 0
        case CountFailed => false
      else false
    else true
  }

  /** `access.create` and `access.update`: a user with a role whose permissions grant `roles.create` (resp. `roles.update`). */
  function WriteAccess(user: Option<User>, granted: bool): (allowed: bool)
    ensures allowed <==> HasRole(user) && granted
  {
    if !HasRole(user) then false else granted
  }

  /** What `access.delete` learns about its target: no id, the fetched document (maybe none), or a failed fetch. */
  datatype ProtectionCheck = NoTargetId | TargetFound(doc: Option<RoleDoc>) | TargetLookupFailed

  predicate TargetIsProtected(target: ProtectionCheck)
  {
    target.TargetFound? && target.doc.Some? && target.doc.value.protected
  }

  /** `access.delete`: role, `roles.delete`, and a target not known to be protected. */
  function DeleteAccess(user: Option<User>, hasDeletePermission: bool, target: ProtectionCheck): (allowed: bool)
    ensures allowed <==> HasRole(user) && hasDeletePermission && !TargetIsProtected(target)
  {
    if !HasRole(user) then false
    else if !hasDeletePermission then false
    else
      match target
      case NoTargetId => true
      case TargetFound(doc) => !(doc.Some? && doc.value.protected)
      case TargetLookupFailed => true
  }

  // ----- beforeChange -----

  datatype Operation = Create | Update

  /** A rejection entry: the offending field and the translation key of its message. */
  datatype FieldError = FieldError(path: string, messageKey: string)

  const NameCannotChange: string := "collections.roles.errors.nameCannotChange"
  const CannotRemoveSuperAdmin: string := "collections.roles.errors.cannotRemoveSuperAdmin"
  const ProtectedFieldCannotModify: string := "collections.roles.errors.protectedFieldCannotModify"
  const ProtectedCannotDelete: string := "collections.roles.errors.protectedCannotDelete"

  /** Fields Payload may include on its own; ignored by the whitelist. */
  const SystemFields: seq<string> := ["id", "createdAt", "updatedAt", "_status", "configHash", "configVersion", "active", "name"]

  /** The only fields a non-super-admin may change on a protected role. */
  const AllowedFields: seq<string> := ["description", "permissions"]

  /** Everything the hook reads besides the data: the operation, the stored role, the user, `checkPermission(…, '*')` and the skip option. */
  datatype ChangeRequest = ChangeRequest(operation: Operation, originalDoc: Option<RoleDoc>, user: Option<User>,
                                         superAdminCheck: bool, skipPermissionChecks: bool)

  /**
   * What the hook decides: return the data (after `active = true` when
   * `forceActive`), throw a validation error, or fail with a TypeError
   * (calling `includes` on a value that has none).
   */
  datatype Verdict = Accept(forceActive: bool) | Reject(errors: seq<FieldError>) | TypeFault

  /** `isSuperAdmin`: only asked of a user that has a `role` property. */
  predicate IsSuperAdmin(user: Option<User>, superAdminCheck: bool)
  {
    user.Some? && user.value.role != NoRoleProperty && superAdminCheck
  }

  predicate ProtectedUpdate(req: ChangeRequest)
  {
    req.originalDoc.Some? && req.originalDoc.value.protected && req.operation == Update
  }

  /** `data.name && data.name !== originalDoc.name`. */
  predicate NameChanges(submitted: Value, stored: string)
  {
    Truthy(submitted) && submitted != Str(stored)
  }

  /** `userRoleId === originalDoc?.id`. */
  predicate IsUpdatingOwnRole(role: RoleRef, originalDoc: Option<RoleDoc>)
  {
    match role
    case RoleId(id) => originalDoc.Some? && originalDoc.value.id == id
    case RoleObject(Some(id)) => originalDoc.Some? && originalDoc.value.id == id
    case RoleObject(None) => false
    case UndefinedRole => originalDoc.None?
    case NoRoleProperty => originalDoc.None?
  }

  /** `permissions.includes('*')`, or `None` where the value has no `includes`. */
  function IncludesWildcard(permissions: Value): Option<bool>
  {
    match permissions
    case StrList(items) => Some("*" in items)
    case Str(s) => Some('*' in s)
    case _ => None
  }

  /** `b` is `a` with some elements removed, order kept. */
  predicate Subsequence<T(==)>(a: seq<T>, b: seq<T>)
    decreases |b|
  {
    |a| == 0 || (|b| > 0 && if a[0] == b[0] then Subsequence(a[1..], b[1..]) else Subsequence(a, b[1..]))
  }

  /** The submitted keys that are neither system fields nor `description`/`permissions`, in key order. */
  function DisallowedFields(keys: seq<string>): (bad: seq<string>)
    ensures forall k :: k in bad <==> k in keys && k !in SystemFields && k !in AllowedFields
    ensures Subsequence(bad, keys)
    decreases |keys|
  {
    if |keys| == 0 then []
    else
      var rest := DisallowedFields(keys[1..]);
      if keys[0] !in SystemFields && keys[0] !in AllowedFields then
        assert ([keys[0]] + rest)[1..] == rest;
        [keys[0]] + rest
      else
        SubsequenceOfTail(rest, keys);
        rest
  }

  lemma {:induction false} SubsequenceOfTail<T>(a: seq<T>, b: seq<T>)
    requires |b| > 0 && Subsequence(a, b[1..])
    ensures Subsequence(a, b)
    decreases |b|, 0
  {
    if |a| > 0 && a[0] == b[0] {
      SubsequenceDropHead(a, b[1..]);
    }
  }

  lemma {:induction false} SubsequenceDropHead<T>(a: seq<T>, b: seq<T>)
    requires |a| > 0 && Subsequence(a, b)
    ensures Subsequence(a[1..], b)
    decreases |b|, 1
  {
    if a[0] == b[0] {
      SubsequenceOfTail(a[1..], b);
    } else {
      SubsequenceDropHead(a, b[1..]);
      SubsequenceOfTail(a[1..], b);
    }
  }

  function FieldErrors(fields: seq<string>): (errors: seq<FieldError>)
    ensures |errors| == |fields|
    ensures forall i :: 0 <= i < |fields| ==> errors[i] == FieldError(fields[i], ProtectedFieldCannotModify)
  {
    seq(|fields|, i requires 0 <= i < |fields| => FieldError(fields[i], ProtectedFieldCannotModify))
  }

  /** The decision of the `beforeChange` hook, check by check in the hook's order. */
  function ChangeVerdict(data: Payload, req: ChangeRequest): Verdict
  {
    if req.skipPermissionChecks then Accept(false)
    else
      var superAdmin := IsSuperAdmin(req.user, req.superAdminCheck);
      var permissions := Get(data, "permissions");
      if ProtectedUpdate(req) && NameChanges(Get(data, "name"), req.originalDoc.value.name) then
        Reject([FieldError("name", NameCannotChange)])
      else if superAdmin && req.operation == Update && IsUpdatingOwnRole(req.user.value.role, req.originalDoc)
              && permissions != Undefined && IncludesWildcard(permissions) != Some(true) then
        if IncludesWildcard(permissions).None? then TypeFault
        else Reject([FieldError("permissions", CannotRemoveSuperAdmin)])
      else if superAdmin then Accept(ProtectedUpdate(req))
      else if ProtectedUpdate(req) then
        var bad := DisallowedFields(Keys(data));
        if |bad| > 0 then Reject(FieldErrors(bad)) else Accept(true)
      else Accept(false)
  }

  /** The data object the hook receives and updates in place. */
  class RoleData {
    var fields: Payload

    constructor (fields: Payload)
      ensures this.fields == fields
    {
      this.fields := fields;
    }
  }

  /** The `beforeChange` hook: checks in order, forcing `active` on accepted protected updates. */
  method BeforeChange(data: RoleData, req: ChangeRequest) returns (verdict: Verdict)
    modifies data
    ensures verdict == ChangeVerdict(old(data.fields), req)
    ensures data.fields == if verdict == Accept(true) then WithActive(old(data.fields)) else old(data.fields)
  {
    if req.skipPermissionChecks {
      return Accept(false);
    }
    var isSuperAdmin := false;
    if req.user.Some? && req.user.value.role != NoRoleProperty {
      isSuperAdmin := req.superAdminCheck;
    }
    var protectedUpdate := req.originalDoc.Some? && req.originalDoc.value.protected && req.operation == Update;
    if protectedUpdate {
      var name := Get(data.fields, "name");
      if Truthy(name) && name != Str(req.originalDoc.value.name) {
        return Reject([FieldError("name", NameCannotChange)]);
      }
    }
    if isSuperAdmin && req.operation == Update && req.user.Some? {
      var permissions := Get(data.fields, "permissions");
      if IsUpdatingOwnRole(req.user.value.role, req.originalDoc) && permissions != Undefined {
        var includes := IncludesWildcard(permissions);
        if includes.None? {
          return TypeFault;
        }
        if !includes.value {
          return Reject([FieldError("permissions", CannotRemoveSuperAdmin)]);
        }
      }
    }
    if isSuperAdmin {
      if protectedUpdate {
        data.fields := WithActive(data.fields);
      }
      return Accept(protectedUpdate);
    }
    if protectedUpdate {
      var disallowed := DisallowedFields(Keys(data.fields));
      if |disallowed| > 0 {
        return Reject(FieldErrors(disallowed));
      }
      data.fields := WithActive(data.fields);
      return Accept(true);
    }
    return Accept(false);
  }

  // ----- Properties of the guard -----

  /** With permission checks skipped, the data goes through untouched. */
  lemma SkipLeavesDataUnchanged(data: Payload, req: ChangeRequest)
    requires req.skipPermissionChecks
    ensures ChangeVerdict(data, req) == Accept(false)
  {
  }

  /** Renaming a protected role is rejected at `name`, whoever asks, super admin included. */
  lemma ProtectedNameIsImmutable(data: Payload, req: ChangeRequest, newName: string)
    requires !req.skipPermissionChecks && ProtectedUpdate(req)
    requires Get(data, "name") == Str(newName) && newName != "" && newName != req.originalDoc.value.name
    ensures ChangeVerdict(data, req) == Reject([FieldError("name", NameCannotChange)])
  {
  }

  /** A super admin cannot submit permissions without `*` for the role it holds. */
  lemma SuperAdminKeepsOwnWildcard(data: Payload, req: ChangeRequest, permissions: seq<string>)
    requires !req.skipPermissionChecks && req.operation == Update
    requires IsSuperAdmin(req.user, req.superAdminCheck) && IsUpdatingOwnRole(req.user.value.role, req.originalDoc)
    requires !(ProtectedUpdate(req) && NameChanges(Get(data, "name"), req.originalDoc.value.name))
    requires Get(data, "permissions") == StrList(permissions) && "*" !in permissions
    ensures ChangeVerdict(data, req) == Reject([FieldError("permissions", CannotRemoveSuperAdmin)])
  {
  }

  /** A super admin's update without a `permissions` property skips the self-lockout check and is accepted. */
  lemma SuperAdminWithoutPermissionsAccepted(data: Payload, req: ChangeRequest)
    requires !req.skipPermissionChecks && IsSuperAdmin(req.user, req.superAdminCheck)
    requires "permissions" !in Keys(data)
    requires !(ProtectedUpdate(req) && NameChanges(Get(data, "name"), req.originalDoc.value.name))
    ensures ChangeVerdict(data, req) == Accept(ProtectedUpdate(req))
  {
    GetAbsent(data, "permissions");
  }

  /**
   * A non-super-admin's update of a protected role is rejected with one
   * error per submitted field outside the system fields and
   * `description`/`permissions`, in key order; with none, it is accepted.
   */
  lemma NonSuperAdminWhitelist(data: Payload, req: ChangeRequest)
    requires !req.skipPermissionChecks && ProtectedUpdate(req) && !IsSuperAdmin(req.user, req.superAdminCheck)
    requires !NameChanges(Get(data, "name"), req.originalDoc.value.name)
    ensures var bad := DisallowedFields(Keys(data));
      ChangeVerdict(data, req) == if |bad| == 0 then Accept(true) else Reject(FieldErrors(bad))
  {
  }

  /** Submitting only `description`, `permissions` and system fields to a protected role (without a rename) is accepted. */
  lemma WhitelistedFieldsAccepted(data: Payload, req: ChangeRequest)
    requires !req.skipPermissionChecks && ProtectedUpdate(req) && !IsSuperAdmin(req.user, req.superAdminCheck)
    requires !NameChanges(Get(data, "name"), req.originalDoc.value.name)
    requires forall k :: k in Keys(data) ==> k in SystemFields || k in AllowedFields
    ensures ChangeVerdict(data, req) == Accept(true)
  {
    NonEmptyHasMember(DisallowedFields(Keys(data)));
  }

  lemma NonEmptyHasMember<T>(s: seq<T>)
    ensures |s| > 0 ==> s[0] in s
  {
  }

  /** Any other submitted field, such as `label`, makes the update fail with an error at that field. */
  lemma ForeignFieldRejected(data: Payload, req: ChangeRequest, field: string)
    requires !req.skipPermissionChecks && ProtectedUpdate(req) && !IsSuperAdmin(req.user, req.superAdminCheck)
    requires !NameChanges(Get(data, "name"), req.originalDoc.value.name)
    requires field in Keys(data) && field !in SystemFields && field !in AllowedFields
    ensures ChangeVerdict(data, req).Reject?
    ensures FieldError(field, ProtectedFieldCannotModify) in ChangeVerdict(data, req).errors
  {
    var bad := DisallowedFields(Keys(data));
    assert field in bad;
    var i :| 0 <= i < |bad| && bad[i] == field;
    assert FieldErrors(bad)[i] == FieldError(field, ProtectedFieldCannotModify);
  }

  /** Every protected update that passes the checks is written with `active` forced on. */
  lemma AcceptedProtectedUpdateForcesActive(data: Payload, req: ChangeRequest)
    requires !req.skipPermissionChecks && ProtectedUpdate(req)
    requires ChangeVerdict(data, req).Accept?
    ensures ChangeVerdict(data, req) == Accept(true)
    ensures Get(WithActive(data), "active") == Flag(true)
    ensures forall k :: k != "active" ==> Get(WithActive(data), k) == Get(data, k)
  {
  }

  /** Only a protected update is ever rewritten; every other write keeps the data as submitted. */
  lemma OnlyProtectedUpdatesRewritten(data: Payload, req: ChangeRequest)
    requires ChangeVerdict(data, req) == Accept(true)
    ensures ProtectedUpdate(req) && !req.skipPermissionChecks
  {
  }

  /** Every rejection names at least one field, and only fields present in the submitted data. */
  lemma RejectionsNamePresentFields(data: Payload, req: ChangeRequest)
    requires ChangeVerdict(data, req).Reject?
    ensures |ChangeVerdict(data, req).errors| > 0
    ensures forall e :: e in ChangeVerdict(data, req).errors ==> e.path in Keys(data)
  {
    var errors := ChangeVerdict(data, req).errors;
    if "name" !in Keys(data) {
      GetAbsent(data, "name");
    }
    if "permissions" !in Keys(data) {
      GetAbsent(data, "permissions");
    }
    forall e | e in errors ensures e.path in Keys(data) {
      var i :| 0 <= i < |errors| && errors[i] == e;
    }
  }

  // ----- beforeDelete -----

  /** The result of fetching the role to delete. */
  datatype Fetch = Fetched(doc: Option<RoleDoc>) | FetchFailed

  datatype DeleteOutcome = Proceed | Forbidden(messageKey: string, roleLabel: string) | LookupError

  /** The `beforeDelete` hook: a protected role is never deleted; the message names its label, else its name. */
  function BeforeDelete(fetch: Fetch): (outcome: DeleteOutcome)
    ensures outcome.Forbidden? <==> fetch.Fetched? && fetch.doc.Some? && fetch.doc.value.protected
    ensures outcome == LookupError <==> fetch.FetchFailed?
    ensures outcome.Forbidden? ==>
      outcome.messageKey == ProtectedCannotDelete &&
      (fetch.doc.value.labelText != "" ==> outcome.roleLabel == fetch.doc.value.labelText) &&
      (fetch.doc.value.labelText == "" ==> outcome.roleLabel == fetch.doc.value.name)
  {
    match fetch
    case FetchFailed => LookupError
    case Fetched(doc) =>
      if doc.Some? && doc.value.protected then
        Forbidden(ProtectedCannotDelete, if doc.value.labelText != "" then doc.value.labelText else doc.value.name)
      else Proceed
  }

  /** A protected role is undeletable through both doors: the access rule and the hook, whatever the user's permissions. */
  lemma ProtectedRoleUndeletable(doc: RoleDoc, user: Option<User>, hasDeletePermission: bool)
    requires doc.protected
    ensures !DeleteAccess(user, hasDeletePermission, TargetFound(Some(doc)))
    ensures BeforeDelete(Fetched(Some(doc))).Forbidden?
  {
  }

  // ----- Field options -----

  /** An option of a select field. */
  datatype SelectOption = SelectOption(text: string, value: string)

  /** `options.rolesSlug || 'roles'`. */
  function RolesSlug(configured: Option<string>): string
  {
    if configured.Some? && configured.value != "" then configured.value else "roles"
  }

  /** The collections the permission catalog is built over: the user's collections and a placeholder for the roles collection. */
  function CollectionsWithRoles(collections: seq<Permissions.CollectionConfig>, rolesSlug: string): seq<Permissions.CollectionConfig>
  {
    collections + [Permissions.CollectionConfig(rolesSlug, false, Permissions.AuthUnset, None)]
  }

  /** The options of the `permissions` field. */
  function PermissionOptions(tr: I18n.Translator, formatLabel: string -> string, collections: seq<Permissions.CollectionConfig>,
                             configuredSlug: Option<string>, custom: Option<seq<Permissions.CustomPermission>>): seq<SelectOption>
  {
    var catalog := Permissions.Catalog(tr, formatLabel, CollectionsWithRoles(collections, RolesSlug(configuredSlug)), custom);
    seq(|catalog|, i requires 0 <= i < |catalog| => SelectOption(catalog[i].labelText, catalog[i].value))
  }

  predicate Offers(options: seq<SelectOption>, value: string)
  {
    exists i :: 0 <= i < |options| && options[i].value == value
  }

  /** The roles collection's own permissions are always offered: its wildcard, each CRUD operation and `manage`. */
  lemma RolesPermissionsOffered(tr: I18n.Translator, formatLabel: string -> string, collections: seq<Permissions.CollectionConfig>,
                                configuredSlug: Option<string>, custom: Option<seq<Permissions.CustomPermission>>)
    ensures var options := PermissionOptions(tr, formatLabel, collections, configuredSlug, custom);
      var slug := RolesSlug(configuredSlug);
      Offers(options, slug + ".*") && Offers(options, slug + ".manage") &&
      forall op :: op in Permissions.CrudOperations ==> Offers(options, slug + "." + op)
  {
    var slug := RolesSlug(configuredSlug);
    var cs := CollectionsWithRoles(collections, slug);
    var options := PermissionOptions(tr, formatLabel, collections, configuredSlug, custom);
    var n := |collections|;
    assert cs[..n] == collections;
    var block := Permissions.CollectionBlock(tr, formatLabel, cs[n]);
    Permissions.CollectionBlockShape(tr, formatLabel, cs[n]);
    var base := |Permissions.SpecialValues| + Permissions.TotalSize(collections);
    forall k | 0 <= k < 2 + |Permissions.CrudOperations|
      ensures base + k < |options| && options[base + k].value == block[k].value
    {
      Permissions.CatalogCollectionEntry(tr, formatLabel, cs, custom, n, k);
    }
    assert options[base].value == slug + ".*";
    assert options[base + 5].value == slug + ".manage";
    forall op | op in Permissions.CrudOperations
      ensures Offers(options, slug + "." + op)
    {
      var k :| 0 <= k < |Permissions.CrudOperations| && Permissions.CrudOperations[k] == op;
      assert options[base + 1 + k].value == slug + "." + op;
    }
  }

  /** `c.auth === true || (c.auth && typeof c.auth === 'object')`. */
  predicate AuthEnabled(c: Permissions.CollectionConfig)
  {
    c.auth == Permissions.AuthFlag(true) || c.auth == Permissions.AuthOptions
  }

  /** The auth-enabled collections, in configuration order. */
  function AuthCollections(cs: seq<Permissions.CollectionConfig>): (r: seq<Permissions.CollectionConfig>)
    ensures forall c :: c in r <==> c in cs && AuthEnabled(c)
    ensures Subsequence(r, cs)
    decreases |cs|
  {
    if |cs| == 0 then []
    else
      var rest := AuthCollections(cs[1..]);
      if AuthEnabled(cs[0]) then
        assert ([cs[0]] + rest)[1..] == rest;
        [cs[0]] + rest
      else
        SubsequenceOfTail(rest, cs);
        rest
  }

  /** `c.labels?.singular || formatLabel(c.slug)`. */
  function DisplayLabel(formatLabel: string -> string, c: Permissions.CollectionConfig): string
  {
    if c.singularLabel.Some? && c.singularLabel.value != "" then c.singularLabel.value else formatLabel(c.slug)
  }

  /** The options of the `visibleFor` field: one per auth-enabled collection, valued by its slug. */
  function VisibleForOptions(formatLabel: string -> string, cs: seq<Permissions.CollectionConfig>): seq<SelectOption>
  {
    var ac := AuthCollections(cs);
    seq(|ac|, i requires 0 <= i < |ac| => SelectOption(DisplayLabel(formatLabel, ac[i]), ac[i].slug))
  }

  /** A collection's slug is offered for `visibleFor` when it is auth-enabled, and every option comes from such a collection. */
  lemma VisibleForMatchesAuthCollections(formatLabel: string -> string, cs: seq<Permissions.CollectionConfig>)
    ensures forall c :: c in cs && AuthEnabled(c) ==> Offers(VisibleForOptions(formatLabel, cs), c.slug)
    ensures forall o :: o in VisibleForOptions(formatLabel, cs) ==>
      exists c :: c in cs && AuthEnabled(c) && o == SelectOption(DisplayLabel(formatLabel, c), c.slug)
  {
    var ac := AuthCollections(cs);
    var options := VisibleForOptions(formatLabel, cs);
    forall c | c in cs && AuthEnabled(c) ensures Offers(options, c.slug) {
      var i :| 0 <= i < |ac| && ac[i] == c;
      assert options[i].value == c.slug;
    }
    forall o | o in options
      ensures exists c :: c in cs && AuthEnabled(c) && o == SelectOption(DisplayLabel(formatLabel, c), c.slug)
    {
      var i :| 0 <= i < |options| && options[i] == o;
      assert ac[i] in ac;
    }
  }
}
