/**
 * The built-in role definitions: the super-admin role the system always
 * creates, the public role for anonymous users, and three example roles
 * a configuration may use. Labels and descriptions come from the
 * translation resolver.
 */
module DefaultRoles {
  import opened Wrappers
  import Strings
  import I18n
  import Roles

  datatype SystemRole = SystemRole(name: string, labelText: string, permissions: seq<string>, protected: bool,
                                   active: bool, description: string, visibleFor: Option<seq<string>>)

  /** `getSuperAdminRole`: full access, protected, active. */
  function SuperAdminRole(tr: I18n.Translator): (r: SystemRole)
    ensures r.name == "super_admin" && r.permissions == ["*"]
    ensures r.protected && r.active
  {
    SystemRole("super_admin", tr.T("defaultRoles.superAdmin.label", None), ["*"], true, true,
               tr.T("defaultRoles.superAdmin.description", None), None)
  }

  /** `getPublicRole(permissions = ['*.read'])`: protected, active and never offered for assignment. */
  function PublicRole(tr: I18n.Translator, permissions: Option<seq<string>>): (r: SystemRole)
    ensures permissions.None? ==> r.permissions == ["*.read"]
    ensures permissions.Some? ==> r.permissions == permissions.value
    ensures r.name == "public" && r.protected && r.active && r.visibleFor == Some([])
  {
    SystemRole("public", tr.T("defaultRoles.public.label", None),
               if permissions.Some? then permissions.value else ["*.read"], true, true,
               tr.T("defaultRoles.public.description", None), Some([]))
  }

  datatype ExampleRoles = ExampleRoles(admin: SystemRole, editor: SystemRole, user: SystemRole)

  function Example(tr: I18n.Translator, key: string, name: string, permissions: seq<string>): SystemRole
  {
    SystemRole(name, tr.T("defaultRoles." + key + ".label", None), permissions, false, true,
               tr.T("defaultRoles." + key + ".description", None), None)
  }

  /** `getExampleRoles`: unprotected, active roles for an administrator, an editor and an ordinary user. */
  function GetExampleRoles(tr: I18n.Translator): (r: ExampleRoles)
    ensures forall role :: role in [r.admin, r.editor, r.user] ==> !role.protected && role.active
    ensures r.user.permissions == ["users.read", "users.update", "media.create", "media.read"]
  {
    ExampleRoles(
      Example(tr, "admin", "admin",
              ["backend-users.read", "backend-users.create", "backend-users.update", "backend-users.delete",
               "users.read", "users.create", "users.update", "users.delete",
               "media.read", "media.create", "media.update", "media.delete"]),
      Example(tr, "editor", "editor",
              ["backend-users.read", "users.read", "media.read", "media.create", "media.update", "media.delete"]),
      Example(tr, "user", "user", ["users.read", "users.update", "media.create", "media.read"]))
  }

  /** The example administrator manages users and media but holds no permission on roles. */
  lemma ExampleAdminHasNoRoleManagement(tr: I18n.Translator)
    ensures forall p :: p in GetExampleRoles(tr).admin.permissions ==> !Strings.StartsWith(p, "roles.")
  {
    var perms := GetExampleRoles(tr).admin.permissions;
    forall p | p in perms ensures !Strings.StartsWith(p, "roles.") {
      NotRolesPermission(p);
    }
  }

  /** A permission whose first character is not `r` is not a `roles.` permission. */
  lemma NotRolesPermission(p: string)
    requires |p| > 0 && p[0] != 'r'
    ensures !Strings.StartsWith(p, "roles.")
  {
  }

  /** A built-in role as the roles collection stores it. */
  function Stored(role: SystemRole, id: string): Roles.RoleDoc
  {
    Roles.RoleDoc(id, role.name, role.labelText, role.protected)
  }

  /** Neither the super-admin nor the public role can be deleted, by anyone. */
  lemma BuiltInRolesUndeletable(tr: I18n.Translator, id: string, permissions: Option<seq<string>>,
                                user: Option<Roles.User>, hasDeletePermission: bool)
    ensures Roles.BeforeDelete(Roles.Fetched(Some(Stored(SuperAdminRole(tr), id)))).Forbidden?
    ensures Roles.BeforeDelete(Roles.Fetched(Some(Stored(PublicRole(tr, permissions), id)))).Forbidden?
    ensures !Roles.DeleteAccess(user, hasDeletePermission, Roles.TargetFound(Some(Stored(SuperAdminRole(tr), id))))
  {
    Roles.ProtectedRoleUndeletable(Stored(SuperAdminRole(tr), id), user, hasDeletePermission);
  }

  /** The example roles are not protected, so the delete hook lets them go. */
  lemma ExampleRolesDeletable(tr: I18n.Translator, id: string)
    ensures var r := GetExampleRoles(tr);
      forall role :: role in [r.admin, r.editor, r.user] ==> Roles.BeforeDelete(Roles.Fetched(Some(Stored(role, id)))) == Roles.Proceed
  {
  }

  /**
   * A user holding the stored super-admin role cannot submit a permission
   * list without `*` for it, and cannot rename it.
   */
  lemma SuperAdminCannotLockItselfOut(tr: I18n.Translator, id: string, data: Roles.Payload, permissions: seq<string>)
    requires Roles.Get(data, "permissions") == Roles.StrList(permissions) && "*" !in permissions
    requires !Roles.NameChanges(Roles.Get(data, "name"), "super_admin")
    ensures var req := Roles.ChangeRequest(Roles.Update, Some(Stored(SuperAdminRole(tr), id)),
                                           Some(Roles.User(Roles.RoleId(id))), true, false);
      Roles.ChangeVerdict(data, req) == Roles.Reject([Roles.FieldError("permissions", Roles.CannotRemoveSuperAdmin)])
  {
    var req := Roles.ChangeRequest(Roles.Update, Some(Stored(SuperAdminRole(tr), id)), Some(Roles.User(Roles.RoleId(id))), true, false);
    Roles.SuperAdminKeepsOwnWildcard(data, req, permissions);
  }
}
