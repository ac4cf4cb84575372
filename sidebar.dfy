/** The navigation rules of the sidebar (src/components/common/Sidebar.tsx): which menu items
    a user sees, and which item is highlighted for the current path. */
module Navigation {
  import opened JsValues
  import opened Types

  /** A menu entry (`text` is its `label`); the icon is left out. */
  datatype MenuItem = MenuItem(key: string, text: string, path: string, roles: Option<seq<string>>)

  const MenuItems: seq<MenuItem> := [
    MenuItem("dashboard", "首页", "/", None),
    MenuItem("companies", "公司库", "/companies", None),
    MenuItem("roadmap", "Roadmap", "/roadmap", None),
    MenuItem("insights", "行业洞察", "/insights", None)]

  const AdminItems: seq<MenuItem> := [MenuItem("admin", "后台管理", "/admin", Some(["admin"]))]

  predicate IsAdmin(user: Option<User>)
  {
    user.Some? && RoleName(user.value.role) == "admin"
  }

  /** `user?.role === 'admin' ? [...menuItems, ...adminItems] : menuItems`. */
  function AllItems(user: Option<User>): (items: seq<MenuItem>)
    ensures |items| >= |MenuItems| && items[..|MenuItems|] == MenuItems
    ensures IsAdmin(user) ==> items[|MenuItems|..] == AdminItems
    ensures !IsAdmin(user) ==> items == MenuItems
  {
    if IsAdmin(user) then MenuItems + AdminItems else MenuItems
  }

  /** The menu keys in order: the four public ones, then the admin entry for administrators. */
  lemma MenuKeys(user: Option<User>)
    ensures IsAdmin(user) <==> user.Some? && user.value.role == Admin
    ensures !IsAdmin(user) ==>
      && |AllItems(user)| == 4
      && AllItems(user)[0].key == "dashboard" && AllItems(user)[1].key == "companies"
      && AllItems(user)[2].key == "roadmap" && AllItems(user)[3].key == "insights"
    ensures IsAdmin(user) ==> |AllItems(user)| == 5 && AllItems(user)[4].key == "admin"
  {
  }

  /** The `roles` list is never read, but it agrees with the gate that is: an item carrying a
      role list is shown only to a user whose role is in it. */
  lemma RolesAgreeWithGate(user: Option<User>, i: nat)
    requires i < |AllItems(user)| && AllItems(user)[i].roles.Some?
    ensures user.Some? && RoleName(user.value.role) in AllItems(user)[i].roles.value
  {
  }

  // ---------------------------------------------------------------------------
  // The active item

  /** `pathname === path || (path !== '/' && pathname.startsWith(path))`. */
  function IsActive(pathname: string, path: string): (active: bool)
    ensures active <==> pathname == path || (path != "/" && IsPrefix(path, pathname))
  {
    StartsWithIsPrefix(pathname, path);
    pathname == path || (path != "/" && StartsWith(pathname, path))
  }

  /** The dashboard item is highlighted only on the root path itself. */
  lemma RootOnlyWhenExact(pathname: string)
    ensures IsActive(pathname, "/") <==> pathname == "/"
  {
  }

  /** The prefix test is on raw characters, not path segments: a detail page highlights its
      section, and so does any path that merely begins with the same letters. */
  lemma RawPrefixMatches()
    ensures IsActive("/companies/42", "/companies")
    ensures IsActive("/roadmapping", "/roadmap")
    ensures !IsActive("/", "/companies")
  {
    assert "/companies/42"[..|"/companies"|] == "/companies";
    assert "/roadmapping"[..|"/roadmap"|] == "/roadmap";
  }

  /** The settings link is highlighted only on exactly "/settings", unlike the menu items. */
  function SettingsActive(pathname: string): (active: bool)
    ensures active ==> IsActive(pathname, "/settings")
  {
    pathname == "/settings"
  }

  lemma SettingsNotByPrefix()
    ensures !SettingsActive("/settings/profile") && IsActive("/settings/profile", "/settings")
  {
    assert "/settings/profile"[..|"/settings"|] == "/settings";
  }

  /** Two prefixes of one string: the shorter is a prefix of the longer. */
  lemma PrefixesNest(p: string, q: string, s: string)
    requires IsPrefix(p, s) && IsPrefix(q, s) && |p| <= |q|
    ensures IsPrefix(p, q)
  {
    assert q[..|p|] == s[..|q|][..|p|];
  }

  /** The paths of the menu items, the admin item last. */
  const MenuPaths: seq<string> := ["/", "/companies", "/roadmap", "/insights", "/admin"]

  lemma PathAt(user: Option<User>, i: nat)
    requires i < |AllItems(user)|
    ensures i < |MenuPaths| && AllItems(user)[i].path == MenuPaths[i]
  {
  }

  /** No menu path other than the root is a prefix of another. */
  lemma PathsDoNotNest(i: nat, j: nat)
    requires 0 < i < |MenuPaths| && j < |MenuPaths| && i != j
    ensures !IsPrefix(MenuPaths[i], MenuPaths[j])
  {
    var p, q := MenuPaths[i], MenuPaths[j];
    assert |p| >= 2;
    assert |q| < |p| || q[1] != p[1];
    if |q| >= |p| {
      assert q[..|p|][1] == q[1];
    }
  }

  /** Whatever the path, at most one menu item is highlighted. */
  lemma AtMostOneActive(user: Option<User>, pathname: string, i: nat, j: nat)
    requires i < |AllItems(user)| && j < |AllItems(user)|
    requires IsActive(pathname, AllItems(user)[i].path) && IsActive(pathname, AllItems(user)[j].path)
    ensures i == j
  {
    PathAt(user, i);
    PathAt(user, j);
    var p, q := MenuPaths[i], MenuPaths[j];
    if i != j && i != 0 && j != 0 {
      if |p| <= |q| {
        PrefixesNest(p, q, pathname);
        PathsDoNotNest(i, j);
      } else {
        PrefixesNest(q, p, pathname);
        PathsDoNotNest(j, i);
      }
    }
  }
}
