/** The dashboard shell: which page a `tab` shows, the role-dependent sidebar,
    which sidebar item is highlighted, and logging out. */
module Dashboard {
  import opened JsValues
  import opened Text
  import opened Http

  datatype Page =
    | Overview
    | UserList
    | Requests
    | IncidentReportsPage
    | BlotterReportPage
    | IncidentReportSecretaryPage
    | DocumentRequestSecretary

  /** The own entries of `componentMap`. */
  const ComponentMap: map<string, Page> := map[
    "overview" := Overview,
    "users" := UserList,
    "home" := Overview,
    "requests" := Requests,
    "reports" := IncidentReportsPage,
    "blotter" := BlotterReportPage,
    "incidents" := IncidentReportSecretaryPage,
    "requestdocs" := DocumentRequestSecretary
  ]

  /** The property names every plain object inherits from `Object.prototype`.
      Indexing `componentMap` with one of them yields a function or an object,
      which is truthy, so `|| Overview` does not replace it. */
  const InheritedMembers: set<string> := {
    "constructor", "hasOwnProperty", "isPrototypeOf", "propertyIsEnumerable",
    "toLocaleString", "toString", "valueOf", "__proto__",
    "__defineGetter__", "__defineSetter__", "__lookupGetter__", "__lookupSetter__"
  }

  /** What the dashboard hands React to render: one of its pages, or an
      inherited `Object.prototype` member that is not a page at all. */
  datatype Rendered = PageView(page: Page) | InheritedMember(name: string)

  /** The property key a `tab` prop indexes with: a missing tab is the key "undefined". */
  function TabKey(tab: Option<string>): string {
    if tab.Some? then tab.value else "undefined"
  }

  /** `componentMap[tab] || Overview` as written. */
  function RenderedAsWritten(tab: Option<string>): (r: Rendered)
    ensures r.InheritedMember? <==> TabKey(tab) in InheritedMembers
  {
    var key := TabKey(tab);
    if key in ComponentMap then PageView(ComponentMap[key])
    else if key in InheritedMembers then InheritedMember(key)
    else PageView(Overview)
  }

  /** The page for a tab, consulting only the map's own entries: the mapped
      page for a listed tab, Overview for any other tab or none. */
  function PageFor(tab: Option<string>): (p: Page)
    ensures tab.None? ==> p == Overview
  {
    var key := TabKey(tab);
    if key in ComponentMap then ComponentMap[key] else Overview
  }

  /** `PageFor` shows the mapped page exactly for the listed tabs and falls
      back to Overview everywhere else. */
  lemma PageForFallsBack(tab: string)
    ensures tab in ComponentMap ==> PageFor(Some(tab)) == ComponentMap[tab]
    ensures tab !in ComponentMap ==> PageFor(Some(tab)) == Overview
    ensures PageFor(Some(tab)) != Overview ==> tab in ComponentMap.Keys - {"overview", "home"}
  {
  }

  /** Off the inherited names, the lookup as written renders `PageFor`. */
  lemma AsWrittenAgreesOffPrototype(tab: Option<string>)
    requires TabKey(tab) !in InheritedMembers
    ensures RenderedAsWritten(tab) == PageView(PageFor(tab))
  {
  }

  /** `?tab=constructor` makes the dashboard render `Object` itself instead
      of falling back to Overview. */
  lemma ConstructorTabRendersNoPage()
    ensures RenderedAsWritten(Some("constructor")) == InheritedMember("constructor")
    ensures PageFor(Some("constructor")) == Overview
  {
    assert "constructor" !in ComponentMap;
  }

  /** The sidebar's "settings" and "residents" tabs have no page of their own,
      and "home" and "overview" both show Overview. */
  lemma MenuTabsWithoutPage()
    ensures "settings" !in ComponentMap && PageFor(Some("settings")) == Overview
    ensures "residents" !in ComponentMap && PageFor(Some("residents")) == Overview
    ensures PageFor(Some("home")) == Overview && PageFor(Some("overview")) == Overview
  {
  }

  datatype Icon = LayoutDashboard | Mail | FileText | Settings | Users

  datatype MenuItem = MenuItem(icon: Icon, title: string, href: string)

  /** `"/dashboard?tab=" + key`. */
  function TabHref(key: string): string {
    "/dashboard?tab=" + key
  }

  const UserMenuKeys: seq<string> := ["overview", "requests", "reports", "blotter", "settings"]

  const StaffMenuKeys: seq<string> := ["overview", "users", "requestdocs", "incidents", "residents"]

  const UserMenu: seq<MenuItem> := [
    MenuItem(LayoutDashboard, "Overview", TabHref("overview")),
    MenuItem(Mail, "Requests", TabHref("requests")),
    MenuItem(FileText, "Incident reports", TabHref("reports")),
    MenuItem(FileText, "Blotter Report", TabHref("blotter")),
    MenuItem(Settings, "Settings", TabHref("settings"))
  ]

  const StaffMenu: seq<MenuItem> := [
    MenuItem(LayoutDashboard, "Overview", TabHref("overview")),
    MenuItem(Users, "Users", TabHref("users")),
    MenuItem(Mail, "Request", TabHref("requestdocs")),
    MenuItem(FileText, "Incident Report", TabHref("incidents")),
    MenuItem(Users, "Residents", TabHref("residents"))
  ]

  /** The signed-in user from the store; only `role` matters here. */
  datatype CurrentUser = CurrentUser(role: JsValue)

  /** `currentUser?.role === "user"`: the strict comparison admits only the string "user". */
  predicate IsPlainUser(currentUser: Option<CurrentUser>) {
    currentUser.Some? && currentUser.value.role == Str("user")
  }

  /** The five keys of the menu a user sees. */
  function MenuKeys(currentUser: Option<CurrentUser>): (keys: seq<string>)
    ensures |keys| == 5
  {
    if IsPlainUser(currentUser) then UserMenuKeys else StaffMenuKeys
  }

  /** `sidebarItems`: the user menu for role "user", the staff menu for any
      other role and for no user at all. */
  function SidebarItems(currentUser: Option<CurrentUser>): (items: seq<MenuItem>)
    ensures |items| == 5
    ensures items == UserMenu <==> IsPlainUser(currentUser)
    ensures items == StaffMenu <==> !IsPlainUser(currentUser)
    ensures forall i :: 0 <= i < 5 ==> items[i].href == TabHref(MenuKeys(currentUser)[i])
  {
    assert UserMenu[1] != StaffMenu[1];
    if IsPlainUser(currentUser) then UserMenu else StaffMenu
  }

  /** `href.split("=")[1]`, `None` standing for `undefined`. */
  function HrefKey(href: string): (k: Option<string>)
    ensures k.None? <==> '=' !in href
    ensures k.Some? ==> '=' !in k.value
  {
    var parts := Split(href, '=');
    SplitSeveralPartsIff(href, '=');
    if |parts| > 1 then Some(parts[1]) else None
  }

  /** For a key without "=", the href's second "="-piece is the key itself. */
  lemma HrefKeyOfTabHref(key: string)
    requires '=' !in key
    ensures HrefKey(TabHref(key)) == Some(key)
  {
    var path := "/dashboard?tab";
    assert '=' !in path;
    assert TabHref(key) == path + ['='] + key;
    SplitAtFirst(path, '=', key);
    SplitNoSeparator(key, '=');
  }

  /** `isActive`: `tab === item.href.split("=")[1]`. */
  predicate IsActive(tab: Option<string>, item: MenuItem) {
    HrefKey(item.href) == tab
  }

  /** The menu keys are distinct and contain no "=". */
  lemma MenuKeysShape(currentUser: Option<CurrentUser>)
    ensures forall i :: 0 <= i < 5 ==> '=' !in MenuKeys(currentUser)[i]
    ensures forall i, j :: 0 <= i < j < 5 ==> MenuKeys(currentUser)[i] != MenuKeys(currentUser)[j]
  {
    var keys := MenuKeys(currentUser);
    if IsPlainUser(currentUser) {
      assert keys == UserMenuKeys;
    } else {
      assert keys == StaffMenuKeys;
    }
  }

  /** Item `i` is highlighted exactly when the tab is its key. */
  lemma ActiveItem(currentUser: Option<CurrentUser>, tab: Option<string>, i: int)
    requires 0 <= i < 5
    ensures IsActive(tab, SidebarItems(currentUser)[i]) <==> tab == Some(MenuKeys(currentUser)[i])
  {
    MenuKeysShape(currentUser);
    HrefKeyOfTabHref(MenuKeys(currentUser)[i]);
  }

  /** At most one item of a menu is highlighted, because a menu's keys are distinct. */
  lemma OneActiveItem(currentUser: Option<CurrentUser>, tab: Option<string>, i: int, j: int)
    requires 0 <= i < j < 5
    ensures !(IsActive(tab, SidebarItems(currentUser)[i]) && IsActive(tab, SidebarItems(currentUser)[j]))
  {
    ActiveItem(currentUser, tab, i);
    ActiveItem(currentUser, tab, j);
    MenuKeysShape(currentUser);
  }

  /** The login state the dashboard touches when logging out. */
  datatype Session = Session(token: Option<string>, currentUser: Option<CurrentUser>, location: string, loggingOut: bool)

  const SignInPath: string := "/sign-in"

  datatype LogoutToast = NoLogoutToast | LoggedOutToast | LogoutErrorToast

  /** `handleLogout` from `setLoggingOut(true)` to the `finally`. */
  function CompleteLogout(s: Session, response: Response): (r: (Session, LogoutToast))
    ensures !r.0.loggingOut
    ensures response.Answered? && response.status == 200 ==>
      r == (Session(None, None, SignInPath, false), LoggedOutToast)
    ensures !(response.Answered? && response.status == 200) ==>
      r.0 == s.(loggingOut := false)
    ensures r.1 == LogoutErrorToast <==> Rejects(response)
  {
    if Rejects(response) then (s.(loggingOut := false), LogoutErrorToast)
    else if response.status == 200 then (Session(None, None, SignInPath, false), LoggedOutToast)
    else (s.(loggingOut := false), NoLogoutToast)
  }

  /** Confirming the logout dialog; the confirm button is disabled while a
      logout is in flight. */
  function Logout(s: Session, response: Response): (r: (Session, LogoutToast))
    ensures s.loggingOut ==> r == (s, NoLogoutToast)
    ensures !s.loggingOut ==> r == CompleteLogout(s.(loggingOut := true), response)
  {
    if s.loggingOut then (s, NoLogoutToast) else CompleteLogout(s.(loggingOut := true), response)
  }

  /** The token is discarded, and the app navigates to sign-in, only on
      status 200; every outcome ends with the button enabled again. */
  lemma TokenRemovedOnlyOn200(s: Session, response: Response)
    requires !s.loggingOut && s.token.Some? && s.location != SignInPath
    ensures !Logout(s, response).0.loggingOut
    ensures Logout(s, response).0.token.None? <==> response.Answered? && response.status == 200
    ensures Logout(s, response).0.location == SignInPath <==> response.Answered? && response.status == 200
  {
  }
}
