/** The dashboard sidebar: the navigation entries chosen by role and the rule that marks
    an entry as the current page. */
module Sidebar {
  import Text

  /** A navigation entry; the icon is display-only. */
  datatype NavItem = NavItem(title: string, href: string)

  /** An entry as rendered, with its highlight. */
  datatype Entry = Entry(title: string, href: string, active: bool)

  const DashboardHref: string := "/dashboard"

  const ProviderNavItems: seq<NavItem> := [
    NavItem("Dashboard", "/dashboard/provider"),
    NavItem("Observer Accounts", "/dashboard/provider/observers"),
    NavItem("Performance", "/dashboard/provider/performance"),
    NavItem("Trades", "/dashboard/provider/trades"),
    NavItem("Earnings", "/dashboard/provider/earnings")
  ]

  const SubscriberNavItems: seq<NavItem> := [
    NavItem("Dashboard", "/dashboard/subscriber"),
    NavItem("Trade Accounts", "/dashboard/subscriber/accounts"),
    NavItem("Subscriptions", "/dashboard/subscriber/subscriptions"),
    NavItem("Copied Trades", "/dashboard/subscriber/trades")
  ]

  const CommonNavItems: seq<NavItem> := [
    NavItem("Providers", "/providers"),
    NavItem("Settings", "/settings"),
    NavItem("Help", "/help")
  ]

  const LogoutItem: NavItem := NavItem("Logout", "/auth")

  /** `isActive`: the bare dashboard link is current on the three dashboard roots only;
      any other link is current on every path it is a prefix of. */
  predicate IsActive(path: string, href: string) {
    if href == DashboardHref then
      path == "/dashboard" || path == "/dashboard/provider" || path == "/dashboard/subscriber"
    else
      Text.StartsWith(path, href)
  }

  /** The role's own entries: "provider" gets the provider entries, every other role the
      subscriber entries. */
  function NavItems(role: string): seq<NavItem> {
    if role == "provider" then ProviderNavItems else SubscriberNavItems
  }

  function Render(items: seq<NavItem>, path: string): (r: seq<Entry>)
    ensures |r| == |items|
    ensures forall i :: 0 <= i < |r| ==>
      r[i].title == items[i].title && r[i].href == items[i].href && r[i].active == IsActive(path, items[i].href)
  {
    seq(|items|, i requires 0 <= i < |items| => Entry(items[i].title, items[i].href, IsActive(path, items[i].href)))
  }

  /** The whole sidebar: the role's entries, the common entries, then Logout, which is
      rendered without a highlight. */
  function Menu(role: string, path: string): (r: seq<Entry>)
    ensures |r| == |NavItems(role)| + |CommonNavItems| + 1
    ensures r[..|r| - 1] == Render(NavItems(role) + CommonNavItems, path)
    ensures r[|r| - 1] == Entry("Logout", "/auth", false)
  {
    Render(NavItems(role) + CommonNavItems, path) + [Entry(LogoutItem.title, LogoutItem.href, false)]
  }

  /** The dashboard link is current exactly on the three dashboard roots, which is
      narrower than the prefix rule: it is not current on a deeper dashboard page. */
  lemma DashboardRule(path: string)
    ensures IsActive(path, DashboardHref)
            <==> path in ["/dashboard", "/dashboard/provider", "/dashboard/subscriber"]
    ensures IsActive(path, DashboardHref) ==> Text.StartsWith(path, DashboardHref)
    ensures !IsActive("/dashboard/provider/trades", DashboardHref)
  {
  }

  /** Any other link is current on its own page and on every page below it. */
  lemma PrefixRule(href: string, rest: string)
    requires href != DashboardHref
    ensures IsActive(href + rest, href)
  {
    assert (href + rest)[..|href|] == href;
  }

  /** The role selects the role's entries; the roles share only the common entries. */
  lemma RoleSelectsItems(role: string)
    ensures role == "provider" ==> NavItems(role) == ProviderNavItems
    ensures role != "provider" ==> NavItems(role) == SubscriberNavItems
    ensures |Menu(role, "")| == if role == "provider" then 9 else 8
  {
  }

  /** Every entry but Logout is current when its own page is shown; Logout never is. */
  lemma OwnPageActive(role: string, i: nat)
    requires i < |Menu(role, "")| - 1
    ensures var href := Menu(role, "")[i].href; Menu(role, href)[i].active
    ensures forall path :: !Menu(role, path)[|Menu(role, path)| - 1].active
  {
    var items := NavItems(role) + CommonNavItems;
    var href := items[i].href;
    assert Menu(role, "")[i].href == href;
    assert Menu(role, href)[i] == Render(items, href)[i];
    assert href != DashboardHref by {
      assert forall k :: 0 <= k < |items| ==> items[k].href != DashboardHref;
    }
    PrefixRule(href, "");
    assert href + "" == href;
  }

  /** On the provider's trades page exactly two entries are highlighted: "Trades" and
      the provider "Dashboard" entry, whose link is a prefix of the page's path. */
  lemma ProviderTradesPage()
    ensures var m := Menu("provider", "/dashboard/provider/trades");
      && m[0] == Entry("Dashboard", "/dashboard/provider", true)
      && m[3] == Entry("Trades", "/dashboard/provider/trades", true)
      && |m| == 9
      && !m[1].active && !m[2].active && !m[4].active && !m[5].active
      && !m[6].active && !m[7].active && !m[8].active
  {
    var path := "/dashboard/provider/trades";
    var r := Render(ProviderNavItems + CommonNavItems, path);
    assert Menu("provider", path)[..8] == r;
    Text.DifferAt(path, "/dashboard/provider/observers", 20);
    Text.DifferAt(path, "/dashboard/provider/performance", 20);
    Text.DifferAt(path, "/dashboard/provider/earnings", 20);
    Text.DifferAt(path, "/providers", 1);
    Text.DifferAt(path, "/settings", 1);
    Text.DifferAt(path, "/help", 1);
    PrefixRule("/dashboard/provider", "/trades");
    PrefixRule("/dashboard/provider/trades", "");
  }

  /** The subscriber's entries are never highlighted on a provider page and vice versa. */
  lemma NoCrossRoleHighlight(path: string, i: nat)
    ensures Text.StartsWith(path, "/dashboard/provider") && i < |SubscriberNavItems|
            ==> !IsActive(path, SubscriberNavItems[i].href)
    ensures Text.StartsWith(path, "/dashboard/subscriber") && i < |ProviderNavItems|
            ==> !IsActive(path, ProviderNavItems[i].href)
  {
    if Text.StartsWith(path, "/dashboard/provider") && i < |SubscriberNavItems| {
      assert path[11] == "/dashboard/provider"[11];
      Text.DifferAt(path, SubscriberNavItems[i].href, 11);
    }
    if Text.StartsWith(path, "/dashboard/subscriber") && i < |ProviderNavItems| {
      assert path[11] == "/dashboard/subscriber"[11];
      Text.DifferAt(path, ProviderNavItems[i].href, 11);
    }
  }
}
