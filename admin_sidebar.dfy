/**
  components/admin/admin-sidebar.tsx: the fixed admin menu and the rule that
  highlights the entry for the current path.
 */
module AdminSidebar {
  import opened JsText

  datatype MenuItem = MenuItem(title: string, href: string)

  const DashboardHref: string := "/admin"

  /** menuItems, in display order (icons left out). */
  const MenuItems: seq<MenuItem> := [
    MenuItem("Dashboard", "/admin"),
    MenuItem("Posts", "/admin/posts"),
    MenuItem("Galeri", "/admin/galeri"),
    MenuItem("Potensi", "/admin/potensi"),
    MenuItem("Profil", "/admin/profil"),
    MenuItem("Struktur", "/admin/struktur"),
    MenuItem("Users", "/admin/users"),
    MenuItem("Settings", "/admin/settings")
  ]

  /** isActive: the dashboard only on its own path; every other entry on its
      own path and on every path that starts with it. */
  predicate IsActive(pathname: string, href: string) {
    pathname == href || (href != DashboardHref && StartsWith(pathname, href))
  }

  /** The highlight flag of each menu entry, as the menu is rendered. */
  function ActiveFlags(pathname: string): (flags: seq<bool>)
    ensures |flags| == |MenuItems|
    ensures forall i :: 0 <= i < |MenuItems| ==> flags[i] == IsActive(pathname, MenuItems[i].href)
  {
    seq(|MenuItems|, i requires 0 <= i < |MenuItems| => IsActive(pathname, MenuItems[i].href))
  }

  /** The dashboard entry is highlighted exactly on "/admin". */
  lemma DashboardOnlyOnExactPath(pathname: string)
    ensures IsActive(pathname, DashboardHref) <==> pathname == DashboardHref
  {
  }

  /** An entry is highlighted on its own page. */
  lemma OwnPageIsActive(i: nat)
    requires i < |MenuItems|
    ensures IsActive(MenuItems[i].href, MenuItems[i].href)
  {
  }

  /** Pages below an entry highlight it: "/admin/posts/5/edit" shows Posts. */
  lemma PostsEditPageShowsPosts()
    ensures ActiveFlags("/admin/posts/5/edit")[1]
  {
    assert StartsWith("/admin/posts/5/edit", "/admin/posts");
  }

  /** No href of the menu starts with the href of another entry, except that
      every href starts with the dashboard's. */
  lemma {:induction false} HrefsArePrefixFree(i: nat, j: nat)
    requires i < |MenuItems| && j < |MenuItems| && i != j && i != 0
    ensures !StartsWith(MenuItems[j].href, MenuItems[i].href)
  {
    // below "/admin/", the hrefs already differ in their first and third letters
    assert 10 <= |MenuItems[1].href| && MenuItems[1].href[7] == 'p' && MenuItems[1].href[9] == 's';
    assert 10 <= |MenuItems[2].href| && MenuItems[2].href[7] == 'g' && MenuItems[2].href[9] == 'l';
    assert 10 <= |MenuItems[3].href| && MenuItems[3].href[7] == 'p' && MenuItems[3].href[9] == 't';
    assert 10 <= |MenuItems[4].href| && MenuItems[4].href[7] == 'p' && MenuItems[4].href[9] == 'o';
    assert 10 <= |MenuItems[5].href| && MenuItems[5].href[7] == 's' && MenuItems[5].href[9] == 'r';
    assert 10 <= |MenuItems[6].href| && MenuItems[6].href[7] == 'u' && MenuItems[6].href[9] == 'e';
    assert 10 <= |MenuItems[7].href| && MenuItems[7].href[7] == 's' && MenuItems[7].href[9] == 't';
    assert i == 1 || i == 2 || i == 3 || i == 4 || i == 5 || i == 6 || i == 7;
    assert j == 0 || j == 1 || j == 2 || j == 3 || j == 4 || j == 5 || j == 6 || j == 7;
    var a, b := MenuItems[i].href, MenuItems[j].href;
    if j != 0 && |a| <= |b| {
      assert b[..|a|][7] != a[7] || b[..|a|][9] != a[9];
    }
  }

  /** At most one entry is highlighted for any path. */
  lemma {:induction false} AtMostOneActive(pathname: string, i: nat, j: nat)
    requires i < |MenuItems| && j < |MenuItems|
    requires IsActive(pathname, MenuItems[i].href) && IsActive(pathname, MenuItems[j].href)
    ensures i == j
  {
    if i != j {
      var a, b := MenuItems[i].href, MenuItems[j].href;
      if i == 0 {
        HrefsArePrefixFree(j, 0);
        assert false;
      } else if j == 0 {
        HrefsArePrefixFree(i, 0);
        assert false;
      } else if |a| <= |b| {
        PrefixOfPrefix(pathname, a, b);
        HrefsArePrefixFree(i, j);
        assert false;
      } else {
        PrefixOfPrefix(pathname, b, a);
        HrefsArePrefixFree(j, i);
        assert false;
      }
    }
  }

  /** A path outside "/admin" highlights nothing. */
  lemma {:induction false} OutsideAdminNothingActive(pathname: string)
    requires !StartsWith(pathname, DashboardHref)
    ensures forall i :: 0 <= i < |MenuItems| ==> !ActiveFlags(pathname)[i]
  {
    forall i | 0 <= i < |MenuItems| ensures !IsActive(pathname, MenuItems[i].href) {
      var h := MenuItems[i].href;
      assert StartsWith(h, DashboardHref);
      PrefixTransitive(pathname, DashboardHref, h);
    }
  }
}
