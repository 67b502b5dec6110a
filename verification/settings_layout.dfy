/** The frame around the three settings pages: sign-out, the mobile menu and
    the highlighted navigation link. */
module SettingsLayout {
  import opened Ui
  import Api
  import Session

  const PROFILE_ROUTE: string := "/settings/profile"
  const PROJECTS_ROUTE: string := "/settings/projects"
  const ACCOUNT_ROUTE: string := "/settings/account"

  /** Signing out forgets the token and goes to the sign-in page. */
  function Logout(storage: Session.Storage): (r: (Session.Storage, Effect))
    ensures Session.GetItem(r.0, Session.TOKEN_KEY).None?
    ensures forall k :: k != Session.TOKEN_KEY ==> Session.GetItem(r.0, k) == Session.GetItem(storage, k)
    ensures r.1 == Navigate("/login")
  {
    (Session.RemoveItem(storage, Session.TOKEN_KEY), Navigate("/login"))
  }

  /** After signing out no call presents a bearer token. */
  lemma LoggedOutCallsCarryNoToken(storage: Session.Storage, call: Api.Call)
    ensures Api.AUTHORIZATION !in Api.Prepare(call, Logout(storage).0).headers
  {
    Api.StoredTokenReachesServer(call, Logout(storage).0);
  }

  /** Whether the mobile menu is open; it starts closed. */
  const MENU_START: bool := false

  function ToggleMenu(open: bool): (r: bool)
    ensures r != open
  {
    !open
  }

  lemma ToggleTwiceRestores(open: bool)
    ensures ToggleMenu(ToggleMenu(open)) == open
  {
  }

  /** The navigation links and whether each is highlighted for the current
      path. */
  function NavLinks(pathname: string): (r: seq<(string, bool)>)
    ensures |r| == 3
    ensures r[0].0 == PROFILE_ROUTE && r[1].0 == PROJECTS_ROUTE && r[2].0 == ACCOUNT_ROUTE
    ensures forall i :: 0 <= i < |r| ==> (r[i].1 <==> pathname == r[i].0)
  {
    [(PROFILE_ROUTE, pathname == PROFILE_ROUTE),
     (PROJECTS_ROUTE, pathname == PROJECTS_ROUTE),
     (ACCOUNT_ROUTE, pathname == ACCOUNT_ROUTE)]
  }

  /** Exactly one link is highlighted on a settings page, and none
      elsewhere: no two links are highlighted together, and some link is
      highlighted exactly on the three settings routes. */
  lemma {:induction false} OneLinkHighlighted(pathname: string)
    ensures forall i, j :: 0 <= i < j < 3 ==> !(NavLinks(pathname)[i].1 && NavLinks(pathname)[j].1)
    ensures (exists i :: 0 <= i < 3 && NavLinks(pathname)[i].1)
        <==> pathname == PROFILE_ROUTE || pathname == PROJECTS_ROUTE || pathname == ACCOUNT_ROUTE
  {
    var r := NavLinks(pathname);
    assert PROFILE_ROUTE != PROJECTS_ROUTE && PROFILE_ROUTE != ACCOUNT_ROUTE && PROJECTS_ROUTE != ACCOUNT_ROUTE by {
      assert PROFILE_ROUTE[10] == 'p' && PROJECTS_ROUTE[10] == 'p' && ACCOUNT_ROUTE[10] == 'a';
      assert PROFILE_ROUTE[13] == 'f' && PROJECTS_ROUTE[13] == 'j';
    }
    if pathname == PROFILE_ROUTE {
      assert r[0].1;
    } else if pathname == PROJECTS_ROUTE {
      assert r[1].1;
    } else if pathname == ACCOUNT_ROUTE {
      assert r[2].1;
    }
  }
}
