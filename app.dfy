/** The application shell: the signed-in user, restored from the store at
    start-up, set on login and cleared on logout, and the route table that
    sends each path to a page or a redirect according to whether someone is
    signed in. */
module App {
  import opened Js
  import opened Entities
  import opened Storage

  datatype Path = Home | LoginPath | RegisterPath | DashboardPath | Unrouted(path: string)

  datatype Page = Landing | LoginPage | RegisterPage | DashboardPage

  /** What a path shows: a page, a redirect, or nothing when no route matches. */
  datatype Screen = Render(page: Page) | Redirect(to: Path) | NoMatch

  /** The route table. */
  function Route(path: Path, signedIn: bool): (r: Screen)
    ensures signedIn && (path == Home || path == LoginPath || path == RegisterPath) ==> r == Redirect(DashboardPath)
    ensures !signedIn && path == DashboardPath ==> r == Redirect(LoginPath)
    ensures r == Render(DashboardPage) <==> signedIn && path == DashboardPath
    ensures r == NoMatch <==> path.Unrouted?
  {
    match path
    case Home => if signedIn then Redirect(DashboardPath) else Render(Landing)
    case LoginPath => if signedIn then Redirect(DashboardPath) else Render(LoginPage)
    case RegisterPath => if signedIn then Redirect(DashboardPath) else Render(RegisterPage)
    case DashboardPath => if signedIn then Render(DashboardPage) else Redirect(LoginPath)
    case Unrouted(_) => NoMatch
  }

  /** One redirect always lands on a page: no route redirects to a redirect. */
  lemma RedirectLandsOnPage(path: Path, signedIn: bool)
    requires Route(path, signedIn).Redirect?
    ensures Route(Route(path, signedIn).to, signedIn).Render?
  {
  }

  /** The dashboard is shown only to a signed-in user, and the sign-in and
      registration pages only to a signed-out one. */
  lemma GuardsSeparate(path: Path, signedIn: bool)
    ensures Route(path, signedIn) == Render(DashboardPage) ==> signedIn
    ensures Route(path, signedIn) == Render(LoginPage) || Route(path, signedIn) == Render(RegisterPage) ==> !signedIn
  {
  }

  /** The user the start-up effect restores: the stored session record if
      the key is present, nobody otherwise. */
  function SavedUser(items: map<string, Value>): (r: Option<SessionUser>)
    ensures UserKey !in items ==> r.None?
    ensures UserKey in items && items[UserKey].SessionRecord? ==> r == Some(items[UserKey].user)
  {
    if UserKey in items && items[UserKey].SessionRecord? then Some(items[UserKey].user) else None
  }

  /** The keys logout removes. */
  const LogoutKeys: set<string> := {UserKey, ActivitiesKey, GoalsKey}

  class App {
    var user: Option<SessionUser>
    const storage: LocalStorage

    /** Mount plus the start-up effect. */
    constructor (storage: LocalStorage)
      ensures this.storage == storage
      ensures user == SavedUser(storage.items)
    {
      this.storage := storage;
      user := SavedUser(storage.items);
    }

    /** `handleLogin`: the user is set and stored under the session key. */
    method HandleLogin(userData: SessionUser)
      modifies this, storage
      ensures user == Some(userData)
      ensures storage.items == old(storage.items)[UserKey := SessionRecord(userData)]
      ensures SavedUser(storage.items) == user
    {
      user := Some(userData);
      storage.SetItem(UserKey, SessionRecord(userData));
    }

    /** `handleLogout`: the user is cleared and the session, activities and
        goals keys are removed; the accounts and the theme stay. */
    method HandleLogout()
      modifies this, storage
      ensures user.None?
      ensures storage.items == old(storage.items) - LogoutKeys
      ensures SavedUser(storage.items) == user
    {
      user := None;
      storage.RemoveItem(UserKey);
      storage.RemoveItem(ActivitiesKey);
      storage.RemoveItem(GoalsKey);
    }

    function CurrentScreen(path: Path): Screen
      reads this
    {
      Route(path, user.Some?)
    }
  }

  /** Logout erases every user's activities and goals, not only those of the
      user signing out, while the accounts and the theme survive. */
  lemma LogoutErasesEveryonesData(items: map<string, Value>)
    ensures StoredActivities(items - LogoutKeys) == []
    ensures StoredGoals(items - LogoutKeys) == []
    ensures StoredUsers(items - LogoutKeys) == StoredUsers(items)
    ensures ThemeKey in items ==> ThemeKey in items - LogoutKeys && (items - LogoutKeys)[ThemeKey] == items[ThemeKey]
  {
    assert UsersKey !in LogoutKeys && ThemeKey !in LogoutKeys;
  }

  /** Login then logout leaves no session to restore. */
  lemma NoSessionAfterLogout(items: map<string, Value>, u: SessionUser)
    ensures SavedUser(items[UserKey := SessionRecord(u)] - LogoutKeys).None?
  {
  }
}
