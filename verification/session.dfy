/**
 * Properties that involve several parts at once: the shared storage seen by
 * the auth session, the route guard and the theme store.
 */
module Session {
  import opened Wrappers
  import opened WebStorage
  import opened QueryCache
  import opened Dom
  import opened Auth
  import opened Theme
  import opened RouteGuard
  import Navigation
  import Toasts

  /**
   * A stored empty token: `isLoggedIn` reports a session, yet the guard,
   * which tests the token for truthiness, still sends protected routes to
   * `login`.
   */
  lemma EmptyTokenDisagreement(auth: AuthSession)
    requires AccessTokenKey in auth.storage.items && auth.storage.items[AccessTokenKey] == ""
    ensures auth.IsLoggedIn()
    ensures Matched(Routes, "settings").Some?
    ensures BeforeEach(Matched(Routes, "settings").value, auth.storage.GetItem(AccessTokenKey)) == Redirect(LoginName)
  {
    ProtectedRoutes("settings", auth.storage.GetItem(AccessTokenKey));
  }

  /**
   * Logging out twice leaves the storage and the cached keys as one logout
   * does; the navigation history, and in the store the cache's event log,
   * record both calls.
   */
  method LogoutTwice(auth: AuthSession)
    modifies auth.storage, auth.queryClient, auth.router
    ensures auth.storage.items == old(auth.storage.items) - {AccessTokenKey}
    ensures auth.variant == AuthStore ==>
      auth.queryClient.keys == {} && auth.queryClient.events == old(auth.queryClient.events) + [Cleared, Cleared]
    ensures auth.variant == AuthComposable ==>
      auth.queryClient.keys == old(auth.queryClient.keys) && auth.queryClient.events == old(auth.queryClient.events)
    ensures auth.router.history == old(auth.router.history) + [LoginPath, LoginPath]
  {
    auth.Logout();
    auth.Logout();
    assert old(auth.storage.items) - {AccessTokenKey} - {AccessTokenKey} == old(auth.storage.items) - {AccessTokenKey};
  }

  /** Setting the same mode twice leaves the state one call leaves. */
  method SetColorModeTwice(theme: ThemeStore, mode: string)
    modifies theme, theme.storage, theme.root
    ensures theme.colorMode == mode
    ensures theme.storage.items == old(theme.storage.items)[ColorModeKey := mode]
    ensures theme.root.tokens == Toggled(old(theme.root.tokens), DarkMode, mode == DarkMode)
  {
    theme.SetColorMode(mode);
    theme.SetColorMode(mode);
    ToggledIdempotent(old(theme.root.tokens), DarkMode, mode == DarkMode);
  }

  /** Switching to dark and back to light restores a root class list that had no `dark-mode`. */
  method DarkThenLight(theme: ThemeStore)
    requires DarkMode !in theme.root.tokens
    modifies theme, theme.storage, theme.root
    ensures theme.colorMode == LightMode
    ensures theme.storage.items == old(theme.storage.items)[ColorModeKey := LightMode]
    ensures theme.root.tokens == old(theme.root.tokens)
  {
    theme.SetColorMode(DarkMode);
    theme.SetColorMode(LightMode);
    ToggledOnThenOff(old(theme.root.tokens), DarkMode);
  }

  /**
   * From any stored state: choose dark mode, log out, log in again. The
   * dark mode is still on the page, and a theme store set up afresh from the
   * same storage (a reload) starts in dark mode too, because logout removes
   * only the token.
   */
  method ColorModeSurvivesSession(items: map<string, string>, classes: seq<string>, token: string)
    returns (mode: string, darkOnPage: bool, darkAfterReload: bool)
    ensures mode == DarkMode && darkOnPage && darkAfterReload
  {
    var storage := new LocalStorage(items);
    var root := new ClassList(classes);
    var theme := new ThemeStore(storage, root);
    theme.SetColorMode(DarkMode);

    var cache := new QueryClient({});
    var router := new Navigation.Router();
    var toast := new Toasts.ToastService();
    var auth := new AuthSession(AuthStore, storage, cache, router, toast);
    auth.Logout();
    auth.OnLoginSuccess(token);
    darkOnPage := root.Contains(DarkMode);

    var freshRoot := new ClassList([]);
    var reloaded := new ThemeStore(storage, freshRoot);
    mode := reloaded.colorMode;
    darkAfterReload := freshRoot.Contains(DarkMode);
  }
}
