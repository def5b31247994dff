# Session, routing, theme and display logic of the Vue administration frontend

This project models the client-side logic of a Vue/TypeScript administration
frontend (a template built on FastAPI) in Dafny, and proves properties of the model:

- **Breakpoints** (`Display`, from `useDisplay`): from a viewport width and six thresholds, the
  model computes six breakpoint flags, eight "and up / and down" composites, the breakpoint name,
  the `mobile` flag and the display classes.
- **Auth session** (`Auth`): the `useAuthStore` Pinia store and the older `useAuth` composable,
  modelled as one class. Its `variant` field selects which version runs. The class holds the
  inline login error. It also holds references to the shared collaborators:
  - `WebStorage`: `localStorage`;
  - `QueryCache`: the TanStack query client, as a set of keys plus a log of invalidations and
    clears;
  - `Navigation`: the router's push history;
  - `Toasts`: the toast service's log.
- **Error detail** (`ErrorDetail`): the one rule both versions use four times to turn an Axios
  error into a message.
- **Route guard** (`RouteGuard`): the route table as data, and the `beforeEach` decision over the
  matched records and the stored token.
- **Theme store** (`Theme`): the colour mode, kept in a field, a storage key and the
  `dark-mode` class of the root element (`Dom`).
- **`slugify`** (`Slug`): the string transform from the end-to-end test utilities.
- **Cross-module properties** (`Session`): properties over the shared storage.

The code has no reactive token mirror, no forced logout on a 403 from the
current-user query and no retry policy. It also does not re-evaluate the current-user query's
`enabled` flag after login. `enabled` is read once, when the session is set up
(`AuthSession.userQueryEnabled` is a constant), so a login never re-enables the query. The store
only invalidates the query's key.

## Model

| member | source | states |
|---|---|---|
| `Display.Defaults` | frontend/src/composables/useDisplay.ts:4-14 | The default thresholds are 0 < 640 < 768 < 1024 < 1280 < 1536. With the default mobile breakpoint "md", `mobile` is `width < 768`, which is `smAndDown`. |
| `Display.Breakpoints` | frontend/src/composables/useDisplay.ts:63-76 | For every width and any thresholds, at least one of `xs`..`xxl` holds. When `sm <= md <= lg <= xl <= xxl`, exactly one holds. |
| `Display.CompositeFlags` | frontend/src/composables/useDisplay.ts:79-86 | Always: `smAndUp` is `!xs`, `smAndDown` is `!mdAndUp`, `mdAndDown` is `!lgAndUp`, `lgAndDown` is `!xlAndUp` and `xlAndDown` is `!xxl`. With ordered thresholds, every composite is the union of the breakpoints it names (for example `smAndDown` is `xs` or `sm`, and `mdAndUp` is `md` or `lg` or `xl` or `xxl`). |
| `Display.Name` | frontend/src/composables/useDisplay.ts:89-96 | The name's own flag holds, and no flag of a smaller breakpoint holds. So the name is "xxl" exactly when none of the first five holds. |
| `Display.NameIsTheTrueFlag` | frontend/src/composables/useDisplay.ts:63-96 | With ordered thresholds, a breakpoint's flag holds if and only if that breakpoint is the name. |
| `Display.NameBounds` | frontend/src/composables/useDisplay.ts:63-96 | For any thresholds, the width has reached the threshold of every breakpoint from `sm` up to the name, and it is below the threshold of the next breakpoint. |
| `Display.NameMonotonic` | frontend/src/composables/useDisplay.ts:63-96 | If `w1 <= w2`, the rank of `name(w1)` is at most the rank of `name(w2)`, for any thresholds. |
| `Display.Mobile` | frontend/src/composables/useDisplay.ts:99-106 | A numeric breakpoint `n` gives `width < n`. The named breakpoint "md" gives `smAndDown`, "lg" gives `mdAndDown` and "sm" gives `xs`. |
| `Display.MobileBelowBreakpoint` | frontend/src/composables/useDisplay.ts:99-106 | With ordered thresholds, and a named breakpoint other than xs, `mobile` holds if and only if the current breakpoint ranks below the named one. |
| `Display.DisplayClasses` | frontend/src/composables/useDisplay.ts:109-118 | Without a truthy `name` option the list is empty. Otherwise it ends with `<name>--<breakpoint>`, and it has two entries, the first being `<name>--mobile`, exactly when `mobile` holds. |
| `ErrorDetail.DetailMessage` | frontend/src/stores/auth.ts:44-48 | A non-empty string detail is shown as it is. Any list detail, even an empty one, becomes "Something went wrong". A missing or empty detail falls back to the error's message. The same rule appears in stores/auth.ts:73-77 and composables/useAuth.ts:59-63,88-92. |
| `Auth.SignUpErrorToast` | frontend/src/stores/auth.ts:50-54 | A sign-up error toast always has error severity and the summary "Something went wrong". Its detail follows the detail rule. |
| `Auth.AuthSession.constructor` | frontend/src/composables/useAuth.ts:27-41 | The error starts as null. The current-user query's `enabled` flag is fixed to "a token is stored" at set-up. The same holds in stores/auth.ts:14-30. |
| `Auth.AuthSession.IsLoggedIn` | frontend/src/stores/auth.ts:20-22 | True if and only if the `access_token` key is stored, whatever its value, the empty string included. The same holds in useAuth.ts:33-35. |
| `Auth.AuthSession.OnSignUpSuccess` | frontend/src/stores/auth.ts:35-42 | Pushes "/login" and adds the one "Account created" success toast. By its frame, it changes neither the token nor the error. |
| `Auth.AuthSession.OnSignUpError` | frontend/src/stores/auth.ts:43-55 | Adds exactly one error toast, the one built by the detail rule. Only the toast log changes; the error is not written. |
| `Auth.AuthSession.OnSignUpSettled` | frontend/src/stores/auth.ts:56-58 | Invalidates `["users"]` once. No cached key is dropped. |
| `Auth.AuthSession.SignUp` | frontend/src/composables/useAuth.ts:49-74 | Whether sign-up succeeds or fails, `["users"]` is invalidated exactly once. Success pushes "/login" and adds the success toast. Failure pushes nothing and adds the error toast. Storage and the error are unchanged. |
| `Auth.AuthSession.OnLoginSuccess` | frontend/src/stores/auth.ts:64-71 | Stores the returned token under `access_token` and pushes "/". The store invalidates the current-user key and the composable (useAuth.ts:83-86) invalidates nothing. Afterwards `IsLoggedIn` holds. |
| `Auth.AuthSession.OnLoginError` | frontend/src/stores/auth.ts:72-80 | The error becomes the detail rule's message. The frame leaves the token, the navigation and the cache unchanged. The same holds in useAuth.ts:87-95. |
| `Auth.AuthSession.Logout` | frontend/src/stores/auth.ts:84-89 | Removes `access_token` and pushes "/login". The store clears every cached key, and the composable (useAuth.ts:99-102) leaves the cache untouched. |
| `Auth.AuthSession.ResetError` | frontend/src/stores/auth.ts:92-94 | The error becomes null, and nothing else changes. The same holds in useAuth.ts:105-107. |
| `RouteGuard.Matched` | frontend/src/router/index.ts:5-60 | A named route resolves to a chain that starts at a top-level record, steps from each record to one of its children, and ends at the record with that name. There is no chain if and only if no record in the tree has the name. |
| `RouteGuard.AnyRequiresAuth` | frontend/src/router/index.ts:66 | True if and only if some matched record has `requiresAuth`. |
| `RouteGuard.IsAuthenticated` | frontend/src/router/index.ts:64-67 | The guard's truthiness test on the stored token: a missing token and the empty string are both falsy, and any non-empty string is truthy. |
| `RouteGuard.BeforeEach` | frontend/src/router/index.ts:63-73 | The guard makes exactly one decision: proceed, or redirect to `login`. It redirects if and only if a matched record requires auth and the token is missing or empty. With a non-empty token, it always proceeds. |
| `RouteGuard.ProtectedRoutes` | frontend/src/router/index.ts:6-31 | Dashboard, admin, items and settings resolve under the layout marked `requiresAuth`. They redirect if and only if the token is missing or empty. |
| `RouteGuard.PublicRoutes` | frontend/src/router/index.ts:33-58 | login, signup, reset-password and recover-password match no record that requires auth. They proceed whatever the token. |
| `RouteGuard.RedirectIsFinal` | frontend/src/router/index.ts:39-69 | The redirect target `login` exists and is public, so a redirect never causes a second redirect. |
| `Session.EmptyTokenDisagreement` | frontend/src/router/index.ts:64-67 | With an empty token stored, `IsLoggedIn` holds, yet the guard still sends `settings` to `login`. |
| `Session.LogoutTwice` | frontend/src/stores/auth.ts:84-89 | Two logouts leave storage and the cache keys as one logout does. The navigation history records both logouts. In the store, the cache's event log records two clears; in the composable, the cache is untouched. |
| `Theme.InitialColorMode` | frontend/src/stores/theme.ts:5 | The stored `colorMode` is used if it is non-empty, and "light-mode" otherwise. The result is never empty. |
| `Theme.ThemeStore.constructor` | frontend/src/stores/theme.ts:4-17 | Set-up writes the initial mode back to storage and syncs the root class. An unrecognised stored string is kept as it is and adds no `dark-mode` class. |
| `Theme.ThemeStore.SetColorMode` | frontend/src/stores/theme.ts:7-14 | The field and the `colorMode` key both become the mode. The root has `dark-mode` if and only if the mode is "dark-mode". No other class or storage key changes. |
| `Dom.Toggled` | frontend/src/stores/theme.ts:10-13 | After a toggle, the token is present if and only if it was forced on. Every other class keeps its presence. |
| `Dom.ToggledIdempotent` | frontend/src/stores/theme.ts:10-13 | Toggling twice with the same force gives the same result as toggling once. |
| `Dom.ToggledOnThenOff` | frontend/src/stores/theme.ts:10-13 | Adding an absent class and then removing it restores the class list exactly. |
| `Session.SetColorModeTwice` | frontend/src/stores/theme.ts:7-14 | Setting the same mode twice leaves the same state as setting it once. |
| `Session.DarkThenLight` | frontend/src/stores/theme.ts:10-13 | Going dark and then light restores a class list that started without `dark-mode`. |
| `Session.ColorModeSurvivesSession` | frontend/src/stores/theme.ts:5-17 | Start from any stored state, choose dark mode, log out and log in. The page is still dark, and a theme store set up again from storage starts in dark mode. |
| `Slug.Lower` | frontend/tests/utils/random.ts:33 | After lower-casing, no ASCII capital remains. On ASCII text, the length is kept. |
| `Slug.LowerAscii` | frontend/tests/utils/random.ts:33 | On ASCII text, lower-casing keeps the length and maps each capital to its lower-case letter. |
| `Slug.Collapse` | frontend/tests/utils/random.ts:34 | Collapsing white space never lengthens the text. |
| `Slug.CollapseAlphabet` | frontend/tests/utils/random.ts:34 | The collapsed text has no white space. Each of its characters is `-` or comes from the input. |
| `Slug.CollapseRun` | frontend/tests/utils/random.ts:34 | A maximal run of white space becomes exactly one `-`, and the text on each side is collapsed independently. |
| `Slug.Strip` | frontend/tests/utils/random.ts:35 | Stripping keeps only characters in `[A-Za-z0-9_-]` and never lengthens the text. A single character is kept if and only if it is in `[\w-]`. |
| `Slug.StripAppend` | frontend/tests/utils/random.ts:35 | Stripping works piece by piece: `Strip(a + b) == Strip(a) + Strip(b)`. With the single-character case, this fixes the result: every `[\w-]` character survives, in order. |
| `Slug.Slugify` | frontend/tests/utils/random.ts:31-35 | Every character of a slug is in `a-z`, `0-9`, `_` or `-`, so a slug holds no white space. Empty input gives an empty slug. For ASCII input, the slug is no longer than the input. |
| `Slug.SlugKeepsKeptChars` | frontend/tests/utils/random.ts:31-35 | Every `[\w-]` character of the collapsed, lower-cased text appears in the slug at its place. The slug is the slug of the text before it, then the character, then the slug of the text after it. |
| `Slug.SlugifyIdempotent` | frontend/tests/utils/random.ts:31-35 | `slugify(slugify(s)) == slugify(s)`. |
| `Slug.SlugifyOfSlugChars` | frontend/tests/utils/random.ts:31-35 | A text made only of `[a-z0-9_-]` characters is kept as it is, in order. |
| `Slug.SlugifyAsciiWord` | frontend/tests/utils/random.ts:33-35 | For ASCII text without white space, capitals become lower case and the slug is that text with the characters outside `[\w-]` deleted. |

## Left out

- Vue reactivity, `onMounted`/`onUnmounted`, the resize listener and `update` (useDisplay.ts:121-156). The width is an input to every display function. The `height` ref is not modelled.
- `detectPlatform` (useDisplay.ts:127-145): it reads `navigator.userAgent` and `window`, which are outside the model.
- Widths and thresholds are unbounded integers. Browser widths are small non-negative integers, so no overflow can occur in the source.
- The requests themselves, through the generated API client and axios: a request's result is an input to the model (`Auth.Outcome`).
- The current user's data and `isLoading`. The `staleTime` and `gcTime` timing, refetching and retries are TanStack internals. The cache is modelled as a set of keys plus a log of invalidations and clears. Invalidation marks data stale and drops no key.
- `Auth.CurrentUserKey` stands in for the generated `usersReadUserMeOptions().queryKey`, whose value the generated client defines.
- `ErrorDetail.DetailMessage`: the detail is modelled as missing, a string or a list. A numeric or object-valued `detail`, which the server does not send, is not modelled.
- The `staleTime` and `gcTime` options that only the store passes to the current-user query (stores/auth.ts:28-29) are timing settings and are not modelled.
- `RouteGuard.Matched` resolves routes by name. vue-router's path matching is not modelled, and the guard's `from` argument is unused in the source. Pushes made by the auth session are logged; they are not run through the guard.
- `Slug.LowerChar`: JavaScript's `toLowerCase` is modelled for ASCII capitals and for the two non-ASCII letters whose lower-case forms contain ASCII letters (U+0130 and U+212A). Every other character maps to itself. This differs from the source only outside ASCII, on characters that are not word characters either way, so the final strip deletes them and the slug is the same. JavaScript works on UTF-16 code units and Dafny characters are Unicode scalar values. Astral characters are removed whole either way.
- `Theme.ThemeStore.SetColorMode` takes any string, not only "light-mode" or "dark-mode", because set-up passes it the stored string unchecked.
- `Dom.ClassList` is a sequence of tokens. The browser's `DOMTokenList` also keeps its tokens distinct, which no property here depends on.
- `randomEmail`, `randomTeamName` and `randomPassword` (random.ts:1-29) depend on `Math.random`.
- The FastAPI backend, test helpers that do network I/O, the Playwright specs, plugins and build configuration: they are not part of this model.
