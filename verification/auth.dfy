/**
 * The session coordinator, in the two versions the code base holds: the Pinia
 * store `useAuthStore` and the older `useAuth` composable. They differ in two
 * modelled places: after a successful login the store invalidates the
 * current-user query, and on logout it clears the whole query cache.
 *
 * A TanStack mutation runs `onSuccess` or `onError` and then `onSettled`;
 * each callback is a method here, and `SignUp` runs them in that order.
 */
module Auth {
  import opened Wrappers
  import opened WebStorage
  import opened QueryCache
  import opened ErrorDetail
  import Navigation
  import Toasts

  datatype Variant = AuthStore | AuthComposable

  /** The key the sign-up settles on: the admin user listing. */
  const UsersKey: QueryKey := ["users"]
  /** Stand-in for the generated `usersReadUserMeOptions().queryKey`. */
  const CurrentUserKey: QueryKey := ["usersReadUserMe"]

  const HomePath := "/"
  const LoginPath := "/login"

  const SignUpSuccessToast :=
    Toasts.ToastMessage(Toasts.Success, "Account created", "Your account has been created successfully.")

  /** The toast of a failed sign-up: always the generic summary, with the detail rule's message. */
  function SignUpErrorToast(err: ApiError): (t: Toasts.ToastMessage)
    ensures t.severity == Toasts.Error && t.summary == GenericMessage
    ensures t.detail == DetailMessage(err)
    ensures err.detail.List? ==> t.detail == GenericMessage
    ensures !Truthy(err.detail) ==> t.detail == err.message
  {
    Toasts.ToastMessage(Toasts.Error, GenericMessage, DetailMessage(err))
  }

  /** How a request ended: with a response, or with an Axios error. */
  datatype Outcome<T> = Succeeded(value: T) | Failed(err: ApiError)

  class AuthSession {
    const variant: Variant
    const storage: LocalStorage
    const queryClient: QueryClient
    const router: Navigation.Router
    const toast: Toasts.ToastService
    /** `enabled` of the current-user query, read once when the session is set up. */
    const userQueryEnabled: bool
    /** The inline login error. */
    var error: Option<string>

    constructor (variant: Variant, storage: LocalStorage, queryClient: QueryClient,
                 router: Navigation.Router, toast: Toasts.ToastService)
      ensures this.variant == variant && this.storage == storage && this.queryClient == queryClient
      ensures this.router == router && this.toast == toast
      ensures error == None
      ensures userQueryEnabled <==> AccessTokenKey in storage.items
    {
      this.variant := variant;
      this.storage := storage;
      this.queryClient := queryClient;
      this.router := router;
      this.toast := toast;
      userQueryEnabled := storage.GetItem(AccessTokenKey) != None;
      error := None;
    }

    /** `isLoggedIn`: some token is stored, the empty string included. */
    function IsLoggedIn(): (b: bool)
      reads storage
      ensures b <==> AccessTokenKey in storage.items
    {
      storage.GetItem(AccessTokenKey) != None
    }

    /** Sign-up `onSuccess`: go to the login page and confirm with a toast. */
    method OnSignUpSuccess()
      modifies router, toast
      ensures router.history == old(router.history) + [LoginPath]
      ensures toast.shown == old(toast.shown) + [SignUpSuccessToast]
    {
      router.Push(LoginPath);
      toast.Add(SignUpSuccessToast);
    }

    /** Sign-up `onError`: one error toast; the inline error is left alone. */
    method OnSignUpError(err: ApiError)
      modifies toast
      ensures toast.shown == old(toast.shown) + [SignUpErrorToast(err)]
    {
      toast.Add(SignUpErrorToast(err));
    }

    /** Sign-up `onSettled`: the user listing is invalidated. */
    method OnSignUpSettled()
      modifies queryClient
      ensures queryClient.keys == old(queryClient.keys)
      ensures queryClient.events == old(queryClient.events) + [Invalidated(UsersKey)]
    {
      queryClient.InvalidateQueries(UsersKey);
    }

    /**
     * A sign-up request that ends with `outcome`. Either way the user listing
     * is invalidated exactly once; the token and the inline error never change.
     */
    method SignUp(outcome: Outcome<()>)
      modifies router, toast, queryClient
      ensures queryClient.keys == old(queryClient.keys)
      ensures queryClient.events == old(queryClient.events) + [Invalidated(UsersKey)]
      ensures outcome.Succeeded? ==>
        router.history == old(router.history) + [LoginPath]
        && toast.shown == old(toast.shown) + [SignUpSuccessToast]
      ensures outcome.Failed? ==>
        router.history == old(router.history)
        && toast.shown == old(toast.shown) + [SignUpErrorToast(outcome.err)]
      ensures storage.items == old(storage.items) && error == old(error)
    {
      match outcome {
        case Succeeded(_) => OnSignUpSuccess();
        case Failed(err) => OnSignUpError(err);
      }
      OnSignUpSettled();
    }

    /**
     * Login `onSuccess`: store the returned token and go home; the store
     * (not the composable) also invalidates the current-user query.
     */
    method OnLoginSuccess(accessToken: string)
      modifies storage, router, queryClient
      ensures storage.items == old(storage.items)[AccessTokenKey := accessToken]
      ensures router.history == old(router.history) + [HomePath]
      ensures queryClient.keys == old(queryClient.keys)
      ensures queryClient.events == old(queryClient.events)
        + (if variant == AuthStore then [Invalidated(CurrentUserKey)] else [])
      ensures IsLoggedIn() && error == old(error)
    {
      storage.SetItem(AccessTokenKey, accessToken);
      router.Push(HomePath);
      if variant == AuthStore {
        queryClient.InvalidateQueries(CurrentUserKey);
      }
    }

    /** Login `onError`: the detail rule's message becomes the inline error; nothing else changes. */
    method OnLoginError(err: ApiError)
      modifies this`error
      ensures error == Some(DetailMessage(err))
    {
      var errDetail := DetailMessage(err);
      error := Some(errDetail);
    }

    /**
     * `logout`: drop the token and go to the login page; the store also
     * clears the whole query cache, the composable leaves it alone.
     */
    method Logout()
      modifies storage, queryClient, router
      ensures storage.items == old(storage.items) - {AccessTokenKey}
      ensures router.history == old(router.history) + [LoginPath]
      ensures variant == AuthStore ==>
        queryClient.keys == {} && queryClient.events == old(queryClient.events) + [Cleared]
      ensures variant == AuthComposable ==>
        queryClient.keys == old(queryClient.keys) && queryClient.events == old(queryClient.events)
      ensures !IsLoggedIn() && error == old(error)
    {
      storage.RemoveItem(AccessTokenKey);
      if variant == AuthStore {
        queryClient.Clear();
      }
      router.Push(LoginPath);
    }

    /** `resetError`: the inline error is cleared and nothing else changes. */
    method ResetError()
      modifies this`error
      ensures error == None
    {
      error := None;
    }
  }
}
