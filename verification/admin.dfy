/**
 * The admin-mode store: a flag pair and a token, set by logging in through the API client
 * and cleared on exit, and the access check that critical operations await.
 */
module Admin {
  import opened Wrappers
  import opened Auth
  import opened Client

  const AdminAccessRequired := "Admin access required"

  class AdminStore {
    var isAdminMode: bool
    var isAdminAuthenticated: bool
    var adminToken: Option<string>
    const api: ApiClient

    /** Both flags are on and the token is non-empty: what `verifyAdminAccess` accepts. */
    predicate HasAccess()
      reads this
    {
      isAdminMode && isAdminAuthenticated && TruthyToken(adminToken)
    }

    /** The initial state: not in admin mode, not authenticated, no token. */
    constructor (api: ApiClient)
      ensures this.api == api
      ensures !isAdminMode && !isAdminAuthenticated && adminToken == None
      ensures !HasAccess()
    {
      this.api := api;
      isAdminMode, isAdminAuthenticated, adminToken := false, false, None;
    }

    /**
     * `enterAdminMode`: logs in through the shared client; on success both flags are set and
     * the returned token becomes the admin token, which is then also the main auth token and
     * is written to storage. On failure the error is passed on, the admin state is untouched
     * and the auth store is left as the failed request left it (logged out on a 401).
     */
    method EnterAdminMode(email: string, password: string, reply: Response<LoginResponse>)
      returns (sent: HttpRequest, r: Result<bool, string>)
      modifies this, api.auth, api.auth.storage
      ensures sent == api.Sent("/auth/login", RequestOptions(Some("POST"), map[], Some(Credentials(email, password))),
                               old(api.auth.token), old(api.auth.storage.items))
      ensures r.Success? <==> Outcome(reply).Success?
      ensures r.Success? ==>
        r.value && isAdminMode && isAdminAuthenticated && adminToken == Some(Outcome(reply).value.token)
        && api.auth.token == adminToken && api.auth.isAuthenticated && api.auth.Synced()
        && api.auth.storage.items == old(api.auth.storage.items)[AuthTokenKey := Outcome(reply).value.token]
      ensures r.Success? ==> (HasAccess() <==> Outcome(reply).value.token != "")
      ensures r.Failure? ==>
        r.error == Outcome(reply).error
        && isAdminMode == old(isAdminMode) && isAdminAuthenticated == old(isAdminAuthenticated)
        && adminToken == old(adminToken)
      ensures r.Failure? ==> api.AuthAfterRequest(LogsOut(reply))
    {
      var response;
      sent, response := api.Login(email, password, reply);
      match response {
        case Success(login) =>
          isAdminMode, isAdminAuthenticated, adminToken := true, true, Some(login.token);
          r := Success(true);
        case Failure(e) =>
          r := Failure(e);
      }
    }

    /** `exitAdminMode`: clears both flags and the token, whatever the state was. */
    method ExitAdminMode()
      modifies this
      ensures !isAdminMode && !isAdminAuthenticated && adminToken == None
      ensures !HasAccess()
    {
      isAdminMode, isAdminAuthenticated, adminToken := false, false, None;
    }

    /** `verifyAdminAccess`: resolves `true` exactly when access is held, otherwise rejects. */
    method VerifyAdminAccess() returns (r: Result<bool, string>)
      ensures r.Success? <==> isAdminMode && isAdminAuthenticated && adminToken.Some? && adminToken.value != ""
      ensures r.Success? ==> r.value
      ensures r.Failure? ==> r.error == AdminAccessRequired
    {
      if isAdminMode && isAdminAuthenticated && TruthyToken(adminToken) {
        r := Success(true);
      } else {
        r := Failure(AdminAccessRequired);
      }
    }
  }
}
