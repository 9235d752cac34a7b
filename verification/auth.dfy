/** The authentication store: the bearer token and a flag, mirrored under the `authToken` storage key. */
module Auth {
  import opened Wrappers
  import opened Storage

  const AuthTokenKey := "authToken"

  /** A JavaScript truthiness test on `string | null`: present and non-empty. */
  predicate TruthyToken(t: Option<string>) {
    t.Some? && t.value != ""
  }

  class AuthStore {
    var token: Option<string>
    var isAuthenticated: bool
    const storage: LocalStorage

    /** The flag says whether a token is held. */
    predicate Consistent()
      reads this
    {
      isAuthenticated <==> token.Some?
    }

    /** The storage key holds exactly the token (absent when there is none). */
    predicate Synced()
      reads this, storage
    {
      Lookup(storage.items, AuthTokenKey) == token
    }

    constructor (storage: LocalStorage)
      ensures this.storage == storage
      ensures token == None && !isAuthenticated
      ensures Consistent()
    {
      this.storage := storage;
      token := None;
      isAuthenticated := false;
    }

    /** Stores the token and marks the session authenticated. */
    method Login(t: string)
      modifies this, storage
      ensures token == Some(t) && isAuthenticated
      ensures storage.items == old(storage.items)[AuthTokenKey := t]
      ensures Consistent() && Synced()
    {
      storage.SetItem(AuthTokenKey, t);
      token, isAuthenticated := Some(t), true;
    }

    /** Forgets the token; the resulting state does not depend on the previous one, so logging out twice is logging out once. */
    method Logout()
      modifies this, storage
      ensures token == None && !isAuthenticated
      ensures storage.items == old(storage.items) - {AuthTokenKey}
      ensures Consistent() && Synced()
    {
      storage.RemoveItem(AuthTokenKey);
      token, isAuthenticated := None, false;
    }

    /** Adopts a non-empty stored token; otherwise nothing changes. */
    method Initialize()
      modifies this
      ensures var stored := Lookup(storage.items, AuthTokenKey);
        if TruthyToken(stored) then token == stored && isAuthenticated
        else token == old(token) && isAuthenticated == old(isAuthenticated)
      ensures old(Consistent()) ==> Consistent()
      ensures TruthyToken(Lookup(storage.items, AuthTokenKey)) ==> Consistent() && Synced()
    {
      var stored := storage.GetItem(AuthTokenKey);
      if TruthyToken(stored) {
        token, isAuthenticated := stored, true;
      }
    }

    /** The raw `set` the store also exports: any state, even an inconsistent one. */
    method Set(newToken: Option<string>, newIsAuthenticated: bool)
      modifies this
      ensures token == newToken && isAuthenticated == newIsAuthenticated
    {
      token, isAuthenticated := newToken, newIsAuthenticated;
    }
  }

  /** `Set` can break the flag invariant that `Login`, `Logout` and `Initialize` keep. */
  method RawSetBreaksConsistency(storage: LocalStorage) returns (store: AuthStore)
    ensures fresh(store) && !store.Consistent()
  {
    store := new AuthStore(storage);
    store.Set(None, true);
  }
}
