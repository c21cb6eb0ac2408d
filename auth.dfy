/** `logout`: forget the session and go to the login page. */
module Auth {
  import opened Browser

  /** The store after logout: "user" and "token" gone, every other key kept. */
  function AfterLogout(items: map<string, string>): (r: map<string, string>)
    ensures UserKey !in r && TokenKey !in r
    ensures forall k :: k in items && k != UserKey && k != TokenKey ==> k in r && r[k] == items[k]
    ensures forall k :: k in r ==> k in items
  {
    items - {UserKey, TokenKey}
  }

  /** `logout()`: two removals, then a push to the login page. */
  method Logout(storage: Storage) returns (nav: Navigation)
    modifies storage
    ensures storage.items == AfterLogout(old(storage.items))
    ensures nav == Push(LoginRoute)
  {
    storage.RemoveItem(UserKey);
    storage.RemoveItem(TokenKey);
    nav := Push(LoginRoute);
  }

  /** Logging out twice leaves the same store as logging out once. */
  lemma LogoutIdempotent(items: map<string, string>)
    ensures AfterLogout(AfterLogout(items)) == AfterLogout(items)
  {
  }

  /** After logout no guard sees a token. */
  lemma LogoutClosesGuards(items: map<string, string>)
    ensures !HasToken(AfterLogout(items))
  {
  }
}
