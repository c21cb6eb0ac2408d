/**
 * `LoginController.handleLogin`: ask the back end to log in, store its
 * answer under the key "user" when it is truthy, and report success.
 * The back end call (`LoginModel.login`) is a parameter: for given
 * credentials it returns a value or throws.
 */
module LoginController {
  import opened JsValues
  import opened Browser
  import opened Wrappers

  /** What `await loginModel.login()` did: returned `data`, or threw. */
  datatype LoginOutcome = Returned(data: JsValue) | Threw

  /** `handleLogin` returns true exactly when `login()` returned a truthy value. */
  predicate LoginSucceeds(outcome: LoginOutcome)
  {
    outcome.Returned? && Truthy(outcome.data)
  }

  /** The store after `handleLogin`, given what `login()` did. */
  function StorageAfterLogin(items: map<string, string>, outcome: LoginOutcome): (r: map<string, string>)
    ensures LoginSucceeds(outcome) ==> UserKey in r && r[UserKey] == ToJsString(outcome.data)
    ensures !LoginSucceeds(outcome) ==> r == items
    ensures forall k :: k in r && k != UserKey ==> k in items && r[k] == items[k]
    ensures forall k :: k in items && k != UserKey ==> k in r
  {
    if LoginSucceeds(outcome) then items[UserKey := ToJsString(outcome.data)] else items
  }

  /** `LoginController.handleLogin(email, password)`. */
  method HandleLogin(storage: Storage, email: string, password: string, login: (string, string) -> LoginOutcome)
    returns (ok: bool)
    modifies storage
    ensures ok == LoginSucceeds(login(email, password))
    ensures storage.items == StorageAfterLogin(old(storage.items), login(email, password))
  {
    var outcome := login(email, password);
    match outcome
    case Threw =>
      ok := false;
    case Returned(data) =>
      if Truthy(data) {
        storage.SetItem(UserKey, ToJsString(data));
        ok := true;
      } else {
        ok := false;
      }
  }

  /** Login never writes, changes or removes the token. */
  lemma LoginNeverTouchesToken(items: map<string, string>, outcome: LoginOutcome)
    ensures Item(StorageAfterLogin(items, outcome), TokenKey) == Item(items, TokenKey)
  {
  }

  /** A falsy answer or an exception leaves the store as it was. */
  lemma FailedLoginLeavesStorage(items: map<string, string>, outcome: LoginOutcome)
    requires outcome.Threw? || !Truthy(outcome.data)
    ensures StorageAfterLogin(items, outcome) == items
  {
  }

  /**
   * Since both guards test "token" and login writes only "user", a
   * successful login from a store without a token still fails them.
   */
  lemma LoginDoesNotOpenGuards(items: map<string, string>, outcome: LoginOutcome)
    requires !HasToken(items)
    ensures !HasToken(StorageAfterLogin(items, outcome))
  {
    LoginNeverTouchesToken(items, outcome);
  }

  /** An object answer is stored as the text "[object Object]", not as JSON. */
  lemma ObjectAnswerStoredAsPlaceholder(items: map<string, string>)
    ensures StorageAfterLogin(items, Returned(Object))[UserKey] == "[object Object]"
  {
  }

  /**
   * A truthy answer other than an array is stored as a non-empty text,
   * so `getItem('user')` reads back a truthy value.
   */
  lemma ScalarSuccessStoresTruthyUser(items: map<string, string>, outcome: LoginOutcome)
    requires LoginSucceeds(outcome) && !outcome.data.Array?
    ensures TruthyItem(Item(StorageAfterLogin(items, outcome), UserKey))
  {
  }

  /**
   * An empty array is truthy, so login succeeds, yet `String([])` is ""
   * and the stored user reads back as a falsy value.
   */
  lemma EmptyArrayAnswerStoresEmptyUser(items: map<string, string>)
    ensures LoginSucceeds(Returned(Array([])))
    ensures Item(StorageAfterLogin(items, Returned(Array([]))), UserKey) == Some("")
  {
  }
}
