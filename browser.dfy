/**
 * The browser facilities the dashboard uses: `localStorage`, a string to
 * string store shared by every page, and the router's navigations.
 */
module Browser {
  import opened Wrappers
  import opened JsValues

  const UserKey := "user"
  const TokenKey := "token"

  const LoginRoute := "/login"
  const DashboardRoute := "/responsable"

  /** A router call: `router.push(route)` or `router.replace(route)`. */
  datatype Navigation = Push(route: string) | Replace(route: string)

  /** `localStorage.getItem(key)` on a store's contents: `None` stands for null. */
  function Item(items: map<string, string>, key: string): (r: Option<string>)
    ensures r.Some? <==> key in items
    ensures r.Some? ==> r.value == items[key]
  {
    if key in items then Some(items[key]) else None
  }

  /** The test both guards make: `!!localStorage.getItem('token')`. */
  predicate HasToken(items: map<string, string>)
  {
    TruthyItem(Item(items, TokenKey))
  }

  /** A token is seen exactly when the key is present with a non-empty value. */
  lemma HasTokenIff(items: map<string, string>)
    ensures HasToken(items) <==> TokenKey in items && items[TokenKey] != ""
  {
  }

  /** A token stored as the empty string counts as no token at all. */
  lemma EmptyTokenCountsAsAbsent(items: map<string, string>)
    requires TokenKey in items && items[TokenKey] == ""
    ensures !HasToken(items)
    ensures HasToken(items) == HasToken(items - {TokenKey})
  {
  }

  /** The page's `localStorage`. */
  class Storage {
    var items: map<string, string>

    constructor (initial: map<string, string>)
      ensures items == initial
    {
      items := initial;
    }

    /** `getItem(key)`. */
    function GetItem(key: string): (r: Option<string>)
      reads this
      ensures r.Some? <==> key in items
      ensures r.Some? ==> r.value == items[key]
    {
      Item(items, key)
    }

    /** `setItem(key, value)`: only that key changes. */
    method SetItem(key: string, value: string)
      modifies this
      ensures items == old(items)[key := value]
    {
      items := items[key := value];
    }

    /** `removeItem(key)`: only that key changes; removing an absent key does nothing. */
    method RemoveItem(key: string)
      modifies this
      ensures items == old(items) - {key}
    {
      items := items - {key};
    }
  }
}
