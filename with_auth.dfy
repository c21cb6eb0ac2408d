/**
 * `withAuth`: wraps a page component so that, once mounted, it replaces
 * the route with the login page when no token is stored.  The wrapped
 * component is rendered in every case; the wrapper also gets a display
 * name built from the wrapped component's.
 */
module WithAuth {
  import opened Wrappers
  import opened JsValues
  import opened Browser

  /** A component's `displayName` and `name`, each possibly undefined. */
  datatype Component = Component(displayName: Option<string>, name: Option<string>)

  /** The guard's decision: `router.replace('/login')` when the token is missing or empty. */
  function GuardEffect(items: map<string, string>): (nav: Option<Navigation>)
    ensures nav.Some? <==> TokenKey !in items || items[TokenKey] == ""
    ensures nav.Some? ==> nav.value == Replace(LoginRoute)
  {
    if HasToken(items) then None else Some(Replace(LoginRoute))
  }

  /** The mount effect: read the token, redirect if it is falsy. */
  method CheckOnMount(storage: Storage) returns (nav: Option<Navigation>)
    ensures nav == GuardEffect(storage.items)
  {
    var token := storage.GetItem(TokenKey);
    if !TruthyItem(token) {
      nav := Some(Replace(LoginRoute));
    } else {
      nav := None;
    }
  }

  /** What the wrapper renders: the wrapped component, given all the wrapper's props. */
  datatype Element<P> = Element(component: Component, props: P)

  function Render<P>(wrapped: Component, props: P, items: map<string, string>): (e: Element<P>)
    ensures e.component == wrapped && e.props == props
  {
    Element(wrapped, props)
  }

  /** Rendering does not depend on the token: the redirect happens after the first render. */
  lemma RenderIgnoresToken<P>(wrapped: Component, props: P, items1: map<string, string>, items2: map<string, string>)
    ensures Render(wrapped, props, items1) == Render(wrapped, props, items2)
  {
  }

  /** `displayName || name || 'Component'`. */
  function InnerName(c: Component): (s: string)
    ensures s != ""
    ensures TruthyItem(c.displayName) ==> s == c.displayName.value
    ensures !TruthyItem(c.displayName) && TruthyItem(c.name) ==> s == c.name.value
    ensures !TruthyItem(c.displayName) && !TruthyItem(c.name) ==> s == "Component"
  {
    if TruthyItem(c.displayName) then c.displayName.value
    else if TruthyItem(c.name) then c.name.value
    else "Component"
  }

  /** The wrapper's display name, `WithAuth(<inner name>)`. */
  function DisplayName(c: Component): (s: string)
    ensures |s| > |"WithAuth()"|
    ensures s[..9] == "WithAuth(" && s[|s| - 1] == ')'
    ensures s[9..|s| - 1] == InnerName(c)
  {
    "WithAuth(" + InnerName(c) + ")"
  }

  /** An anonymous component without display name is shown as `WithAuth(Component)`. */
  lemma AnonymousDisplayName()
    ensures DisplayName(Component(None, Some(""))) == "WithAuth(Component)"
    ensures DisplayName(Component(Some(""), None)) == "WithAuth(Component)"
  {
  }
}
