/**
 * The splash screen at `/`: routes to the login page or to the dashboard
 * depending on the stored token, and spins a scan line by 2 degrees per
 * timer tick.
 */
module SplashScreen {
  import opened JsValues
  import opened Browser
  import WithAuth
  import LoginController

  /** `checkAuth`'s decision: exactly one push, to the login page without a token, else to the dashboard. */
  function SplashNavigation(items: map<string, string>): (nav: Navigation)
    ensures nav.Push?
    ensures nav.route == LoginRoute <==> TokenKey !in items || items[TokenKey] == ""
    ensures nav.route == DashboardRoute <==> TokenKey in items && items[TokenKey] != ""
  {
    if HasToken(items) then Push(DashboardRoute) else Push(LoginRoute)
  }

  /** `checkAuth()`. */
  method CheckAuth(storage: Storage) returns (nav: Navigation)
    ensures nav == SplashNavigation(storage.items)
  {
    var token := storage.GetItem(TokenKey);
    if !TruthyItem(token) {
      nav := Push(LoginRoute);
    } else {
      nav := Push(DashboardRoute);
    }
  }

  /** The splash screen sends to the login page exactly when the page guard would redirect. */
  lemma GuardsAgree(items: map<string, string>)
    ensures SplashNavigation(items).route == LoginRoute <==> WithAuth.GuardEffect(items).Some?
  {
  }

  /**
   * After a successful login the login page pushes "/"; starting from a store
   * without a token, the splash screen then sends the user back to the login page.
   */
  lemma LoginLeadsBackToLogin(items: map<string, string>, outcome: LoginController.LoginOutcome)
    requires !HasToken(items) && LoginController.LoginSucceeds(outcome)
    ensures SplashNavigation(LoginController.StorageAfterLogin(items, outcome)) == Push(LoginRoute)
  {
    LoginController.LoginDoesNotOpenGuards(items, outcome);
  }

  /** JavaScript's `%`: the remainder takes the sign of the dividend. */
  function JsRemainder(a: int, b: int): (r: int)
    requires b != 0
    ensures a >= 0 ==> 0 <= r < if b > 0 then b else -b
    ensures a < 0 ==> -(if b > 0 then b else -b) < r <= 0
    ensures exists q :: a == q * b + r
  {
    var m := if b > 0 then b else -b;
    var r := if a >= 0 then a % m else -((-a) % m);
    var q := if a >= 0 then a / m else -((-a) / m);
    assert a == q * m + r;
    assert q * m == (if b > 0 then q else -q) * b;
    r
  }

  /** One timer tick: `(prevRotation + 2) % 360`. */
  function RotationStep(r: int): (next: int)
    ensures -2 <= r < 358 ==> next == r + 2
    ensures 0 <= r < 360 ==> 0 <= next < 360
    ensures 358 <= r < 360 ==> next == r - 358
  {
    JsRemainder(r + 2, 360)
  }

  /** The rotation after `k` ticks, starting from 0. */
  function RotationAfter(k: nat): int
  {
    if k == 0 then 0 else RotationStep(RotationAfter(k - 1))
  }

  /** Adding 2 commutes with reduction modulo 360. */
  lemma AddTwoModulo(x: nat)
    ensures ((x % 360) + 2) % 360 == (x + 2) % 360
  {
    var q, p := x / 360, x % 360;
    assert x == 360 * q + p;
    if p + 2 < 360 {
      assert x + 2 == 360 * q + (p + 2);
    } else {
      assert x + 2 == 360 * (q + 1) + (p + 2 - 360);
    }
  }

  /** After `k` ticks the rotation is `2k` reduced modulo 360. */
  lemma {:induction false} RotationClosedForm(k: nat)
    ensures RotationAfter(k) == (2 * k) % 360
  {
    if k > 0 {
      RotationClosedForm(k - 1);
      AddTwoModulo(2 * (k - 1));
      assert RotationAfter(k) == ((2 * (k - 1)) % 360 + 2) % 360;
    }
  }

  /** Twice `k` modulo 360 is twice `k` modulo 180. */
  lemma TwiceModulo(k: nat)
    ensures (2 * k) % 360 == 2 * (k % 180)
  {
    var a, b := k / 180, k % 180;
    assert 2 * k == 360 * a + 2 * b;
  }

  /** The rotation stays in [0, 360) and is always even. */
  lemma RotationInRangeAndEven(k: nat)
    ensures 0 <= RotationAfter(k) < 360
    ensures RotationAfter(k) % 2 == 0
  {
    RotationClosedForm(k);
    TwiceModulo(k);
    var b := k % 180;
    assert RotationAfter(k) == b + b;
  }

  /** The rotation is back at 0 exactly every 180 ticks. */
  lemma RotationPeriod(k: nat)
    ensures RotationAfter(k) == 0 <==> k % 180 == 0
  {
    RotationClosedForm(k);
    TwiceModulo(k);
  }
}
