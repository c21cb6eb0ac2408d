# Prospect dashboard: list, form and session rules in Dafny

This project models the logic of the "Prospect" sales-management dashboard
(a Next.js client). That logic is a thin layer of rules inside the React
components. The model covers four groups of rules and leaves rendering out:

- **List views** (commercials, quotas, prospections): a case-insensitive
  substring search over a fixed set of fields. Every search starts again
  from the hard-coded source array. The commercials list also has a
  delete-by-id, the quotas list a "target reached" status, and the
  prospections list a status badge.
- **Permission editor**: the state `(selectedUser, selectedPermissions)`.
  It has a check-box toggle, a user change that clears the ticks, and a
  submit that does nothing without a user.
- **Form schemas**: the change-password policy and its submit handler, and
  the login schema.
- **Session and guards**: `localStorage` is a class over a
  `map<string, string>`. The model covers the login controller's write,
  `logout`, the `withAuth` guard and display name, and the splash screen's
  routing and spinner.

Pure code (filters, predicates, the toggle) is written as functions and
lemmas. Code that changes the browser store (`handleLogin`, `logout`) is
written as methods on the `Browser.Storage` class. Each such method is proved
equal to a pure function (`StorageAfterLogin`, `AfterLogout`), and the lemmas
are about those functions. The change-password form's `onSubmit` is a method
of a `ChangePasswordForm` class.

Some behaviours of the code are easy to miss:

- The login controller stores only `user`, as `String(data)`. It never stores
  a `token`. Yet both guards test `token`. So a successful login from a store
  without a token still leads back to the login page
  (`LoginController.LoginDoesNotOpenGuards`,
  `SplashScreen.LoginLeadsBackToLogin`).
- The `withAuth` wrapper renders the wrapped component whether or not a token
  exists. The redirect is an effect that runs after rendering
  (`WithAuth.RenderIgnoresToken`).
- Delete removes rows from the displayed array locally. Search filters the
  hard-coded array, so deleted rows come back after the next search
  (`CommercialList.DeletedRowReappears`).
- Toggling a ticked permission twice does not always give back the same
  list. The id comes back at the end, so the list is restored only when the
  id was absent or already last (`PermissionManagement.ToggleTwiceRestores`,
  `PermissionManagement.ToggleTwiceCanReorder`). The set of ticked ids is
  always restored.
- The confirmation field also accepts the literal text `"null"`
  (`ChangePassword.NullConfirmationAccepted`).

The form library turns an empty field into `undefined` before validating it.
Every rule except "required" lets `undefined` through. So an empty field
breaks only its "required" rule, and the violation sets reflect this.

## Model

| member | source | states |
|---|---|---|
| `Text.Lower` | app/responsable/dash/commercialList.tsx:26 | each character `A`-`Z` becomes its lower-case letter, every other character is kept, and no upper-case letter is left |
| `Text.LowerIdempotent` | app/responsable/dash/commercialList.tsx:26-27 | lower-casing an already lower-cased text changes nothing |
| `Text.Includes` | app/responsable/dash/commercialList.tsx:30-32 | `s.includes(t)` holds iff `t` occurs in `s` at some position |
| `Text.IncludesEmpty` | app/responsable/dash/commercialList.tsx:30 | every string includes the empty string |
| `Text.NotIncludesMissingChar` | app/responsable/dash/commercialList.tsx:30-32 | a term with a character that `s` lacks is not included in `s` |
| `Lists.Filter` | app/responsable/dash/commercialList.tsx:28-33 | `filter` keeps exactly the elements satisfying the predicate, every copy of each, and never lengthens the list |
| `Lists.FilterIsSubsequence` | app/responsable/dash/commercialList.tsx:28-34 | the filtered list is an order-preserving subsequence of the input |
| `Lists.FilterAllKept` | app/responsable/dash/commercialList.tsx:28-33 | filtering with a predicate true of every element returns the list unchanged |
| `Lists.FilterIdempotent` | app/responsable/dash/commercialList.tsx:45 | filtering twice with the same predicate equals filtering once |
| `Lists.SubsequenceNoDuplicates` | app/responsable/dash/permissionManagement.tsx:44 | a subsequence of a duplicate-free list is duplicate-free |
| `CommercialList.Search` | app/responsable/dash/commercialList.tsx:28-33 | a row is in the result iff it is in the source and its lower-cased nom, prenom or email includes the lower-cased text; the result is a subsequence of the source and keeps every copy of a matching row |
| `CommercialList.HandleSearch` | app/responsable/dash/commercialList.tsx:25-35 | the stored term is the lower-cased text and the displayed rows are the matching rows of the hard-coded array, in order |
| `CommercialList.HandleDelete` | app/responsable/dash/commercialList.tsx:42-47 | the displayed rows become those with another id, in their order and with every copy; the term is unchanged |
| `CommercialList.StoredTermIsLowercase` | app/responsable/dash/commercialList.tsx:26-27 | the stored search term is always in lower case |
| `CommercialList.EmptySearchShowsAll` | app/responsable/dash/commercialList.tsx:28-33 | an empty search shows the whole source array |
| `CommercialList.SearchIgnoresDisplayed` | app/responsable/dash/commercialList.tsx:28 | the search result does not depend on the displayed rows |
| `CommercialList.DeletedRowReappears` | app/responsable/dash/commercialList.tsx:25-47 | after deleting id 1 no row with id 1 is shown, yet a following empty search shows all three rows again |
| `CommercialList.MissingLetterNoMatch` | app/responsable/dash/commercialList.tsx:29-32 | a row lacking a letter of the term in either case does not match it |
| `CommercialList.DeleteAbsentIdIsNoop` | app/responsable/dash/commercialList.tsx:45 | deleting an id that is not displayed leaves the state unchanged |
| `CommercialList.DeleteIdempotent` | app/responsable/dash/commercialList.tsx:45-46 | deleting the same id twice equals deleting it once |
| `CommercialListScenarios.SearchNarrowsToOneRow` | app/responsable/dash/commercialList.tsx:15-34 | typing "Martin" narrows the three hard-coded rows to Sophie Martin's alone |
| `QuotaList.Search` | app/responsable/dash/quotaList.tsx:30-35 | a quota is in the result iff it is in the source and its lower-cased name, or one of its raw date strings, includes the lower-cased text; order kept |
| `QuotaList.HandleSearch` | app/responsable/dash/quotaList.tsx:27-37 | stores the lower-cased text and displays the matching quotas of the hard-coded array |
| `QuotaList.GetStatus` | app/responsable/dash/quotaList.tsx:39-41 | the status is "Atteint" iff nombreRealise >= nombreCible, and "Non atteint" otherwise |
| `QuotaList.StatusColour` | app/responsable/dash/quotaList.tsx:75 | the status cell is green iff the target is reached, otherwise red |
| `QuotaList.StatusReachedAtEquality` | app/responsable/dash/quotaList.tsx:40 | a realised count equal to the target counts as reached |
| `QuotaList.StatusDependsOnlyOnCounts` | app/responsable/dash/quotaList.tsx:39-41 | two quotas with the same two counts get the same status |
| `QuotaList.EmptySearchShowsAll` | app/responsable/dash/quotaList.tsx:30-35 | an empty search shows every quota |
| `QuotaList.SearchesDoNotCompound` | app/responsable/dash/quotaList.tsx:30 | a search gives the same state whatever was searched before; clearing the box shows all quotas |
| `QuotaList.SearchIsCaseInsensitive` | app/responsable/dash/quotaList.tsx:28 | searching for a text or for its lower-case form gives the same state |
| `QuotaList.ClearingSearchRestoresInitial` | app/responsable/dash/quotaList.tsx:24-36 | emptying the search box gives back the page's initial state from any state |
| `QuotaList.InitialStatuses` | app/responsable/dash/quotaList.tsx:17-21 | of the three hard-coded quotas only the second is reached |
| `ProspectionList.Search` | app/responsable/dash/prospectionList.tsx:30-35 | a prospection is in the result iff it is in the source and its lower-cased name, company or contact includes the lower-cased text; order kept |
| `ProspectionList.HandleSearch` | app/responsable/dash/prospectionList.tsx:27-37 | stores the lower-cased text and displays the matching prospections of the hard-coded array |
| `ProspectionList.SearchIgnoresStatusAndDate` | app/responsable/dash/prospectionList.tsx:31-34 | changing statut or dateProspection never changes whether a prospection matches |
| `ProspectionList.EmptySearchShowsAll` | app/responsable/dash/prospectionList.tsx:30-35 | an empty search shows every prospection |
| `ProspectionList.ClearingSearchRestoresInitial` | app/responsable/dash/prospectionList.tsx:24-36 | emptying the search box gives back the page's initial state from any state |
| `ProspectionList.StatusBadge` | app/responsable/dash/prospectionList.tsx:76-80 | the badge is yellow iff "En cours", green iff "Terminé", red for every other string |
| `ProspectionList.DeclaredStatusesHaveDistinctBadges` | app/responsable/dash/prospectionList.tsx:14 | the three declared statuses get yellow, green and red |
| `JsValues.ParseDecimalString` | app/responsable/dash/permissionManagement.tsx:35 | `parseInt` of a natural number's decimal text gives that number back |
| `JsValues.ParseEmptyIsNaN` | app/responsable/dash/permissionManagement.tsx:35 | `parseInt("")` is NaN |
| `JsValues.ParseSignedDecimalString` | app/responsable/dash/permissionManagement.tsx:35 | `parseInt(String(n))` is `n` for every integer, negative ones included |
| `JsValues.ParseStopsAtNonDigit` | app/responsable/dash/permissionManagement.tsx:35 | `parseInt` reads a numeral and ignores everything after the first non-digit, except that "0" followed by `x` or `X` starts a hexadecimal numeral |
| `JsValues.ParseLetterIsNaN` | app/responsable/dash/permissionManagement.tsx:35 | `parseInt` of a text starting with a letter is NaN |
| `PermissionManagement.FindUser` | app/responsable/dash/permissionManagement.tsx:36 | the result is the first user with the parsed id, or none when the id is NaN or no user has it |
| `PermissionManagement.HandleUserChange` | app/responsable/dash/permissionManagement.tsx:34-39 | the selected user is the first user with the parsed id (or none) and the ticks are cleared |
| `PermissionManagement.Toggle` | app/responsable/dash/permissionManagement.tsx:42-46 | the toggled id's membership flips and every other id's membership is unchanged |
| `PermissionManagement.HandlePermissionChange` | app/responsable/dash/permissionManagement.tsx:41-47 | the user stays; only the toggled permission's tick flips |
| `PermissionManagement.HandleSubmit` | app/responsable/dash/permissionManagement.tsx:49-56 | nothing is submitted iff no user is selected; otherwise the user and the ticked ids are submitted |
| `PermissionManagement.UserIdsDistinct` | app/responsable/dash/permissionManagement.tsx:17-21 | the hard-coded users have distinct ids |
| `PermissionManagement.SelectingUserOption` | app/responsable/dash/permissionManagement.tsx:35-38 | choosing the option whose value is a listed user's id selects that user with no ticks |
| `PermissionManagement.SelectingPlaceholder` | app/responsable/dash/permissionManagement.tsx:70 | choosing the "" placeholder option deselects the user and clears the ticks |
| `PermissionManagement.ToggleAbsentAppends` | app/responsable/dash/permissionManagement.tsx:45 | toggling an unticked id appends it at the end |
| `PermissionManagement.TogglePresentRemoves` | app/responsable/dash/permissionManagement.tsx:44 | toggling a ticked id removes it, keeps the rest in order, and shortens the list |
| `PermissionManagement.ToggleKeepsNoDuplicates` | app/responsable/dash/permissionManagement.tsx:42-46 | toggling keeps a duplicate-free list duplicate-free |
| `PermissionManagement.ToggleTwiceSameMembers` | app/responsable/dash/permissionManagement.tsx:42-46 | toggling the same id twice restores the set of ticked ids |
| `PermissionManagement.ToggleTwiceRestores` | app/responsable/dash/permissionManagement.tsx:42-46 | on a duplicate-free list, toggling twice restores the exact list iff the id was absent or last |
| `PermissionManagement.ToggleTwiceCanReorder` | app/responsable/dash/permissionManagement.tsx:42-46 | [1, 2] toggled on 1 twice becomes [2, 1] |
| `PermissionManagement.TickingOfferedBoxStaysDeclared` | app/responsable/dash/permissionManagement.tsx:80-87 | ticking or unticking an offered check-box keeps every ticked id among the declared permissions |
| `PermissionManagement.UserChangeClearsSelection` | app/responsable/dash/permissionManagement.tsx:38 | a user change clears the ticks and does not depend on the previous state |
| `ChangePassword.Violations` | app/responsable/dash/changePassword.tsx:7-19 | no rule is broken iff all three fields are non-empty, the new password meets the policy, and the confirmation equals it or "null" |
| `ChangePassword.ShortNewPasswordRejected` | app/responsable/dash/changePassword.tsx:10 | a new password shorter than 8 characters is rejected, by the length rule when non-empty |
| `ChangePassword.MissingClassRejected` | app/responsable/dash/changePassword.tsx:11-14 | a new password missing a lower-case letter, upper-case letter, digit or special character is rejected |
| `ChangePassword.EmptyFieldsRejected` | app/responsable/dash/changePassword.tsx:8-18 | each of the three fields left empty breaks its "required" rule |
| `ChangePassword.ConfirmationRule` | app/responsable/dash/changePassword.tsx:16-18 | with acceptable other fields, the form passes iff the confirmation equals the new password or "null" |
| `ChangePassword.NullConfirmationAccepted` | app/responsable/dash/changePassword.tsx:17 | the text "null" confirms any acceptable new password |
| `ChangePassword.NullConfirmationExample` | app/responsable/dash/changePassword.tsx:17 | ("old", "Abcdef1!", "null") is accepted although the confirmation differs |
| `ChangePassword.CurrentPasswordOnlyRequired` | app/responsable/dash/changePassword.tsx:8 | acceptance is the same for every non-empty current password |
| `ChangePassword.PolicyStricterThanLogin` | app/responsable/dash/changePassword.tsx:9-15 | every accepted new password also passes the login password rule |
| `ChangePassword.LoginRuleIsWeaker` | app/constants/validationSchema.js:7 | "aaaaaaaa" passes the login rule but fails the change-password policy |
| `ChangePassword.ChangePasswordForm.constructor` | app/responsable/dash/changePassword.tsx:22-29 | the form starts with three empty fields and no success flag |
| `ChangePassword.ChangePasswordForm.Edit` | app/responsable/dash/changePassword.tsx:52-58 | typing replaces one field's value and nothing else |
| `ChangePassword.ChangePasswordForm.Submit` | app/responsable/dash/changePassword.tsx:31-36 | a submit goes through iff the schema accepts; then the flag is set and the fields reset to ""; otherwise nothing changes |
| `ValidationSchema.LoginViolations` | app/constants/validationSchema.js:3-8 | no rule is broken iff the e-mail is non-empty and well-formed and the password has at least 8 characters |
| `ValidationSchema.LoginAcceptedIff` | app/constants/validationSchema.js:3-8 | the form passes iff the e-mail is present and well-formed and the password rule holds |
| `ValidationSchema.EmptyFieldsRejected` | app/constants/validationSchema.js:6-7 | an empty e-mail or password is rejected |
| `ValidationSchema.MalformedEmailRejected` | app/constants/validationSchema.js:5 | a non-empty e-mail that is not an address breaks the format rule |
| `ValidationSchema.ShortPasswordRejected` | app/constants/validationSchema.js:7 | a non-empty password under 8 characters breaks the length rule |
| `ValidationSchema.LongPasswordAccepted` | app/constants/validationSchema.js:7 | any password of 8 or more characters passes the password rule |
| `Browser.Item` | app/utils/withAuth.tsx:17 | `getItem` is the stored value when the key exists, null otherwise |
| `Browser.HasTokenIff` | app/utils/withAuth.tsx:17-18 | a token is seen iff the key is present with a non-empty value |
| `Browser.EmptyTokenCountsAsAbsent` | app/utils/withAuth.tsx:17-18 | a token stored as "" counts as no token |
| `Browser.Storage.GetItem` | app/page.tsx:17 | reading a key gives its stored value when the store has it, null otherwise |
| `Browser.Storage.SetItem` | app/login/loginController.tsx:13 | `setItem` changes that key only |
| `Browser.Storage.RemoveItem` | app/utils/auth.tsx:6-7 | `removeItem` drops that key only |
| `JsValues.FalsyValues` | app/login/loginController.tsx:9 | a value is falsy iff it is undefined, null, false, 0, NaN or "" |
| `JsValues.StoredStringTruthiness` | app/utils/withAuth.tsx:17-18 | a string read back from the store is truthy iff the same string is truthy as a value; null is falsy |
| `JsValues.ToJsStringOfString` | app/login/loginController.tsx:13 | a string value is stored unchanged |
| `LoginController.StorageAfterLogin` | app/login/loginController.tsx:7-20 | on a truthy answer only "user" is set, to the answer's text; on a falsy answer or an exception the store is unchanged |
| `LoginController.HandleLogin` | app/login/loginController.tsx:4-21 | returns true iff login() returned a truthy value; the store becomes `StorageAfterLogin` of the old store |
| `LoginController.LoginNeverTouchesToken` | app/login/loginController.tsx:13 | the stored token is the same before and after login |
| `LoginController.FailedLoginLeavesStorage` | app/login/loginController.tsx:16-20 | a falsy answer or an exception leaves the store unchanged |
| `LoginController.LoginDoesNotOpenGuards` | app/login/loginController.tsx:13 | without a token before login, there is none after it either |
| `LoginController.ObjectAnswerStoredAsPlaceholder` | app/login/loginController.tsx:13 | an object answer is stored as "[object Object]" |
| `LoginController.ScalarSuccessStoresTruthyUser` | app/login/loginController.tsx:9-13 | a truthy answer other than an array is stored as non-empty text, so the stored user reads back truthy |
| `LoginController.EmptyArrayAnswerStoresEmptyUser` | app/login/loginController.tsx:9-13 | an empty array answer counts as success, yet the stored user is "" and reads back falsy |
| `Auth.AfterLogout` | app/utils/auth.tsx:6-7 | "user" and "token" are absent and every other key keeps its value |
| `Auth.Logout` | app/utils/auth.tsx:5-9 | the store becomes `AfterLogout` of the old store and the navigation is a push to /login |
| `Auth.LogoutIdempotent` | app/utils/auth.tsx:6-7 | logging out twice equals logging out once |
| `Auth.LogoutClosesGuards` | app/utils/auth.tsx:6-7 | after logout no token is seen |
| `WithAuth.GuardEffect` | app/utils/withAuth.tsx:16-21 | the guard redirects, with replace to /login, iff the token is missing or "" |
| `WithAuth.CheckOnMount` | app/utils/withAuth.tsx:16-21 | the mount effect's navigation is `GuardEffect` of the store |
| `WithAuth.Render` | app/utils/withAuth.tsx:23 | the wrapped component is rendered with the wrapper's own props |
| `WithAuth.RenderIgnoresToken` | app/utils/withAuth.tsx:23 | what is rendered does not depend on the store |
| `WithAuth.InnerName` | app/utils/withAuth.tsx:26 | a non-empty displayName, else a non-empty name, else "Component" |
| `WithAuth.DisplayName` | app/utils/withAuth.tsx:26 | "WithAuth(" + inner name + ")" |
| `WithAuth.AnonymousDisplayName` | app/utils/withAuth.tsx:26 | a component with empty or undefined names is shown as "WithAuth(Component)" |
| `SplashScreen.SplashNavigation` | app/page.tsx:16-24 | exactly one push: /login iff the token is missing or "", /responsable iff it is non-empty |
| `SplashScreen.CheckAuth` | app/page.tsx:16-24 | `checkAuth`'s navigation is `SplashNavigation` of the store |
| `SplashScreen.GuardsAgree` | app/page.tsx:17-19 | the splash screen goes to /login iff the withAuth guard would redirect |
| `SplashScreen.LoginLeadsBackToLogin` | app/login/page.tsx:28-32 | after a successful login from a store without a token, the splash screen that "/" shows sends back to /login |
| `SplashScreen.JsRemainder` | app/page.tsx:30 | JavaScript's `%`: `a == q * b + r` for some integer `q`, `r` takes the dividend's sign, and `r` stays below the divisor in size |
| `SplashScreen.RotationStep` | app/page.tsx:30 | a step keeps a rotation in [0, 360), adds 2 below 358 and wraps 358 and 359 round to 0 and 1 |
| `SplashScreen.RotationClosedForm` | app/page.tsx:13-31 | after k ticks from 0 the rotation is 2k mod 360 |
| `SplashScreen.RotationInRangeAndEven` | app/page.tsx:13-31 | the rotation stays in [0, 360) and is always even |
| `SplashScreen.RotationPeriod` | app/page.tsx:13-31 | the rotation is 0 exactly after a multiple of 180 ticks |

## Left out

- Rendering, CSS classes, icons, React hooks and effect ordering are left out. The `setInterval` timing and its clean-up on unmount are left out too. Effects are modelled as decisions that return a navigation.
- `handleEdit`, `handleViewDetails` and the `console.log` calls only log, so they are left out. `handleSubmit` of the permission editor is modelled as the submission it would make, because it saves nothing.
- `LoginModel.login` sends a network request. It is a parameter of `HandleLogin` that returns a value or throws, for the given credentials. Its own code is not part of this model.
- The forgot-password page, the dashboard page's tabs and logout button, the profile page and the login page's markup are not part of this model. The login page's redirect to "/" is used only in `SplashScreen.LoginLeadsBackToLogin`.
- `Text.Lower`: only ASCII `A`-`Z` are lower-cased. JavaScript's `toLowerCase` also folds other letters, such as `É`.
- `ChangePassword.Violations`: a string's length counts Unicode characters. JavaScript counts UTF-16 code units, so a character outside the Basic Multilingual Plane counts as 2 there.
- `ValidationSchema.LoginViolations`: the e-mail format check is the parameter `isEmail`. The validation library's own regular expression is not part of this model.
- The error message texts are left out. So is which message the form library shows when a field breaks several rules. The model gives the set of broken rules.
- Field "touched" and blur state are left out. So is the form library's own submit bookkeeping.
- Numbers are modelled as integers: counts, ids and the rotation. Fractional values and the precision of very long `parseInt` numerals are left out.
- `Auth.Logout`: the model always returns a push to /login. In the code, `logout` calls `useRouter()` at auth.tsx:8. Outside a component render that call throws after both keys are removed, so no navigation happens. The model does not capture that case.
- `Browser.Storage`: only one page's view of `localStorage` is modelled. Sharing it with other tabs is left out.
