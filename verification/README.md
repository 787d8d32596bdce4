# BitwiseBlog sign-up policy and route gating, in Dafny

BitwiseBlog is a single-page blog. Users sign up, sign in through a hosted
identity provider, read articles and, once signed in, write them. The app
owns two small pieces of decision logic, and this project models both and
proves their properties:

- **The sign-up page** (`src/auth/Signup.jsx`), in module `SignupForm`, with
  the password rule in module `PasswordPolicy`:
  - the form record and its change handler;
  - the validation schema. Both fields are required, the email must pass the
    format test, and the password must match the rule's regular expression;
  - the submit handler, which validates first and asks the provider to create
    the account only for a valid form;
  - the one-way loading flag that keeps the form hidden until the session is
    seen to be signed out.
- **The application shell** (`src/App.jsx`):
  - module `Routes` holds the route table, which is transcribed as data. It
    resolves a path against the table for a given session `status`, giving
    either a page or a redirect;
  - module `Auth` holds the auth-state callback, which dispatches `login` with
    the reported user or `logout` when there is none.

The password rule is modelled twice:
- `RegexMatches` reads the regular expression operator by operator, with
  JavaScript semantics: lookaheads, a `.` that stops at line terminators, and
  ASCII-only `\d`.
- `Acceptable` states the rule in plain words: at least 8 characters, only
  `A-Z a-z 0-9 @ $ ! % * ? &`, and at least one character from each of the
  four classes.

`RegexMeaning` proves the two agree. `CheckPassword` decides the rule in a
single scan.

The route table is also modelled twice. `Resolve` takes the first matching
route of the table. `Expected` describes the same behaviour case by case.
`Resolve`'s contract states that the two agree, proved route by route in
`FirstMatchIsExpected`, and the gate lemmas build on that.

Two things are parameters because their code is outside this repository:
- the email-format test (`isEmail`), which belongs to the validation library;
- account creation (`signup`), which belongs to the identity provider.

Files: `maybe.dfy` (`Maybe`, an optional value), `password.dfy`, `signup.dfy`,
`routes.dfy`, `auth.dfy`.

## Model

| member | source | states |
|---|---|---|
| PasswordPolicy.RegexMeaning | src/auth/Signup.jsx:19-21 | The password regular expression, transcribed operator by operator as `PasswordPolicy.RegexMatches` (this row covers that predicate), accepts exactly the strings with at least 8 characters, only allowed characters, and one lower-case letter, one upper-case letter, one ASCII digit and one of `@$!%*?&`. |
| PasswordPolicy.AcceptedShape | src/auth/Signup.jsx:20 | Every accepted password has length at least 8 and holds a character of each of the four required classes. |
| PasswordPolicy.ForeignCharRejects | src/auth/Signup.jsx:20 | A single character outside `[A-Za-z0-9@$!%*?&]` (a space, `#`, a newline) rejects the password, whatever else it contains. |
| PasswordPolicy.AppendKeepsAccepted | src/auth/Signup.jsx:20 | Appending an allowed character to an accepted password keeps it accepted. |
| PasswordPolicy.CheckPassword | src/auth/Signup.jsx:20 | A one-pass scan returns true exactly when the regular expression matches. |
| SignupForm.SamplePasswordAccepted | src/auth/Signup.jsx:20 | A concrete password (`Passw0rd!`) satisfies the rule. |
| SignupForm.HandleChange | src/auth/Signup.jsx:41-46 | A change event sets the field its input names to the new value and leaves the other field unchanged. A change from an input with any other name leaves both fields unchanged. |
| SignupForm.LastChangeWins | src/auth/Signup.jsx:41-46 | When one field is changed twice, the later value replaces the earlier one. |
| SignupForm.ChangesCommute | src/auth/Signup.jsx:41-46 | Changes to two different fields give the same record in either order. |
| SignupForm.ChangeToSameValue | src/auth/Signup.jsx:41-46 | Writing a field's current value back leaves the record unchanged. |
| SignupForm.Validate | src/auth/Signup.jsx:11-23 | Validation succeeds exactly when the email is non-empty and passes the format test and the password matches the rule. On success it returns the form unchanged. On failure it reports at least one message, and every message reported is one of the schema's four. |
| SignupForm.ValidationMessages | src/auth/Signup.jsx:11-23 | Each of the four messages is reported exactly when its condition holds. An empty email gives "Email is required". A non-empty malformed email gives the format message. An empty password gives "Password is required". A password that fails the rule gives "Enter a valid Password". |
| SignupForm.EmptyEmailRejected | src/auth/Signup.jsx:12-15 | An empty email fails validation with "Email is required" and gets no format complaint. |
| SignupForm.InitialFormRejected | src/auth/Signup.jsx:32-35 | Submitting the initial form, with both fields empty, reports both "Email is required" and "Password is required". Neither handler calls `signup`. |
| SignupForm.EmptyPasswordRejected | src/auth/Signup.jsx:16-18 | An empty password fails validation with "Password is required". |
| SignupForm.HandleSubmit | src/auth/Signup.jsx:54-73 | `signup` is called, with the form itself, exactly when validation succeeds. Navigation to `/login` happens exactly when `signup` returns a user, and it comes with the success toast. A missing user shows the "Something went wrong" toast. Validation failure shows one of the validation messages. A rejection shows its message. Every path shows a toast and nothing escapes (corrected catch block, see Findings). |
| SignupForm.HandleSubmitAsWritten | src/auth/Signup.jsx:54-73 | The handler as written also calls `signup`, with the form itself, exactly when validation succeeds. It navigates to `/login` exactly when `signup` returns a user, and shows one of the validation messages when validation fails. An error escapes, with no toast, exactly when the form is valid and `signup` rejects with an error that has no `errors` list. |
| SignupForm.CatchAsWritten | src/auth/Signup.jsx:69-72 | The catch block as written throws exactly when the error has no `errors` list. Otherwise it shows the first message, or the error's own message when that first entry is missing or empty. |
| SignupForm.Catch | src/auth/Signup.jsx:69-72 | The corrected catch block shows what the written one shows whenever the written one shows anything. For an error without an `errors` list, it shows the error's own message. |
| SignupForm.SubmitAgreesExceptOnProviderError | src/auth/Signup.jsx:54-73 | The handler as written and the corrected handler differ exactly when the form is valid and `signup` rejects with an error that has no `errors` list. |
| SignupForm.ProviderRejectionEscapes | src/auth/Signup.jsx:69-72 | A concrete input (valid form, provider rejection) where the handler as written shows no toast and lets an error escape, while the corrected handler shows the provider's message. |
| SignupForm.LoadingEffect | src/auth/Signup.jsx:48-50 | One run of the effect never sets the loading flag. It always clears the flag when `status` is falsy, and a truthy `status` leaves the flag as it was. |
| SignupForm.LoadingAfter | src/auth/Signup.jsx:31-50 | The loading flag after the effect has run on a series of statuses, starting from `true`. If it is still set, every status seen was truthy. |
| SignupForm.LoadingClearsOnFalsyStatus | src/auth/Signup.jsx:31-50 | Starting from `true`, the loading flag is cleared after a run of statuses exactly when one of them was falsy. |
| SignupForm.LoadingNeverReturns | src/auth/Signup.jsx:48-50 | Once the loading flag is cleared, it stays cleared whatever statuses follow. |
| SignupForm.FormShownAfterSignedOut | src/auth/Signup.jsx:75-82 | The form, not the spinner, is shown exactly when a falsy status has been seen. Before any status is seen, the spinner shows. |
| Routes.MatchSegments | src/App.jsx:43 | A pattern matches only paths of its own length: literal segments must be equal, and a dynamic segment such as `:id` needs a non-empty segment. |
| Routes.TableMatches | src/App.jsx:38-58 | Each route of the table matches exactly the path its `path` attribute names. `article/:id` binds `id` to the second segment, and `*` matches every path. |
| Routes.PatternsDisjoint | src/App.jsx:38-57 | Apart from `*`, no two routes match the same path, so first-match resolution picks the only candidate. |
| Routes.ListedMatchesTable | src/App.jsx:38-57 | A path is one of the listed paths exactly when some route other than `*` matches it. |
| Routes.FirstMatchIsExpected | src/App.jsx:36-58 | Trying the table's routes in order always finds a match, and the result agrees with the case-by-case description on every path and for either status. |
| Routes.Resolve | src/App.jsx:37-59 | A path and session status resolve to a rendered page or a redirect, and the result equals the case-by-case description. Redirects go only to `/` or `/login`, and only from `add-article`, `/login` or `/signup`. A redirect to `/login` happens exactly for `add-article` without a session. A rendered page sits inside the layout exactly when it is not LoginPage, Signup or NotFound. |
| Routes.AddArticleGate | src/App.jsx:44-47 | `add-article` renders AddArticles inside the layout when `status` is true, and otherwise redirects to `/login`. |
| Routes.LoginGate | src/App.jsx:49-52 | `/login` redirects to `/` when `status` is true, and otherwise renders LoginPage. |
| Routes.SignupGate | src/App.jsx:54-57 | `/signup` redirects to `/` when `status` is true, and otherwise renders Signup. |
| Routes.PublicPages | src/App.jsx:38-43 | `/`, `about`, `contact`, `articles` and `article/:id` render their page inside the layout for either status. The article page receives the segment as `id`. |
| Routes.NotFoundFallback | src/App.jsx:58 | A path resolves to NotFound exactly when no listed route accepts it. |
| Routes.NoRedirectLoop | src/App.jsx:38-57 | For either status, the target of any redirect resolves to a rendered page other than NotFound, never to another redirect. |
| Auth.OnAuthStateChanged | src/App.jsx:24-31 | The callback dispatches `login` exactly when a user is reported, and that `login` carries the reported user. Otherwise it dispatches `logout`. |
| Auth.CallbackSetsSession | src/App.jsx:24-31 | After the callback, once the store applies the assumed effect of `login` or `logout` (`Auth.Reduce`), the session holds exactly the reported user, and `status` is true exactly when a user was reported. |
| Auth.CallbackGatesRoutes | src/App.jsx:24-57 | After a `logout`, `add-article` redirects to `/login` and `/login` renders. After a `login`, `add-article` renders, and `/login` and `/signup` redirect to `/`. |

## Left out

- The markup, styling, spinner graphics, toast display and the password-visibility toggle are UI only. Toasts appear only as their kind and text.
- The second `password` state (`src/auth/Signup.jsx:29,135-136`) only feeds the input's displayed value. The submitted record is the one `handleChange` maintains.
- The Google sign-in button calls straight into the identity provider. There is no logic of the page's own to model.
- Account creation is the `signup` parameter. It resolves to a user or to nothing, or it rejects. The provider's behaviour is not modelled.
- The email-format test is the `isEmail` parameter. Its definition belongs to the validation library.
- SignupForm.Validate: lists messages in field-declaration order. The library's order is its own internal, and the contracts claim only which messages appear, not their order. So when validation fails, `HandleSubmit` only promises that the toast shows one of the messages.
- SignupForm.ValidationSummary reproduces the library's summary message only because the catch block can fall back to it. It is never shown when validation fails, because the first message is never empty.
- Auth.Reduce is the assumed effect of `login` and `logout` on the session store. The store's reducer is not part of this model.
- The callback is registered again on every render of the app, and the provider invokes it asynchronously. Subscription timing and repeated listeners are not modelled. Each invocation is one call of `OnAuthStateChanged`.
- The router's general matching is left out. A path is given as its list of segments. Splitting on `/`, trailing and duplicate slashes, case-insensitive matching and percent-decoding are not modelled, and segments compare exactly. An empty segment never binds `:id`.
- HomeLayout's own content is left out. A rendered page records only whether it sits inside that layout.
- `console.log` calls are not modelled.
- A change event from an input with another name would add an extra property to the record. The form has no such input, and the model keeps only the two fields.

## Findings

| source | as written | input that shows it | evidently intended | confidence | as-written member | corrected member |
|---|---|---|---|---|---|---|
| src/auth/Signup.jsx:69-72 | The catch block reads the first entry of the error's `errors` list without checking that the list exists. | A valid form whose account creation is rejected with an ordinary provider error. That error has a message but no `errors` list, so reading the first entry throws inside the catch block: no toast is shown and the error escapes the handler. | Show the first validation message when there is one, and otherwise the error's own message. | medium: not executed. Whether `signup` can reject depends on the provider wrapper, which is not part of this model. | SignupForm.ProviderRejectionEscapes | SignupForm.HandleSubmit |
