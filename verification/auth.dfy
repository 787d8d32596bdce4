/**
 * The session as the application sees it, and the callback it registers with
 * the identity provider: a signed-in user is dispatched as `login`, its
 * absence as `logout`. The session store's reducer is not part of this model;
 * `Reduce` states the effect the rest of the application relies on.
 */
module Auth {
  import opened Optional
  import Routes

  /** The provider's user object; only its identity matters here. */
  datatype User = User(uid: string)

  /** The store's `userState`: the `status` flag and the current user. */
  datatype Session = Session(status: bool, user: Maybe<User>)

  const SignedOut := Session(false, Nothing)

  /** The two actions the callback can dispatch. */
  datatype Action = Login(user: User) | Logout

  /** The auth-state callback: any user object is truthy, so a present user
      means `login` carrying that user and an absent one means `logout`. */
  function OnAuthStateChanged(user: Maybe<User>): (a: Action)
    ensures a.Login? <==> user.Just?
    ensures a.Login? ==> a.user == user.value
  {
    match user
    case Just(u) => Login(u)
    case Nothing => Logout
  }

  /** The assumed effect of the two actions on the session. */
  function Reduce(s: Session, a: Action): Session {
    match a
    case Login(u) => Session(true, Just(u))
    case Logout => SignedOut
  }

  /** A session is consistent when the flag says exactly whether a user is
      held. */
  predicate Consistent(s: Session) {
    s.status <==> s.user.Just?
  }

  /** After the callback fires, and the store has applied the assumed
      effect of its action, the session holds exactly the user it was given,
      its status says whether that user is present, and the result is
      consistent whatever the session was before. */
  lemma CallbackSetsSession(s: Session, user: Maybe<User>)
    ensures Reduce(s, OnAuthStateChanged(user)).user == user
    ensures Reduce(s, OnAuthStateChanged(user)).status <==> user.Just?
    ensures Consistent(Reduce(s, OnAuthStateChanged(user)))
  {
  }

  /** Tying the callback to the router: once the provider reports no user,
      `add-article` sends the visitor to the login page, which then renders;
      once it reports a user, `/login` and `/signup` send them home. */
  lemma CallbackGatesRoutes(s: Session, user: Maybe<User>)
    ensures var status := Reduce(s, OnAuthStateChanged(user)).status;
      && (user.Nothing? ==> Routes.Resolve(Routes.AddArticlePath, status) == Routes.Redirect(Routes.LoginPath))
      && (user.Nothing? ==> Routes.Resolve(Routes.LoginPath, status).Render?)
      && (user.Just? ==> Routes.Resolve(Routes.AddArticlePath, status).Render?)
      && (user.Just? ==> Routes.Resolve(Routes.LoginPath, status) == Routes.Redirect(Routes.Root))
      && (user.Just? ==> Routes.Resolve(Routes.SignupPath, status) == Routes.Redirect(Routes.Root))
  {
  }
}
