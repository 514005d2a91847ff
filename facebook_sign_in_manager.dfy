/** `FacebookSignInManager` (FacebookSignInManager.swift): Facebook Login followed by a Firebase sign-in
    with the Facebook access token. */
module FacebookSignIn {
  import opened AuthTypes
  import FirebaseAuth

  /** `FacebookSignInUser`; the profile image URL is kept as its string. */
  datatype FacebookSignInUser = FacebookSignInUser(uid: string, name: Option<string>, email: Option<string>,
                                                   profileImageURL: Option<string>)

  /** The part of Facebook's `AccessToken` the manager reads. */
  datatype AccessToken = AccessToken(tokenString: string)

  /** The parts of `LoginManagerLoginResult` the manager reads. */
  datatype LoginResult = LoginResult(isCancelled: bool, token: Option<AccessToken>)

  /** SDK calls: `loginManager.logIn(permissions:from:)` and `loginManager.logOut()`. */
  datatype FacebookAction = LogIn(permissions: seq<string>) | LogOut

  /** The permissions the manager asks Facebook Login for. */
  const PERMISSIONS: seq<string> := ["public_profile", "email"]

  /** The user shape built on backend success. */
  function ToFacebookUser(user: User): (signInUser: FacebookSignInUser)
    ensures signInUser.uid == user.uid && signInUser.name == user.displayName
    ensures signInUser.email == user.email && signInUser.profileImageURL == user.photoURL
  {
    FacebookSignInUser(user.uid, user.displayName, user.email, user.photoURL)
  }

  /** `signIn(completion:)` up to the SDK call: with no window scene, window or root view controller the
      completion is told `missingRootScreen` and Facebook Login is not started. */
  function SignIn(rootScreenPresent: bool): (effects: seq<Effect<FacebookSignInUser, FacebookAction>>)
    ensures |effects| == 1
    ensures effects[0].Completed? <==> !rootScreenPresent
    ensures !rootScreenPresent ==> Completions(effects) == [Failure(Facebook(FacebookMissingRootScreen))]
    ensures rootScreenPresent ==> effects[0] == Sdk(LogIn(["public_profile", "email"]))
  {
    if !rootScreenPresent then [Completed(Failure(Facebook(FacebookMissingRootScreen)))]
    else [Sdk(LogIn(PERMISSIONS))]
  }

  /** `signInToFirebase(accessToken:completion:)`: hands a Facebook credential built from `accessToken` to the
      Firebase sign-in handler, whose deliveries are `replies`, and forwards each, users projected. */
  function SignInToFirebase(accessToken: string, replies: seq<Result<User, Error>>)
    : (effects: seq<Effect<FacebookSignInUser, FacebookAction>>)
    ensures Exchanges(effects) == [FacebookAuth(accessToken)]
    // the hand-off comes first, and nothing but completions follows it: no SDK call, no sign-out
    ensures |effects| > 0 && effects[0] == Exchanged(FacebookAuth(accessToken))
    ensures forall i :: 0 <= i < |effects| ==> effects[i].Completed? || effects[i].Exchanged?
    ensures Completions(effects) == seq(|replies|, i requires 0 <= i < |replies| => Projected(replies[i], ToFacebookUser))
  {
    var relayed: seq<Effect<FacebookSignInUser, FacebookAction>> := Relay(replies, ToFacebookUser);
    CompletionsAppend([Exchanged(FacebookAuth(accessToken))], relayed);
    ExchangesAppend([Exchanged(FacebookAuth(accessToken))], relayed);
    [Exchanged(FacebookAuth(accessToken))] + relayed
  }

  /** Whether `loginResult?.isCancelled ?? false` holds. */
  predicate Cancelled(loginResult: Option<LoginResult>) {
    loginResult.Some? && loginResult.value.isCancelled
  }

  /** The closure passed to `logIn`, given `loginResult` and `error`. Its three checks are independent:
      an error does not end it, so a cancelled or token-bearing result still goes on to its own step. */
  function LoginCompletion(loginResult: Option<LoginResult>, error: Option<NSError>, replies: seq<Result<User, Error>>)
    : (effects: seq<Effect<FacebookSignInUser, FacebookAction>>)
    // the completion hears, in order: the error unchanged if there is one, then `userCanceled` if the
    // result is cancelled, then every reply of the Firebase handler if the result carries a token
    ensures Completions(effects) ==
      (if error.Some? then [Failure(Foreign(error.value))] else []) +
      (if Cancelled(loginResult) then [Failure(Facebook(FacebookUserCanceled))] else []) +
      (if loginResult.Some? && loginResult.value.token.Some?
       then seq(|replies|, i requires 0 <= i < |replies| => Projected(replies[i], ToFacebookUser))
       else [])
    // a credential reaches Firebase exactly when the result carries a token, and it is built from that token
    ensures Exchanges(effects) ==
      if loginResult.Some? && loginResult.value.token.Some?
      then [FacebookAuth(loginResult.value.token.value.tokenString)] else []
    // the closure neither calls the SDK nor signs out: it only completes or hands a credential over
    ensures forall i :: 0 <= i < |effects| ==> effects[i].Completed? || effects[i].Exchanged?
    // the hand-off comes right after the error and cancellation completions
    ensures loginResult.Some? && loginResult.value.token.Some? ==>
      var n := (if error.Some? then 1 else 0) + (if Cancelled(loginResult) then 1 else 0);
      n < |effects| && effects[n] == Exchanged(FacebookAuth(loginResult.value.token.value.tokenString))
  {
    var e: seq<Effect<FacebookSignInUser, FacebookAction>> :=
      if error.Some? then [Completed(Failure(Foreign(error.value)))] else [];
    var c: seq<Effect<FacebookSignInUser, FacebookAction>> :=
      if Cancelled(loginResult) then [Completed(Failure(Facebook(FacebookUserCanceled)))] else [];
    var t: seq<Effect<FacebookSignInUser, FacebookAction>> :=
      if loginResult.Some? && loginResult.value.token.Some?
      then SignInToFirebase(loginResult.value.token.value.tokenString, replies) else [];
    AtMostOne(e);
    AtMostOne(c);
    JoinThree(e, c, t);
    e + c + t
  }

  /** Wired to the concrete Firebase sign-in handler, the login closure calls the completion once for an
      error, once for a cancellation and once for a token; nothing bounds it to a single call. */
  lemma CompletionCount(loginResult: Option<LoginResult>, error: Option<NSError>,
                        authError: Option<NSError>, authUser: Option<User>)
    ensures |Completions(LoginCompletion(loginResult, error, FirebaseAuth.SignInToFirebase(authError, authUser)))| ==
      (if error.Some? then 1 else 0) + (if Cancelled(loginResult) then 1 else 0) +
      (if loginResult.Some? && loginResult.value.token.Some? then 1 else 0)
  {
  }

  /** A result that is cancelled and carries a token, delivered with an error, calls the completion three
      times: first with the error, then with `userCanceled`, then with what Firebase answered. */
  lemma ThreeCompletions(token: string, error: NSError, user: User)
    ensures Completions(LoginCompletion(Some(LoginResult(true, Some(AccessToken(token)))), Some(error),
                                        FirebaseAuth.SignInToFirebase(None, Some(user))))
      == [Failure(Foreign(error)), Failure(Facebook(FacebookUserCanceled)), Success(ToFacebookUser(user))]
  {
  }

  /** `signOut(completion:)`: if the backend sign-out throws, the completion receives the error and Facebook
      is not logged out; otherwise Facebook is logged out and then the completion receives `nil`. */
  function SignOut(signOutError: Option<NSError>): (effects: seq<Effect<FacebookSignInUser, FacebookAction>>)
    ensures Completions(effects) == [] && Exchanges(effects) == []
    ensures |effects| == if signOutError.Some? then 1 else 2
    ensures Sdk(LogOut) in effects <==> signOutError.None?
    ensures |effects| > 0 && effects[|effects| - 1].SignOutCompleted?
    ensures forall i :: 0 <= i < |effects| - 1 ==> !effects[i].SignOutCompleted?
    ensures effects[|effects| - 1].signOutError ==
      if signOutError.Some? then Some(Foreign(signOutError.value)) else None
  {
    if signOutError.Some? then [SignOutCompleted(Some(Foreign(signOutError.value)))]
    else [Sdk(LogOut), SignOutCompleted(None)]
  }
}
