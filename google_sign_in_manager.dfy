/** `GoogleSignInManager` (GoogleSignInManager.swift): Google Sign-In followed by a Firebase sign-in
    with the Google ID and access tokens. */
module GoogleSignIn {
  import opened AuthTypes
  import FirebaseAuth

  /** `GIDSignInError.canceled.rawValue`, the code Google Sign-In reports when the user cancels. */
  const CANCELED_CODE: int := -5

  /** The parts of `GIDGoogleUser` the manager reads: `idToken?.tokenString` and `accessToken.tokenString`. */
  datatype GoogleUser = GoogleUser(idToken: Option<string>, accessToken: string)

  /** SDK calls: configuring `GIDSignIn.sharedInstance` with a client ID and starting sign-in with it. */
  datatype GoogleAction = SignInWithConfiguration(clientID: string)

  /** `user as! GoogleSignInUser`: the backend user is forwarded as it is. */
  function ForwardUser(user: User): (forwarded: User) {
    user
  }

  /** `signIn(completion:)` up to the SDK call. With no window scene, window or root view controller the
      completion is told `missingRootScreen`; with no Firebase client ID the call returns and the completion
      is never called; otherwise Google Sign-In starts with that client ID. */
  function SignIn(rootScreenPresent: bool, clientID: Option<string>): (effects: seq<Effect<User, GoogleAction>>)
    ensures Exchanges(effects) == []
    ensures !rootScreenPresent ==> effects == [Completed(Failure(Google(GoogleMissingRootScreen)))]
    ensures rootScreenPresent ==> Completions(effects) == []
    ensures rootScreenPresent && clientID.None? ==> effects == []
    ensures effects != [] && effects[0].Sdk? <==> rootScreenPresent && clientID.Some?
    ensures rootScreenPresent && clientID.Some? ==> effects == [Sdk(SignInWithConfiguration(clientID.value))]
  {
    if !rootScreenPresent then [Completed(Failure(Google(GoogleMissingRootScreen)))]
    else if clientID.None? then []
    else [Sdk(SignInWithConfiguration(clientID.value))]
  }

  /** The closure passed to `GIDSignIn.sharedInstance.signIn`, given its `result?.user` and `error`;
      `replies` are the Firebase sign-in handler's deliveries, used only when a credential is handed over. */
  function SignInCompletion(user: Option<GoogleUser>, error: Option<NSError>, replies: seq<Result<User, Error>>)
    : (effects: seq<Effect<User, GoogleAction>>)
    // an error ends the closure with one completion: `userCanceled` for the cancel code, else the error unchanged
    ensures error.Some? ==> effects == [Completed(Failure(
      if error.value.code == CANCELED_CODE then Google(GoogleUserCanceled) else Foreign(error.value)))]
    // a credential is handed over exactly when there is no error and a user with an ID token,
    // and it is built from that ID token and the user's access token
    ensures Exchanges(effects) != [] <==> error.None? && user.Some? && user.value.idToken.Some?
    ensures Exchanges(effects) != [] ==>
      Exchanges(effects) == [GoogleAuth(user.value.idToken.value, user.value.accessToken)] &&
      effects[0] == Exchanged(GoogleAuth(user.value.idToken.value, user.value.accessToken))
    // the closure starts no sign-in and signs nothing out: it only completes or hands a credential over
    ensures forall i :: 0 <= i < |effects| ==> effects[i].Completed? || effects[i].Exchanged?
    // with no error but no user or no ID token, the completion is never called
    ensures error.None? && Exchanges(effects) == [] ==> effects == []
    ensures Exchanges(effects) != [] ==>
      Completions(effects) == seq(|replies|, i requires 0 <= i < |replies| => Projected(replies[i], ForwardUser))
  {
    if error.Some? then
      if error.value.code == CANCELED_CODE then [Completed(Failure(Google(GoogleUserCanceled)))]
      else [Completed(Failure(Foreign(error.value)))]
    else if user.None? || user.value.idToken.None? then []
    else
      var credential := GoogleAuth(user.value.idToken.value, user.value.accessToken);
      var relayed: seq<Effect<User, GoogleAction>> := Relay(replies, ForwardUser);
      CompletionsAppend([Exchanged(credential)], relayed);
      ExchangesAppend([Exchanged(credential)], relayed);
      [Exchanged(credential)] + relayed
  }

  /** Wired to the concrete Firebase sign-in handler, the closure calls the completion at most once, and
      never exactly when there is no error and no user with an ID token. */
  lemma {:induction false} AtMostOneCompletion(user: Option<GoogleUser>, error: Option<NSError>,
                                               authError: Option<NSError>, authUser: Option<User>)
    ensures var effects := SignInCompletion(user, error, FirebaseAuth.SignInToFirebase(authError, authUser));
      |Completions(effects)| <= 1 &&
      (Completions(effects) == [] <==> error.None? && (user.None? || user.value.idToken.None?))
  {
    var effects := SignInCompletion(user, error, FirebaseAuth.SignInToFirebase(authError, authUser));
    if error.Some? {
      assert effects[1..] == [];
    }
  }

  /** Wired to the concrete Firebase sign-in handler, the completion hears `userCanceled` exactly when
      Google Sign-In reported an error with the cancel code; any other error reaches it unchanged. */
  lemma {:induction false} CancelMapping(user: Option<GoogleUser>, error: Option<NSError>,
                                         authError: Option<NSError>, authUser: Option<User>)
    ensures var effects := SignInCompletion(user, error, FirebaseAuth.SignInToFirebase(authError, authUser));
      (Completions(effects) == [Failure(Google(GoogleUserCanceled))] <==> error.Some? && error.value.code == CANCELED_CODE) &&
      (error.Some? && error.value.code != CANCELED_CODE ==> Completions(effects) == [Failure(Foreign(error.value))])
  {
    var replies := FirebaseAuth.SignInToFirebase(authError, authUser);
    var effects := SignInCompletion(user, error, replies);
    if error.Some? {
      assert effects[1..] == [];
      assert Completions(effects) == [effects[0].result];
    } else if Exchanges(effects) != [] {
      assert Completions(effects) == [Projected(replies[0], ForwardUser)];
    }
  }

  /** `signOut(completion:)`: the completion is called, with the error, only when the backend sign-out
      throws; a successful sign-out never calls it. */
  function SignOut(signOutError: Option<NSError>): (effects: seq<Effect<User, GoogleAction>>)
    ensures |effects| <= 1
    ensures effects == [] <==> signOutError.None?
    ensures forall i :: 0 <= i < |effects| ==> effects[i] == SignOutCompleted(Some(Foreign(signOutError.value)))
  {
    if signOutError.Some? then [SignOutCompleted(Some(Foreign(signOutError.value)))] else []
  }
}
