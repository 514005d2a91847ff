/** `FirebaseSignInHandler` (FirebaseAuthManager.swift): the shared step that signs a provider
    credential in to Firebase and classifies what the backend answered. */
module FirebaseAuth {
  import opened AuthTypes

  /** The error synthesized when the backend reports neither an error nor a user. */
  const AUTHENTICATION_FAILED: NSError := NSError("FirebaseAuth", -1, "Authentication failed.")

  /** The completion invocations made by the callback that `signInToFirebase(with:completion:)`
      passes to `Auth.auth().signIn(with:)`, given the backend's `error` and `authResult?.user`.
      The credential itself only reaches the backend, so it is not a parameter here. */
  function SignInToFirebase(authError: Option<NSError>, authUser: Option<User>): (replies: seq<Result<User, Error>>)
    // the completion is called exactly once on every path
    ensures |replies| == 1
    // a backend error is delivered unchanged and wins even when a user is present as well
    ensures authError.Some? ==> replies[0] == Failure(Foreign(authError.value))
    // neither an error nor a user: the synthesized error
    ensures authError.None? && authUser.None? ==>
      replies[0] == Failure(Foreign(NSError("FirebaseAuth", -1, "Authentication failed.")))
    // success exactly when there is no error and a user, and then it is that user
    ensures replies[0].Success? <==> authError.None? && authUser.Some?
    ensures replies[0].Success? ==> replies[0].value == authUser.value
    // every failure the handler reports is a backend (NSError) failure
    ensures replies[0].Failure? ==> replies[0].error.Foreign?
  {
    if authError.Some? then [Failure(Foreign(authError.value))]
    else if authUser.None? then [Failure(Foreign(AUTHENTICATION_FAILED))]
    else [Success(authUser.value)]
  }

  /** What a provider manager's closure makes of the handler's replies never contains a
      provider's own error kind: only users and backend errors come out of the handler. */
  lemma {:induction false} RelayedFailuresAreForeign<U, A>(authError: Option<NSError>, authUser: Option<User>, project: User -> U)
    ensures var effects: seq<Effect<U, A>> := Relay(SignInToFirebase(authError, authUser), project);
      |Completions(effects)| == 1 &&
      (Completions(effects)[0].Failure? ==> Completions(effects)[0].error.Foreign?) &&
      (Completions(effects)[0].Success? <==> authError.None? && authUser.Some?) &&
      (Completions(effects)[0].Success? ==> Completions(effects)[0].value == project(authUser.value))
  {
    var replies := SignInToFirebase(authError, authUser);
    var effects: seq<Effect<U, A>> := Relay(replies, project);
    assert Completions(effects) == [Projected(replies[0], project)];
  }
}
