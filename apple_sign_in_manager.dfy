/** `AppleSignInManager` (AppleSignInManager.swift): Sign in with Apple, with the per-attempt state
    the manager keeps between starting a request and hearing back from the authorization controller. */
module AppleSignIn {
  import opened AuthTypes
  import opened NonceGenerator
  import FirebaseAuth

  /** `AppleSignInUser`. */
  datatype AppleSignInUser = AppleSignInUser(uid: string, name: Option<string>, email: Option<string>)

  /** `ASAuthorization.Scope`, the two scopes the manager asks for. */
  datatype Scope = FullName | Email

  /** The fields of `ASAuthorizationAppleIDRequest` the manager sets. */
  datatype AppleIDRequest = AppleIDRequest(requestedScopes: seq<Scope>, nonce: string)

  /** SDK calls: `performRequests()` on a controller built over `requests`. */
  datatype AppleAction = PerformRequests(requests: seq<AppleIDRequest>)

  /** The identity token's bytes, kept as their UTF-8 reading (`None` when they are not valid UTF-8). */
  datatype TokenData = TokenData(utf8Text: Option<string>)

  /** `authorization.credential`: an Apple ID credential, or a credential of any other kind. */
  datatype AuthorizationCredential =
    | AppleIDCredential(identityToken: Option<TokenData>)
    | OtherCredential

  /** A completion closure handed to `signIn`, known only by its identity. */
  type CompletionId = nat

  /** The scopes `createAppleIDRequest` asks for. */
  const REQUESTED_SCOPES: seq<Scope> := [FullName, Email]

  /** The user shape built on backend success. */
  function ToAppleUser(user: User): (signInUser: AppleSignInUser)
    ensures signInUser.uid == user.uid && signInUser.name == user.displayName && signInUser.email == user.email
  {
    AppleSignInUser(user.uid, user.displayName, user.email)
  }

  /** `signInToFirebase(credential:completion:)`: hands `credential` to the Firebase sign-in handler,
      whose deliveries are `replies`, and forwards each to the completion, users projected. */
  function SignInToFirebase(credential: Credential, replies: seq<Result<User, Error>>): (effects: seq<Effect<AppleSignInUser, AppleAction>>)
    ensures Exchanges(effects) == [credential]
    // the hand-off comes first, and nothing but completions follows it: no SDK call, no sign-out
    ensures |effects| > 0 && effects[0] == Exchanged(credential)
    ensures forall i :: 0 <= i < |effects| ==> effects[i].Completed? || effects[i].Exchanged?
    ensures |Completions(effects)| == |replies|
    ensures Completions(effects) == seq(|replies|, i requires 0 <= i < |replies| => Projected(replies[i], ToAppleUser))
    ensures forall i :: 0 <= i < |replies| ==>
      (replies[i].Success? ==> Completions(effects)[i] == Success(AppleSignInUser(replies[i].value.uid, replies[i].value.displayName, replies[i].value.email))) &&
      (replies[i].Failure? ==> Completions(effects)[i] == Failure(replies[i].error))
  {
    var relayed: seq<Effect<AppleSignInUser, AppleAction>> := Relay(replies, ToAppleUser);
    CompletionsAppend([Exchanged(credential)], relayed);
    ExchangesAppend([Exchanged(credential)], relayed);
    [Exchanged(credential)] + relayed
  }

  /** `signOut(completion:)`: the completion receives the backend's sign-out error, or nothing. */
  function SignOut(signOutError: Option<NSError>): (effects: seq<Effect<AppleSignInUser, AppleAction>>)
    ensures |effects| == 1 && effects[0].SignOutCompleted?
    ensures effects[0].signOutError.None? <==> signOutError.None?
    ensures signOutError.Some? ==> effects[0].signOutError == Some(Foreign(signOutError.value))
  {
    if signOutError.Some? then [SignOutCompleted(Some(Foreign(signOutError.value)))]
    else [SignOutCompleted(None)]
  }

  class AppleSignInManager {
    /** The nonce of the request in flight, if one was created. */
    var currentNonce: Option<string>
    /** The completion of the sign-in in flight, if one was started. */
    var completion: Option<CompletionId>

    /** A nonce is only ever created after a completion was stored, which is what makes
        the force-unwrap `completion!` in the delegate safe. */
    ghost predicate Valid()
      reads this
    {
      currentNonce.Some? ==> completion.Some?
    }

    constructor()
      ensures currentNonce == None && completion == None
      ensures Valid()
    {
      currentNonce := None;
      completion := None;
    }

    /** `signIn(completion:)`. With no window scene, window or root view controller the caller's completion
        is told `missingRootScreen` and nothing else happens; otherwise the completion is stored and one
        Apple ID request is performed. `stream` is what the secure random source delivers. */
    method SignIn(rootScreenPresent: bool, caller: CompletionId, stream: seq<UInt8>)
      returns (effects: seq<Effect<AppleSignInUser, AppleAction>>)
      requires Valid()
      requires rootScreenPresent ==> Sufficient(stream, 32)
      modifies this
      ensures Valid()
      ensures !rootScreenPresent ==>
        effects == [Completed(Failure(Apple(AppleMissingRootScreen)))] &&
        currentNonce == old(currentNonce) && completion == old(completion)
      ensures rootScreenPresent ==>
        completion == Some(caller) &&
        currentNonce == Some(Nonce(stream, 32)) && |currentNonce.value| == 32 &&
        effects == [Sdk(PerformRequests([AppleIDRequest(REQUESTED_SCOPES, currentNonce.value)]))]
    {
      if !rootScreenPresent {
        return [Completed(Failure(Apple(AppleMissingRootScreen)))];
      }
      completion := Some(caller);
      var request := CreateAppleIDRequest(stream);
      effects := [Sdk(PerformRequests([request]))];
    }

    /** `createAppleIDRequest()`: a request for the full name and e-mail carrying a fresh 32-character
        nonce, which is also remembered as the nonce in flight. */
    method CreateAppleIDRequest(stream: seq<UInt8>) returns (request: AppleIDRequest)
      requires completion.Some?
      requires Sufficient(stream, 32)
      modifies this`currentNonce
      ensures Valid()
      ensures currentNonce == Some(request.nonce)
      ensures request.requestedScopes == REQUESTED_SCOPES
      ensures request.nonce == Nonce(stream, 32) && |request.nonce| == 32
    {
      var nonce, _ := RandomNonceString(DEFAULT_LENGTH, stream);
      NonceLength(stream, DEFAULT_LENGTH);
      request := AppleIDRequest(REQUESTED_SCOPES, nonce);
      currentNonce := Some(request.nonce);
    }

    /** `completion?(result)`: invokes the stored completion, if there is one. */
    function Notify(result: Result<AppleSignInUser, Error>): (effects: seq<Effect<AppleSignInUser, AppleAction>>)
      reads this
      ensures Exchanges(effects) == []
      ensures forall i :: 0 <= i < |effects| ==> effects[i].Completed?
      ensures Completions(effects) == if completion.Some? then [result] else []
    {
      if completion.Some? then [Completed(result)] else []
    }

    /** `authorizationController(controller:didCompleteWithAuthorization:)`. `replies` are the Firebase
        sign-in handler's deliveries, used only when a credential is handed over. */
    function DidCompleteWithAuthorization(credential: AuthorizationCredential, replies: seq<Result<User, Error>>)
      : (effects: seq<Effect<AppleSignInUser, AppleAction>>)
      reads this
      requires Valid()
      // with no sign-in in flight nothing observable happens
      ensures completion.None? ==> effects == []
      // the delegate only completes or hands a credential over: it performs no request and signs nothing out
      ensures forall i :: 0 <= i < |effects| ==> effects[i].Completed? || effects[i].Exchanged?
      // a credential reaches Firebase exactly when it is an Apple ID credential, a nonce is in flight
      // and the identity token reads as UTF-8; it is built from that text and the nonce in flight
      ensures Exchanges(effects) != [] <==>
        credential.AppleIDCredential? && currentNonce.Some? &&
        credential.identityToken.Some? && credential.identityToken.value.utf8Text.Some?
      ensures Exchanges(effects) != [] ==>
        Exchanges(effects) == [AppleOAuth(credential.identityToken.value.utf8Text.value, currentNonce.value)] &&
        effects[0] == Exchanged(Exchanges(effects)[0])
      // otherwise the stored completion learns why, once
      ensures Exchanges(effects) == [] ==>
        Completions(effects) == if completion.None? then [] else
          [Failure(Apple(if credential.OtherCredential? then AppleAuthorizationFailed else AppleAuthenticationFailed))]
      // after a hand-off, the completion hears every reply of the Firebase sign-in handler
      ensures Exchanges(effects) != [] ==>
        Completions(effects) == seq(|replies|, i requires 0 <= i < |replies| => Projected(replies[i], ToAppleUser))
    {
      match credential
      case OtherCredential => Notify(Failure(Apple(AppleAuthorizationFailed)))
      case AppleIDCredential(token) =>
        if currentNonce.None? || token.None? || token.value.utf8Text.None? then
          Notify(Failure(Apple(AppleAuthenticationFailed)))
        else
          // `completion!` cannot trap: a nonce is in flight, so a completion is stored
          assert completion.Some?;
          SignInToFirebase(AppleOAuth(token.value.utf8Text.value, currentNonce.value), replies)
    }

    /** `authorizationController(controller:didCompleteWithError:)`: the provider's error reaches
        the stored completion unchanged, if there is one. */
    function DidCompleteWithError(error: Error): (effects: seq<Effect<AppleSignInUser, AppleAction>>)
      reads this
      ensures Exchanges(effects) == []
      ensures |Completions(effects)| == |effects| <= 1
      ensures |effects| == 1 <==> completion.Some?
      ensures forall i :: 0 <= i < |effects| ==> effects[i] == Completed(Failure(error))
    {
      Notify(Failure(error))
    }
  }

  /** Wired to the concrete Firebase sign-in handler, an authorization with a sign-in in flight reaches
      the completion exactly once; it carries the signed-in user exactly when a credential was handed
      over and the backend reported a user and no error. */
  lemma {:induction false} AuthorizationCompletesOnce(m: AppleSignInManager, credential: AuthorizationCredential,
                                                      authError: Option<NSError>, authUser: Option<User>)
    requires m.Valid() && m.completion.Some?
    ensures var effects := m.DidCompleteWithAuthorization(credential, FirebaseAuth.SignInToFirebase(authError, authUser));
      |Completions(effects)| == 1 &&
      (Completions(effects)[0].Success? <==> Exchanges(effects) != [] && authError.None? && authUser.Some?) &&
      (Completions(effects)[0].Success? ==> Completions(effects)[0].value == ToAppleUser(authUser.value))
  {
    var replies := FirebaseAuth.SignInToFirebase(authError, authUser);
    var effects := m.DidCompleteWithAuthorization(credential, replies);
    if Exchanges(effects) != [] {
      assert Completions(effects) == [Projected(replies[0], ToAppleUser)];
    }
  }

  /** A whole attempt: `signIn` with a root screen, then the controller authorizes with an Apple ID credential
      whose identity token reads as `tokenText`. `started` is what `signIn` did and `request` the request it
      performed. The credential handed to Firebase carries exactly the nonce attached to that request, drawn
      from the random stream, and the completion given to `signIn` hears the handler. */
  method SignInAndAuthorize(m: AppleSignInManager, caller: CompletionId, stream: seq<UInt8>, tokenText: string,
                            replies: seq<Result<User, Error>>)
    returns (started: seq<Effect<AppleSignInUser, AppleAction>>, request: AppleIDRequest,
             effects: seq<Effect<AppleSignInUser, AppleAction>>)
    requires m.Valid() && Sufficient(stream, 32)
    modifies m
    ensures m.Valid() && m.completion == Some(caller)
    ensures started == [Sdk(PerformRequests([request]))]
    ensures request.requestedScopes == REQUESTED_SCOPES
    ensures request.nonce == Nonce(stream, 32) && |request.nonce| == 32
    ensures m.currentNonce == Some(request.nonce)
    ensures Exchanges(effects) == [AppleOAuth(tokenText, request.nonce)]
    ensures Completions(effects) == seq(|replies|, i requires 0 <= i < |replies| => Projected(replies[i], ToAppleUser))
  {
    started := m.SignIn(true, caller, stream);
    request := started[0].action.requests[0];
    effects := m.DidCompleteWithAuthorization(AppleIDCredential(Some(TokenData(Some(tokenText)))), replies);
  }
}
