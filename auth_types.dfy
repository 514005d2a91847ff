/** Values shared by the Firebase sign-in handler and the three provider managers:
    optional values and results, the errors that reach a completion, the Firebase user,
    the provider credentials handed to Firebase, and the effects a sign-in step has. */
module AuthTypes {

  datatype Option<+T> = None | Some(value: T)

  /** Swift's `Result<Success, Failure>`. */
  datatype Result<+T, +E> = Success(value: T) | Failure(error: E)

  /** An error raised by an SDK or by the Firebase backend, as `NSError` exposes it. */
  datatype NSError = NSError(domain: string, code: int, description: string)

  /** `AppleSignInError` (AppleSignInManager.swift). */
  datatype AppleSignInError = AppleMissingRootScreen | AppleAuthorizationFailed | AppleAuthenticationFailed

  /** `FacebookSignInError` (FacebookSignInManager.swift). */
  datatype FacebookSignInError = FacebookMissingRootScreen | FacebookUserCanceled | FacebookAuthenticationFailed

  /** `GoogleSignInError` (GoogleSignInManager.swift). */
  datatype GoogleSignInError = GoogleMissingRootScreen | GoogleUserCanceled

  /** Any value of Swift's `Error` existential that reaches a completion: one of the
      managers' own error kinds, or an SDK/backend error passed through unchanged. */
  datatype Error =
    | Apple(apple: AppleSignInError)
    | Facebook(facebook: FacebookSignInError)
    | Google(google: GoogleSignInError)
    | Foreign(ns: NSError)

  /** The fields of Firebase's `User` that the managers read. */
  datatype User = User(uid: string, displayName: Option<string>, email: Option<string>, photoURL: Option<string>)

  /** A provider credential for Firebase, kept as the record of the strings it is built from. */
  datatype Credential =
    | AppleOAuth(idToken: string, rawNonce: string)
    | GoogleAuth(idToken: string, accessToken: string)
    | FacebookAuth(accessToken: string)

  /** One observable effect of a sign-in step, in the order it happens:
      the sign-in completion is invoked, the sign-out completion is invoked,
      a credential is handed to the Firebase sign-in handler, or a provider SDK call of kind `A` is made. */
  datatype Effect<U, A> =
    | Completed(result: Result<U, Error>)
    | SignOutCompleted(signOutError: Option<Error>)
    | Exchanged(credential: Credential)
    | Sdk(action: A)

  /** The argument of `effect` if it is a sign-in completion invocation. */
  function CompletionOf<U, A>(effect: Effect<U, A>): (results: seq<Result<U, Error>>) {
    if effect.Completed? then [effect.result] else []
  }

  /** The arguments of every sign-in completion invocation among `effects`, in order. */
  function Completions<U, A>(effects: seq<Effect<U, A>>): (results: seq<Result<U, Error>>)
    ensures |results| <= |effects|
  {
    if |effects| == 0 then [] else CompletionOf(effects[0]) + Completions(effects[1..])
  }

  lemma {:induction false} CompletionsAppend<U, A>(a: seq<Effect<U, A>>, b: seq<Effect<U, A>>)
    ensures Completions(a + b) == Completions(a) + Completions(b)
    decreases |a|
  {
    if |a| == 0 {
      assert a + b == b;
    } else {
      var ab := a + b;
      assert ab[0] == a[0];
      assert ab[1..] == a[1..] + b;
      CompletionsAppend(a[1..], b);
      assert Completions(ab) == CompletionOf(a[0]) + (Completions(a[1..]) + Completions(b));
    }
  }

  /** The credential of `effect` if it hands one to the Firebase sign-in handler. */
  function ExchangeOf<U, A>(effect: Effect<U, A>): (credentials: seq<Credential>) {
    if effect.Exchanged? then [effect.credential] else []
  }

  /** The credentials handed to the Firebase sign-in handler among `effects`, in order. */
  function Exchanges<U, A>(effects: seq<Effect<U, A>>): (credentials: seq<Credential>)
    ensures |credentials| <= |effects|
  {
    if |effects| == 0 then [] else ExchangeOf(effects[0]) + Exchanges(effects[1..])
  }

  lemma {:induction false} ExchangesAppend<U, A>(a: seq<Effect<U, A>>, b: seq<Effect<U, A>>)
    ensures Exchanges(a + b) == Exchanges(a) + Exchanges(b)
    decreases |a|
  {
    if |a| == 0 {
      assert a + b == b;
    } else {
      var ab := a + b;
      assert ab[0] == a[0];
      assert ab[1..] == a[1..] + b;
      ExchangesAppend(a[1..], b);
      assert Exchanges(ab) == ExchangeOf(a[0]) + (Exchanges(a[1..]) + Exchanges(b));
    }
  }

  /** Two runs of effects that only complete or hand a credential over, joined, still only do that. */
  lemma CompletesOrExchangesAppend<U, A>(a: seq<Effect<U, A>>, b: seq<Effect<U, A>>)
    requires forall i :: 0 <= i < |a| ==> a[i].Completed? || a[i].Exchanged?
    requires forall i :: 0 <= i < |b| ==> b[i].Completed? || b[i].Exchanged?
    ensures forall i :: 0 <= i < |a + b| ==> (a + b)[i].Completed? || (a + b)[i].Exchanged?
  {
    forall i | 0 <= i < |a + b|
      ensures (a + b)[i].Completed? || (a + b)[i].Exchanged?
    {
      if i >= |a| {
        assert (a + b)[i] == b[i - |a|];
      }
    }
  }

  /** What three runs of effects, joined in order, complete and hand over, and where the third run starts. */
  lemma JoinThree<U, A>(a: seq<Effect<U, A>>, b: seq<Effect<U, A>>, c: seq<Effect<U, A>>)
    requires forall i :: 0 <= i < |a| ==> a[i].Completed? || a[i].Exchanged?
    requires forall i :: 0 <= i < |b| ==> b[i].Completed? || b[i].Exchanged?
    requires forall i :: 0 <= i < |c| ==> c[i].Completed? || c[i].Exchanged?
    ensures Completions(a + b + c) == Completions(a) + Completions(b) + Completions(c)
    ensures Exchanges(a + b + c) == Exchanges(a) + Exchanges(b) + Exchanges(c)
    ensures forall i :: 0 <= i < |a + b + c| ==> (a + b + c)[i].Completed? || (a + b + c)[i].Exchanged?
    ensures c != [] ==> (a + b + c)[|a| + |b|] == c[0]
  {
    CompletionsAppend(a, b);
    CompletionsAppend(a + b, c);
    ExchangesAppend(a, b);
    ExchangesAppend(a + b, c);
    CompletesOrExchangesAppend(a, b);
    CompletesOrExchangesAppend(a + b, c);
  }

  /** An empty or one-element run of effects contributes its element's completion argument and credential, if any. */
  lemma AtMostOne<U, A>(effects: seq<Effect<U, A>>)
    requires |effects| <= 1
    ensures Completions(effects) == if |effects| == 0 then [] else CompletionOf(effects[0])
    ensures Exchanges(effects) == if |effects| == 0 then [] else ExchangeOf(effects[0])
  {
    if |effects| == 1 {
      assert effects[1..] == [];
    }
  }

  /** A reply of the Firebase sign-in handler, with the user projected into a manager's own user shape;
      errors are passed through unchanged. */
  function Projected<U>(reply: Result<User, Error>, project: User -> U): (result: Result<U, Error>)
  {
    match reply
    case Success(user) => Success(project(user))
    case Failure(e) => Failure(e)
  }

  /** What a manager's closure passed to the Firebase sign-in handler does with the handler's replies:
      one completion invocation per reply. */
  function Relay<U, A>(replies: seq<Result<User, Error>>, project: User -> U): (effects: seq<Effect<U, A>>)
    ensures |effects| == |replies|
    ensures forall i :: 0 <= i < |replies| ==> effects[i] == Completed(Projected(replies[i], project))
    ensures Completions(effects) == seq(|replies|, i requires 0 <= i < |replies| => Projected(replies[i], project))
    ensures Exchanges(effects) == []
  {
    if replies == [] then []
    else [Completed(Projected(replies[0], project))] + Relay(replies[1..], project)
  }
}
