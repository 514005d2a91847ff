# Federated sign-in managers, modelled in Dafny

The repository puts one provider-agnostic sign-in interface in front of three identity providers:
Apple, Facebook and Google. Each provider manager obtains a provider credential and exchanges it for a
Firebase user through a shared Firebase sign-in handler. It then reports the outcome to the caller's
completion in the provider's own user shape.

This model covers:

- **The nonce generator** (`randomNonceString`, module `NonceGenerator`). It is imperative: a `while`
  loop draws 16 random bytes at a time and keeps, by rejection sampling, each byte below 64. Each kept
  byte indexes the 64-character alphabet `0-9`, `A-Z` without `W`, `a-z`, `-._`. The loop stops after
  exactly `length` characters. The secure random source is an input byte stream.
  - `RandomNonceString` is proved equal to the specification `Nonce(stream, L)`: the first `L` accepted
    bytes, mapped in order.
  - Lemmas prove the exact length, the alphabet (no `W`), that no modulo is taken, and that the mapping
    is one-to-one.
- **The Firebase sign-in handler** (module `FirebaseAuth`). It classifies the backend's
  `(error?, user?)` answer into exactly one completion call.
- **The Apple manager** (module `AppleSignIn`). It is a class with the per-attempt state
  `currentNonce` and `completion`. `signIn` and `createAppleIDRequest` write that state, and the two
  delegate callbacks read it. The invariant `Valid()` holds that a nonce is only stored after a
  completion. It is what makes the force-unwrap `completion!` safe, and it is proved.
- **The Facebook and Google managers** (modules `FacebookSignIn`, `GoogleSignIn`). They are pure
  functions over the callbacks' inputs.

Every callback returns the sequence of its observable effects, in order. An effect is one of:

- a completion invocation (`Completed`);
- a sign-out completion (`SignOutCompleted`);
- a credential handed to the Firebase sign-in handler (`Exchanged`);
- an SDK call (`Sdk`).

`Completions` and `Exchanges` project these sequences. The Firebase handler is injected into each
manager, so its deliveries are a parameter `replies`. Lemmas then connect each manager to the concrete
handler `FirebaseAuth.SignInToFirebase`. The results they show:

- the Apple delegate completes exactly once;
- the Google callback completes at most once, and zero times on the silent paths;
- the Facebook login callback can complete up to three times.

## Model

| member | source | states |
|---|---|---|
| `NonceGenerator.CharsetAt` | AppleSignInManager.swift:100-101 | entry `b` of the alphabet, for every accepted byte `b`, is the character of its run (digits, upper case without `W`, lower case, `-._`) |
| `NonceGenerator.Accepted` | AppleSignInManager.swift:120 | the bytes kept from a stream are all below 64 and are no more than the bytes drawn |
| `NonceGenerator.AcceptedMembership` | AppleSignInManager.swift:120 | a byte is kept if and only if it occurs in the stream and is below the alphabet size; nothing is reduced modulo |
| `NonceGenerator.Take` | AppleSignInManager.swift:116-118 | once `length` characters exist nothing more is appended: the result is a prefix of exactly the smaller of `n` and the length of `s` elements |
| `NonceGenerator.Encode` | AppleSignInManager.swift:121 | one character per accepted byte |
| `NonceGenerator.EncodeAt` | AppleSignInManager.swift:121 | character `i` of the encoding is `charset[b]` for the `i`-th accepted byte `b` |
| `NonceGenerator.RandomNonceString` | AppleSignInManager.swift:99-128 | the result equals the first `length` accepted bytes of the stream, mapped in order; bytes are drawn in whole batches of 16, and the last batch drawn was needed (the batches before it held fewer than `length` accepted bytes); nothing is drawn for `length <= 0` |
| `NonceGenerator.AppendAccepted` | AppleSignInManager.swift:115-124 | one batch appends the characters of its first `remainingLength` accepted bytes; `remainingLength` falls by one per appended character and never goes below 0 |
| `NonceGenerator.AlphabetIndexInverse` | AppleSignInManager.swift:101 | the alphabet's characters are distinct: `AlphabetIndex` maps each back to its position |
| `NonceGenerator.NonceAlphabet` | AppleSignInManager.swift:100-121 | every nonce character is in the alphabet; `W` never occurs |
| `NonceGenerator.NonceLength` | AppleSignInManager.swift:103-127 | with at least `length` acceptable bytes available, the nonce has exactly `length` characters (0 for a non-positive length) |
| `NonceGenerator.NonceCharacters` | AppleSignInManager.swift:120-123 | nonce character `i` is the alphabet entry of the `i`-th accepted byte of the stream |
| `NonceGenerator.NonceDecodes` | AppleSignInManager.swift:120-123 | each nonce character maps back to the accepted byte it came from |
| `NonceGenerator.EncodeInjective` | AppleSignInManager.swift:120-121 | distinct accepted byte sequences give distinct strings |
| `FirebaseAuth.SignInToFirebase` | FirebaseAuthManager.swift:19-33 | exactly one completion call; a backend error is passed through unchanged and wins over a user; no error and no user gives the error with domain "FirebaseAuth", code -1 and description "Authentication failed."; success if and only if there is no error and a user, and then it carries that user |
| `FirebaseAuth.RelayedFailuresAreForeign` | FirebaseAuthManager.swift:20-32 | a manager closure wired to the handler completes exactly once; every failure it reports is a backend error, and success carries the projected user |
| `AppleSignIn.ToAppleUser` | AppleSignInManager.swift:85-90 | uid, display name and e-mail are copied unchanged |
| `AppleSignIn.SignInToFirebase` | AppleSignInManager.swift:82-96 | the credential is handed over once, before anything else; after it come only completion calls, one per handler reply: success as `AppleSignInUser(uid, displayName, email)` and failure unchanged; no SDK call and no sign-out |
| `AppleSignIn.SignOut` | AppleSignInManager.swift:72-79 | exactly one sign-out completion call; it carries the backend error unchanged, or nil on success |
| `AppleSignIn.AppleSignInManager.constructor` | AppleSignInManager.swift:35-42 | no nonce and no completion are stored at first |
| `AppleSignIn.AppleSignInManager.SignIn` | AppleSignInManager.swift:45-59 | with no root screen, the caller's completion gets `missingRootScreen` once, no request is made and the state is unchanged; otherwise the completion is stored and one request is performed, with scopes full name and e-mail and a 32-character nonce, which is also stored as `currentNonce`; `Valid` is preserved |
| `AppleSignIn.AppleSignInManager.CreateAppleIDRequest` | AppleSignInManager.swift:62-69 | `currentNonce` equals the nonce attached to the request; the request asks for full name and e-mail, and its nonce is the 32-character `Nonce` of the random stream |
| `AppleSignIn.AppleSignInManager.Notify` | AppleSignInManager.swift:135 | the stored completion, if any, is called once with the result; nothing else happens, and nothing at all without a stored completion |
| `AppleSignIn.AppleSignInManager.DidCompleteWithAuthorization` | AppleSignInManager.swift:133-148 | with no sign-in in flight nothing happens. A credential reaches Firebase if and only if it is an Apple ID credential, a nonce exists and the identity token reads as UTF-8; it is built from that text and `currentNonce`. Otherwise the completion gets `authorizationFailed` for a non-Apple-ID credential, else `authenticationFailed`. After a hand-off, which comes first, each handler reply reaches the completion. The delegate only completes or hands over: it performs no new request and signs nothing out. `completion!` never traps |
| `AppleSignIn.AppleSignInManager.DidCompleteWithError` | AppleSignInManager.swift:150-152 | the provider error reaches the stored completion unchanged, exactly once if a completion is stored and never otherwise |
| `AppleSignIn.AuthorizationCompletesOnce` | AppleSignInManager.swift:133-147 | wired to the concrete Firebase handler, with a completion stored, the delegate completes exactly once; it succeeds if and only if a credential was handed over and the backend returned a user and no error, and the user is the backend user projected |
| `AppleSignIn.SignInAndAuthorize` | AppleSignInManager.swift:53-147 | over a whole attempt, `signIn` performs exactly one request, with scopes full name and e-mail and the 32-character `Nonce` of the random stream; that nonce is stored as `currentNonce`; the credential handed to Firebase carries exactly that nonce and the token text; the completion given to `signIn` hears every handler reply |
| `FacebookSignIn.ToFacebookUser` | FacebookSignInManager.swift:71 | uid, display name, e-mail and photo URL are copied unchanged |
| `FacebookSignIn.SignIn` | FacebookSignInManager.swift:45-52 | with no root screen, the completion gets `missingRootScreen` once and Facebook Login is not started; otherwise `logIn` is called with exactly the permissions `public_profile` and `email` |
| `FacebookSignIn.SignInToFirebase` | FacebookSignInManager.swift:66-77 | a Facebook credential built from the access token string is handed over once, before anything else; after it come only completion calls, one per handler reply, success projected and failure unchanged; no SDK call and no sign-out |
| `FacebookSignIn.LoginCompletion` | FacebookSignInManager.swift:52-63 | the login closure's completion calls, in order, are: the error unchanged if there is one; then `userCanceled` if the result is cancelled (a missing result counts as not cancelled); then every handler reply if the result has a token. A credential is handed over if and only if there is a token, right after the error and cancellation completions. The closure makes no SDK call and no sign-out |
| `FacebookSignIn.CompletionCount` | FacebookSignInManager.swift:53-62 | wired to the concrete handler, the completion is called once per present error, cancellation and token: up to three times |
| `FacebookSignIn.ThreeCompletions` | FacebookSignInManager.swift:53-62 | an error with a cancelled, token-bearing result calls the completion three times: the error, `userCanceled`, then the Firebase user |
| `FacebookSignIn.SignOut` | FacebookSignInManager.swift:79-88 | if the backend sign-out throws, the only effect is the sign-out completion with the error unchanged, and `logOut` is not called; otherwise there are exactly two effects: `logOut`, then the sign-out completion with nil |
| `GoogleSignIn.SignIn` | GoogleSignInManager.swift:36-49 | with no root screen, the only effect is the `missingRootScreen` completion; with no client ID there is no effect at all; otherwise the only effect is starting Google Sign-In with that client ID |
| `GoogleSignIn.SignInCompletion` | GoogleSignInManager.swift:49-75 | an error ends the callback with one completion: `userCanceled` for the cancel code, otherwise the error unchanged. A credential is handed over if and only if there is no error and a user with an ID token, and it is built from the ID token and the access token. Otherwise nothing happens. After a hand-off, which comes first, each handler reply reaches the completion. The callback starts no new sign-in and signs nothing out |
| `GoogleSignIn.AtMostOneCompletion` | GoogleSignInManager.swift:50-74 | wired to the concrete handler, the callback completes at most once; it completes zero times if and only if there is no error and no user with an ID token |
| `GoogleSignIn.CancelMapping` | GoogleSignInManager.swift:50-58 | wired to the concrete handler, the completion gets `userCanceled` if and only if the provider error has the cancel code; any other provider error reaches it unchanged |
| `GoogleSignIn.SignOut` | GoogleSignInManager.swift:78-86 | the completion is called, with the error unchanged, only if the backend sign-out throws; a successful sign-out never calls it |

## Left out

- The UIKit window, scene and root-view-controller lookup is reduced to a boolean `rootScreenPresent`. `presentationAnchor` and its force-unwraps (AppleSignInManager.swift:156-165) are not part of this model.
- `SecRandomCopyBytes` is replaced by an input byte stream. Its failure, which ends the process with `fatalError`, becomes the precondition `Sufficient`: whole batches of 16, holding at least `length` acceptable bytes. The unpredictability of the nonce cannot be expressed and is not claimed.
- SDK internals are not part of this model: `ASAuthorizationController`, `GIDSignIn`, Facebook's `LoginManager`, `Auth.auth().signIn`/`signOut` and the credential constructors of `OAuthProvider`, `GoogleAuthProvider` and `FacebookAuthProvider`. Credentials are records of the strings they are built from. SDK calls appear as `Sdk` effects, and the injected handler's deliveries are the input `replies`.
- Decoding the Apple identity token as UTF-8 is external: a token carries its UTF-8 reading, or none.
- Asynchrony and threading are not modelled. Each callback is a synchronous function of its inputs. Overlapping `signIn` calls on one Apple manager overwrite its state, and serializing them is left to the caller.
- Completion closures are known only by identity (`CompletionId`). In the Apple model, `SignIn`'s early completion goes to the caller's closure and the delegates' completions go to the stored one. The effect records do not tell those targets apart.
- `GoogleSignIn.ForwardUser`: the forced cast `user as! GoogleSignInUser` (GoogleSignInManager.swift:69-70) is modelled as forwarding the backend user; the trap a failing cast would cause is not modelled.
- The `print` of the sign-out error in the Google manager (GoogleSignInManager.swift:83) is console output and is left out.
- `GIDSignInError.canceled` is taken as the Google Sign-In SDK's raw value -5; that SDK is not part of this model.
- The Apple manager only checks that a nonce is stored (AppleSignInManager.swift:139). It never compares it with a nonce returned by the provider, and the model has no such comparison.
