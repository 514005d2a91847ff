/** The nonce generator of the Apple sign-in manager (`randomNonceString`).
    The secure random source is modelled as the stream of bytes it delivers; the generator
    draws that stream in batches of 16 bytes and keeps, by rejection sampling, the bytes
    below the size of its 64-character alphabet. */
module NonceGenerator {

  newtype UInt8 = x: int | 0 <= x < 256

  /** The alphabet of the nonce, "0123456789ABCDEFGHIJKLMNOPQRSTUVXYZabcdefghijklmnopqrstuvwxyz-._",
      written as its four runs: 10 digits, 25 upper-case letters (there is no 'W'), 26 lower-case letters
      and three symbols. */
  const DIGITS: string := "0123456789"
  const UPPER: string := "ABCDEFGHIJKLMNOPQRSTUVXYZ"
  const LOWER: string := "abcdefghijklmnopqrstuvwxyz"
  const SYMBOLS: string := "-._"
  const CHARSET: string := DIGITS + UPPER + LOWER + SYMBOLS

  /** Length used when the caller gives none. */
  const DEFAULT_LENGTH: int := 32

  /** A byte survives rejection sampling when it is an index into the alphabet (`CharsetSize`: 64 entries). */
  predicate Accepts(b: UInt8) {
    b as int < |CHARSET|
  }

  predicate AllAccepted(bytes: seq<UInt8>) {
    forall i :: 0 <= i < |bytes| ==> Accepts(bytes[i])
  }

  /** The alphabet entry at index `b`, computed from the four runs rather than looked up
      (`CharsetAt` proves the two agree). */
  function CharAt(b: UInt8): (c: char)
    requires Accepts(b)
  {
    if b < 10 then ('0' as int + b as int) as char
    else if b < 32 then ('A' as int + (b as int - 10)) as char
    else if b < 35 then ('X' as int + (b as int - 32)) as char
    else if b < 61 then ('a' as int + (b as int - 35)) as char
    else if b == 61 then '-'
    else if b == 62 then '.'
    else '_'
  }

  /** Looking up an accepted byte in the alphabet yields `CharAt`. */
  lemma CharsetAt(b: UInt8)
    requires Accepts(b)
    ensures CHARSET[b] == CharAt(b)
  {
    assert forall i :: 0 <= i < 10 ==> DIGITS[i] == ('0' as int + i) as char;
    assert forall i :: 0 <= i < 22 ==> UPPER[i] == ('A' as int + i) as char;
    assert forall i :: 22 <= i < 25 ==> UPPER[i] == ('X' as int + (i - 22)) as char;
    assert forall i :: 0 <= i < 26 ==> LOWER[i] == ('a' as int + i) as char;
  }

  /** The bytes of `stream` that rejection sampling keeps, in the order they were drawn. */
  function Accepted(stream: seq<UInt8>): (kept: seq<UInt8>)
    ensures |kept| <= |stream|
    ensures AllAccepted(kept)
  {
    if stream == [] then []
    else
      var last := stream[|stream| - 1];
      Accepted(stream[..|stream| - 1]) + (if Accepts(last) then [last] else [])
  }

  /** The first `n` elements of `s`, or all of `s` when it is shorter; nothing when `n` is not positive. */
  function Take<T>(s: seq<T>, n: int): (t: seq<T>)
    ensures t <= s
    ensures |t| == if n <= 0 then 0 else if |s| <= n then |s| else n
  {
    if n <= 0 then [] else if |s| <= n then s else s[..n]
  }

  /** Each accepted byte becomes the alphabet character it indexes; no modulo is taken. */
  function Encode(kept: seq<UInt8>): (s: string)
    requires AllAccepted(kept)
    ensures |s| == |kept|
  {
    if kept == [] then "" else [CharAt(kept[0])] + Encode(kept[1..])
  }

  /** Character i of an encoding is the alphabet entry that byte i indexes. */
  lemma {:induction false} EncodeAt(kept: seq<UInt8>, i: nat)
    requires AllAccepted(kept) && i < |kept|
    ensures Encode(kept)[i] == CHARSET[kept[i]]
  {
    if i == 0 {
      CharsetAt(kept[0]);
    } else {
      EncodeAt(kept[1..], i - 1);
    }
  }

  /** The nonce of length `length` that the byte stream `stream` yields:
      the first `length` accepted bytes, mapped in order. */
  function Nonce(stream: seq<UInt8>, length: int): (nonce: string)
  {
    Encode(Take(Accepted(stream), length))
  }

  /** The stream consists of whole batches of 16 bytes and holds at least `length` acceptable bytes;
      a stream that runs dry stands for a failing secure random source, which aborts the process. */
  predicate Sufficient(stream: seq<UInt8>, length: int) {
    |stream| % 16 == 0 && length <= |Accepted(stream)|
  }

  /** `randomNonceString(length:)`: draws 16 bytes at a time from `stream` and appends the character of each
      accepted byte until `length` characters are produced. `drawn` is how many bytes were taken from the source. */
  method RandomNonceString(length: int, stream: seq<UInt8>) returns (result: string, drawn: nat)
    requires Sufficient(stream, length)
    ensures result == Nonce(stream, length)
    ensures drawn % 16 == 0 && drawn <= |stream|
    ensures length <= 0 ==> drawn == 0
    ensures length > 0 ==> 16 <= drawn && |Accepted(stream[..drawn - 16])| < length <= |Accepted(stream[..drawn])|
  {
    result := "";
    drawn := 0;
    var remainingLength := length;
    ghost var taken: seq<UInt8> := [];
    while remainingLength > 0
      invariant drawn % 16 == 0 && drawn <= |stream|
      invariant taken == Take(Accepted(stream[..drawn]), length)
      invariant AllAccepted(taken)
      invariant result == Encode(taken)
      invariant remainingLength == length - |taken|
      invariant length > 0 ==> 0 <= remainingLength
      invariant length <= 0 ==> drawn == 0
      invariant drawn > 0 ==> |Accepted(stream[..drawn - 16])| < length
      decreases |stream| - drawn
    {
      BatchAvailable(stream, drawn, length, taken);
      BatchStep(stream, drawn, length, taken, remainingLength);
      var randoms := stream[drawn..drawn + 16];
      ghost var added := Take(Accepted(randoms), remainingLength);
      TakenAccepted(randoms, remainingLength);
      result, remainingLength := AppendAccepted(randoms, result, remainingLength);
      EncodeConcat(taken, added);
      taken := taken + added;
      drawn := drawn + 16;
    }
    LoopExit(stream, drawn, length, taken);
  }

  /** `randoms.forEach { ... }` over one batch: while characters remain to be produced, appends the character
      of each accepted byte of `randoms`; the batch adds its first `remainingLength` accepted bytes, mapped. */
  method AppendAccepted(randoms: seq<UInt8>, result: string, remainingLength: int) returns (extended: string, remaining: int)
    requires 0 <= remainingLength
    ensures extended == result + Encode(Take(Accepted(randoms), remainingLength))
    ensures remaining == remainingLength - |Take(Accepted(randoms), remainingLength)| && 0 <= remaining
  {
    CharsetSize();
    extended, remaining := result, remainingLength;
    ghost var taken: seq<UInt8> := [];
    for j := 0 to |randoms|
      invariant taken == Take(Accepted(randoms[..j]), remainingLength)
      invariant AllAccepted(taken)
      invariant extended == result + Encode(taken)
      invariant remaining == remainingLength - |taken| && 0 <= remaining
    {
      var random := randoms[j];
      if remaining == 0 {
        AcceptStep(randoms, j, remainingLength, taken, false);
        continue;
      }
      AcceptStep(randoms, j, remainingLength, taken, true);
      if random as int < |CHARSET| {
        EncodeAppend(taken, random);
        extended := extended + [CHARSET[random]];
        remaining := remaining - 1;
        taken := taken + [random];
      }
    }
    assert randoms[..|randoms|] == randoms;
  }

  /** Drawing a batch adds to the taken accepted bytes the batch's own accepted bytes, up to the number still missing. */
  lemma BatchStep(stream: seq<UInt8>, drawn: nat, length: int, taken: seq<UInt8>, remainingLength: int)
    requires drawn + 16 <= |stream|
    requires taken == Take(Accepted(stream[..drawn]), length)
    requires remainingLength == length - |taken| && 0 < remainingLength
    ensures Take(Accepted(stream[..drawn + 16]), length) ==
      taken + Take(Accepted(stream[drawn..drawn + 16]), remainingLength)
  {
    assert stream[..drawn + 16] == stream[..drawn] + stream[drawn..drawn + 16];
    AcceptedConcat(stream[..drawn], stream[drawn..drawn + 16]);
    TakeConcat(Accepted(stream[..drawn]), Accepted(stream[drawn..drawn + 16]), length);
  }

  /** When the outer loop stops, the bytes taken are the first `length` accepted bytes of the whole stream,
      and the bytes drawn held enough of them. */
  lemma LoopExit(stream: seq<UInt8>, drawn: nat, length: int, taken: seq<UInt8>)
    requires drawn <= |stream|
    requires taken == Take(Accepted(stream[..drawn]), length)
    requires length > 0 ==> |taken| == length
    ensures taken == Take(Accepted(stream), length)
    ensures length > 0 ==> length <= |Accepted(stream[..drawn])|
  {
    if length > 0 {
      AcceptedPrefix(stream, drawn);
      TakePrefix(Accepted(stream[..drawn]), Accepted(stream), length);
    }
  }

  lemma {:induction false} AcceptedConcat(a: seq<UInt8>, b: seq<UInt8>)
    ensures Accepted(a + b) == Accepted(a) + Accepted(b)
    decreases |b|
  {
    if b == [] {
      assert a + b == a;
    } else {
      var shorter := b[..|b| - 1];
      assert (a + b)[..|a + b| - 1] == a + shorter;
      AcceptedConcat(a, shorter);
    }
  }

  /** Taking `n` from `a + b` when `a` is shorter than `n` takes all of `a` and the rest from `b`. */
  lemma TakeConcat<T>(a: seq<T>, b: seq<T>, n: int)
    requires |a| < n
    ensures Take(a + b, n) == a + Take(b, n - |a|)
  {
    if |a + b| > n {
      assert (a + b)[..n] == a + b[..n - |a|];
    }
  }

  /** A prefix that already holds `n` elements determines the first `n` elements of the whole. */
  lemma TakePrefix<T>(a: seq<T>, b: seq<T>, n: int)
    requires a <= b && n <= |a|
    ensures Take(a, n) == Take(b, n)
  {
    if n > 0 {
      assert a[..n] == b[..n];
    }
  }

  /** The leading accepted bytes of a stream are accepted bytes. */
  lemma TakenAccepted(stream: seq<UInt8>, n: int)
    ensures AllAccepted(Take(Accepted(stream), n))
  {
    var kept := Accepted(stream);
    forall i | 0 <= i < |Take(kept, n)|
      ensures Accepts(Take(kept, n)[i])
    {
      assert Take(kept, n)[i] == kept[i];
    }
  }

  /** The alphabet has 64 characters. */
  lemma CharsetSize()
    ensures |CHARSET| == 64
  {
  }

  /** Appending an accepted byte appends the alphabet character it indexes. */
  lemma EncodeAppend(kept: seq<UInt8>, b: UInt8)
    requires AllAccepted(kept) && Accepts(b)
    ensures AllAccepted(kept + [b])
    ensures Encode(kept + [b]) == Encode(kept) + [CHARSET[b]]
  {
    EncodeConcat(kept, [b]);
    CharsetAt(b);
    assert Encode([b]) == [CharAt(b)] + Encode([]);
  }

  /** Joining two sequences of accepted bytes gives a sequence of accepted bytes. */
  lemma ConcatAccepted(a: seq<UInt8>, b: seq<UInt8>)
    requires AllAccepted(a) && AllAccepted(b)
    ensures AllAccepted(a + b)
  {
    forall i | 0 <= i < |a + b|
      ensures Accepts((a + b)[i])
    {
      if i < |a| {
        assert (a + b)[i] == a[i];
      } else {
        assert (a + b)[i] == b[i - |a|];
      }
    }
  }

  /** Encoding distributes over concatenation. */
  lemma {:induction false} EncodeConcat(a: seq<UInt8>, b: seq<UInt8>)
    requires AllAccepted(a) && AllAccepted(b)
    ensures AllAccepted(a + b)
    ensures Encode(a + b) == Encode(a) + Encode(b)
    decreases |a|
  {
    ConcatAccepted(a, b);
    if |a| == 0 {
      assert a + b == b;
    } else {
      var ab := a + b;
      assert ab[0] == a[0];
      assert ab[1..] == a[1..] + b;
      EncodeConcat(a[1..], b);
      assert Encode(ab) == [CharAt(a[0])] + (Encode(a[1..]) + Encode(b));
    }
  }

  /** While fewer than `length` bytes have been accepted from the first `drawn` bytes of a sufficient stream,
      a whole further batch is left to draw. */
  lemma BatchAvailable(stream: seq<UInt8>, drawn: nat, length: int, taken: seq<UInt8>)
    requires Sufficient(stream, length)
    requires drawn % 16 == 0 && drawn <= |stream|
    requires taken == Take(Accepted(stream[..drawn]), length) && |taken| < length
    ensures drawn + 16 <= |stream|
    ensures |Accepted(stream[..drawn])| < length
  {
    assert |Accepted(stream[..drawn])| < length;
    assert stream[..|stream|] == stream;
  }

  /** The effect on the taken prefix of the accepted bytes of drawing byte `p`: nothing once `length` bytes
      are taken (`open` false), otherwise the byte itself when it is accepted. */
  lemma AcceptStep(stream: seq<UInt8>, p: nat, length: int, taken: seq<UInt8>, open: bool)
    requires p < |stream|
    requires taken == Take(Accepted(stream[..p]), length)
    requires open <==> |taken| < length
    ensures Take(Accepted(stream[..p + 1]), length) == taken + (if open && Accepts(stream[p]) then [stream[p]] else [])
  {
    AcceptedStep(stream, p);
    if length > 0 {
      TakeAppend(Accepted(stream[..p]), if Accepts(stream[p]) then [stream[p]] else [], length);
    }
  }

  /** Taking `n` elements of a longer sequence ignores what follows; taking from a shorter one takes all of it. */
  lemma TakeAppend<T>(s: seq<T>, x: seq<T>, n: int)
    requires n > 0
    ensures n <= |s| ==> Take(s + x, n) == Take(s, n)
    ensures |s| + |x| <= n ==> Take(s + x, n) == s + x
  {
    if n <= |s| {
      assert (s + x)[..n] == s[..n];
    }
  }

  /** Drawing one more byte adds it to the accepted bytes exactly when it is accepted. */
  lemma AcceptedStep(stream: seq<UInt8>, p: nat)
    requires p < |stream|
    ensures Accepted(stream[..p + 1]) == Accepted(stream[..p]) + (if Accepts(stream[p]) then [stream[p]] else [])
  {
    assert stream[..p + 1][..p] == stream[..p];
  }

  /** The bytes accepted from a prefix of the stream are a prefix of those accepted from the whole stream. */
  lemma {:induction false} AcceptedPrefix(stream: seq<UInt8>, p: nat)
    requires p <= |stream|
    ensures Accepted(stream[..p]) <= Accepted(stream)
    decreases |stream| - p
  {
    if p < |stream| {
      var shorter := stream[..|stream| - 1];
      assert shorter[..p] == stream[..p];
      AcceptedPrefix(shorter, p);
    } else {
      assert stream[..p] == stream;
    }
  }

  /** Membership in the accepted bytes: a byte is kept exactly when it was drawn and is below the alphabet size. */
  lemma {:induction false} AcceptedMembership(stream: seq<UInt8>, b: UInt8)
    ensures b in Accepted(stream) <==> b in stream && Accepts(b)
  {
    if stream != [] {
      var shorter := stream[..|stream| - 1];
      assert stream == shorter + [stream[|stream| - 1]];
      AcceptedMembership(shorter, b);
    }
  }

  /** The position of a character in the alphabet, or -1 for a character outside it. */
  function AlphabetIndex(c: char): (index: int)
  {
    if '0' <= c <= '9' then c as int - '0' as int
    else if 'A' <= c <= 'V' then 10 + (c as int - 'A' as int)
    else if 'X' <= c <= 'Z' then 32 + (c as int - 'X' as int)
    else if 'a' <= c <= 'z' then 35 + (c as int - 'a' as int)
    else if c == '-' then 61
    else if c == '.' then 62
    else if c == '_' then 63
    else -1
  }

  /** The alphabet's characters are distinct and `AlphabetIndex` undoes indexing into it. */
  lemma AlphabetIndexInverse()
    ensures forall i :: 0 <= i < |CHARSET| ==> AlphabetIndex(CHARSET[i]) == i
  {
    CharsetSize();
    forall i | 0 <= i < |CHARSET|
      ensures AlphabetIndex(CHARSET[i]) == i
    {
      CharsetAt(i as UInt8);
    }
  }

  /** Every character of a nonce is in the alphabet; in particular none is 'W'. */
  lemma NonceAlphabet(stream: seq<UInt8>, length: int)
    ensures forall i :: 0 <= i < |Nonce(stream, length)| ==> Nonce(stream, length)[i] in CHARSET
    ensures 'W' !in Nonce(stream, length)
  {
    var kept := Take(Accepted(stream), length);
    AlphabetIndexInverse();
    forall i | 0 <= i < |kept|
      ensures Nonce(stream, length)[i] in CHARSET && Nonce(stream, length)[i] != 'W'
    {
      EncodeAt(kept, i);
      assert AlphabetIndex('W') == -1;
    }
  }

  /** With at least `length` acceptable bytes in the stream, the nonce has exactly `length` characters. */
  lemma NonceLength(stream: seq<UInt8>, length: int)
    requires length <= |Accepted(stream)|
    ensures |Nonce(stream, length)| == if length <= 0 then 0 else length
  {
  }

  /** Character i of the nonce is the alphabet entry indexed by the i-th accepted byte of the stream. */
  lemma NonceCharacters(stream: seq<UInt8>, length: int, i: nat)
    requires i < length <= |Accepted(stream)|
    ensures i < |Nonce(stream, length)| && Nonce(stream, length)[i] == CHARSET[Accepted(stream)[i]]
  {
    EncodeAt(Take(Accepted(stream), length), i);
  }

  /** The nonce determines the accepted bytes it was made from: each character maps back to its byte. */
  lemma NonceDecodes(stream: seq<UInt8>, length: int)
    ensures forall i :: 0 <= i < |Nonce(stream, length)| ==>
      AlphabetIndex(Nonce(stream, length)[i]) == Accepted(stream)[i] as int
  {
    var kept := Take(Accepted(stream), length);
    AlphabetIndexInverse();
    forall i | 0 <= i < |kept|
      ensures AlphabetIndex(Nonce(stream, length)[i]) == Accepted(stream)[i] as int
    {
      EncodeAt(kept, i);
    }
  }

  /** Different sequences of accepted bytes never yield the same string: the mapping is one-to-one. */
  lemma EncodeInjective(a: seq<UInt8>, b: seq<UInt8>)
    requires AllAccepted(a) && AllAccepted(b)
    requires Encode(a) == Encode(b)
    ensures a == b
  {
    AlphabetIndexInverse();
    forall i | 0 <= i < |a|
      ensures a[i] == b[i]
    {
      EncodeAt(a, i);
      EncodeAt(b, i);
    }
  }
}
