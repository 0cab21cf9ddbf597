/** Signed tokens: base64url(payload) "." base64url(signature). The signature scheme is ideal; the
    JSON text codec is a parameter that reads back the body at hand, as it wrote it. */
module Tokens {
  import opened Json
  import opened Base64Url

  /** A key pair is known by the digest of its public half. */
  type Key = string

  datatype Scheme = Scheme(sign: (Key, Bytes) -> Bytes, verify: (Key, Bytes, Bytes) -> bool)

  /** A key and a message verify exactly the signature that key makes for that message, and two keys
      never make the same one for a message. */
  ghost predicate Ideal(c: Scheme) {
    && (forall k, sig, m :: c.verify(k, sig, m) <==> sig == c.sign(k, m))
    && (forall k, k', m :: c.sign(k, m) == c.sign(k', m) ==> k == k')
  }

  datatype Loaded = NotJson | NotObject | Parsed(body: Body)
  datatype Codec = Codec(dump: Body -> Bytes, load: Bytes -> Loaded)

  /** Asked of one body only: a body may hold numbers that no text can tell apart. */
  ghost predicate ReadsBack(j: Codec, body: Body) {
    j.load(j.dump(body)) == Parsed(body)
  }

  /** `Raises`: the payload parse sits outside the try block, so its errors escape. */
  datatype Outcome = Accepted(body: Body) | Rejected | Raises

  function Split(s: string): (parts: seq<string>)
    ensures |parts| >= 1
  {
    if s == "" then [""]
    else
      var rest := Split(s[1..]);
      if s[0] == '.' then [""] + rest else [[s[0]] + rest[0]] + rest[1..]
  }

  function SignToken(c: Scheme, j: Codec, key: Key, body: Body): string {
    var payload := j.dump(body);
    Encode(payload) + "." + Encode(c.sign(key, payload))
  }

  /** The deadline as a number; booleans are integers to `isinstance`. */
  function Deadline(body: Body): Option<Number> {
    match Get(body, "exp")
    case Some(Bool(b)) => Some(Finite(if b then 1.0 else 0.0))
    case Some(Int(i)) => Some(Finite(i as real))
    case Some(Float(n)) => Some(n)
    case _ => None
  }

  /** `now >= deadline` on floats: every comparison with NaN is false. */
  predicate AtOrAfter(now: int, d: Number) {
    match d
    case Finite(r) => now as real >= r
    case NaN => false
    case PosInf => false
    case NegInf => true
  }

  predicate Before(now: int, d: Number) {
    match d
    case Finite(r) => (now as real) < r
    case NaN => false
    case PosInf => true
    case NegInf => false
  }

  function VerifyToken(c: Scheme, j: Codec, key: Key, token: string, now: int): Outcome {
    var parts := Split(token);
    if |parts| != 2 then Rejected
    else
      match (Decode(parts[0]), Decode(parts[1]))
      case (Some(payload), Some(sig)) =>
        if !c.verify(key, sig, payload) then Rejected
        else (
          match j.load(payload)
          case NotJson => Raises
          case NotObject => Raises
          case Parsed(body) =>
            match Deadline(body)
            case None => Rejected
            case Some(d) => if AtOrAfter(now, d) then Rejected else Accepted(body)
        )
      case _ => Rejected
  }

  // ---- round trip ----------------------------------------------------------------

  lemma {:induction false} SplitPlain(s: string)
    requires '.' !in s
    ensures Split(s) == [s]
  {
    if s == "" {
    } else {
      SplitPlain(s[1..]);
      assert [s[0]] + s[1..] == s;
    }
  }

  lemma {:induction false} SplitOnce(x: string, y: string)
    requires '.' !in x && '.' !in y
    ensures Split(x + "." + y) == [x, y]
  {
    var s := x + "." + y;
    if x == "" {
      assert s[1..] == y;
      SplitPlain(y);
    } else {
      assert s[1..] == x[1..] + "." + y;
      SplitOnce(x[1..], y);
      assert [x[0]] + x[1..] == x;
    }
  }

  /** A signed token has exactly one dot, and never the ledger's separator. */
  lemma TokenShape(c: Scheme, j: Codec, key: Key, body: Body)
    ensures Split(SignToken(c, j, key, body)) == [Encode(j.dump(body)), Encode(c.sign(key, j.dump(body)))]
    ensures '|' !in SignToken(c, j, key, body)
  {
    hide Encode;
    EncodeShape(j.dump(body));
    EncodeShape(c.sign(key, j.dump(body)));
    SplitOnce(Encode(j.dump(body)), Encode(c.sign(key, j.dump(body))));
  }

  /** What verification under any key says of a signed token, at any time, for any body. */
  lemma VerifySigned(c: Scheme, j: Codec, signer: Key, verifier: Key, body: Body, now: int)
    requires Ideal(c) && ReadsBack(j, body)
    ensures VerifyToken(c, j, verifier, SignToken(c, j, signer, body), now) ==
      if verifier == signer && Deadline(body).Some? && !AtOrAfter(now, Deadline(body).value) then Accepted(body)
      else Rejected
  {
    hide Encode, Decode;
    var payload := j.dump(body);
    TokenShape(c, j, signer, body);
    RoundTrip(payload);
    RoundTrip(c.sign(signer, payload));
    assert c.verify(verifier, c.sign(signer, payload), payload) <==> verifier == signer;
  }

  /** Verification returns the body exactly while now < exp, for every moment, unless exp is NaN:
      such a token never expires. */
  lemma ExpiresUnlessNaN(c: Scheme, j: Codec, key: Key, body: Body)
    requires Ideal(c) && ReadsBack(j, body) && Deadline(body).Some?
    ensures (forall now :: VerifyToken(c, j, key, SignToken(c, j, key, body), now) == Accepted(body)
                           <==> Before(now, Deadline(body).value))
      <==> !Deadline(body).value.NaN?
  {
    hide SignToken, VerifyToken;
    forall now ensures VerifyToken(c, j, key, SignToken(c, j, key, body), now) == Accepted(body)
      <==> !AtOrAfter(now, Deadline(body).value)
    {
      VerifySigned(c, j, key, key, body, now);
    }
    assert !Before(0, NaN) && !AtOrAfter(0, NaN);
  }

  /** The instance: a signed body whose exp is NaN is accepted at every moment. */
  lemma NaNNeverExpires(c: Scheme, j: Codec, key: Key, now: int)
    requires Ideal(c) && ReadsBack(j, map["exp" := Float(NaN)])
    ensures VerifyToken(c, j, key, SignToken(c, j, key, map["exp" := Float(NaN)]), now).Accepted?
  {
    hide SignToken, VerifyToken;
    VerifySigned(c, j, key, key, map["exp" := Float(NaN)], now);
  }

  /** For any string whatever: a body is accepted exactly when the token is two parts, the second
      decodes to the key's signature of what the first decodes to, that payload parses to the body,
      and the body's exp is a number not yet reached. */
  lemma AcceptedWasSigned(c: Scheme, j: Codec, key: Key, token: string, now: int, body: Body)
    requires Ideal(c)
    ensures VerifyToken(c, j, key, token, now) == Accepted(body) <==>
      && |Split(token)| == 2
      && (exists payload: Bytes :: Decode(Split(token)[0]) == Some(payload)
            && Decode(Split(token)[1]) == Some(c.sign(key, payload)) && j.load(payload) == Parsed(body))
      && Deadline(body).Some? && !AtOrAfter(now, Deadline(body).value)
  {
    hide Decode, Split;
  }

  /** A token raises exactly when it is well formed and signed by the key, but its payload is no JSON
      object; a malformed or wrongly signed one is refused. */
  lemma RaisesIff(c: Scheme, j: Codec, key: Key, token: string, now: int)
    requires Ideal(c)
    ensures VerifyToken(c, j, key, token, now) == Raises <==>
      && |Split(token)| == 2
      && exists payload: Bytes :: Decode(Split(token)[0]) == Some(payload)
           && Decode(Split(token)[1]) == Some(c.sign(key, payload)) && !j.load(payload).Parsed?
    ensures |Split(token)| != 2 || Decode(Split(token)[0]).None? || Decode(Split(token)[1]).None? ==>
      VerifyToken(c, j, key, token, now) == Rejected
  {
    hide Decode, Split;
  }

  /** The values of exp, one by one: integers, booleans (0 and 1) and finite floats count as seconds,
      the infinities behave as such, NaN never expires, and anything else is refused. */
  lemma ExpTable(c: Scheme, j: Codec, key: Key, body: Body, now: int)
    requires Ideal(c) && ReadsBack(j, body)
    ensures VerifyToken(c, j, key, SignToken(c, j, key, body), now) == Accepted(body) <==>
      && "exp" in body
      && match body["exp"]
         case Int(e) => now < e
         case Bool(b) => now < if b then 1 else 0
         case Float(Finite(e)) => (now as real) < e
         case Float(PosInf) => true
         case Float(NegInf) => false
         case Float(NaN) => true
         case _ => false
  {
    hide SignToken, VerifyToken;
    VerifySigned(c, j, key, key, body, now);
  }

  /** Such schemes exist: here the signature spells out the key. */
  lemma IdealExists() returns (c: Scheme)
    ensures Ideal(c)
  {
    c := Scheme((k: Key, _: Bytes) => Spelled(k), (k: Key, sig: Bytes, _: Bytes) => sig == Spelled(k));
    forall k: Key, k': Key | Spelled(k) == Spelled(k') ensures k == k' {
      SpelledInjective(k, k');
    }
  }

  function Spelled(k: string): Bytes {
    if k == "" then [] else var n := k[0] as int; [n % 256, n / 256 % 256, n / 65536 % 256] + Spelled(k[1..])
  }

  lemma {:induction false} SpelledInjective(k: string, k': string)
    requires Spelled(k) == Spelled(k')
    ensures k == k'
  {
    if k == "" || k' == "" {
    } else {
      var s, s' := Spelled(k), Spelled(k');
      assert Spelled(k[1..]) == s[3..] && Spelled(k'[1..]) == s'[3..];
      SpelledInjective(k[1..], k'[1..]);
      assert s[0] == s'[0] && s[1] == s'[1] && s[2] == s'[2];
      Digits(k[0] as int);
      Digits(k'[0] as int);
      assert k[0] as int == k'[0] as int;
      assert k == [k[0]] + k[1..] && k' == [k'[0]] + k'[1..];
    }
  }

  lemma Digits(n: int)
    requires 0 <= n < 0x1000000
    ensures n == n % 256 + 256 * (n / 256 % 256) + 65536 * (n / 65536 % 256)
  {
  }
}
