/** `_issue_token`: the stamped body, the signature and the ledger row body. */
module IssueToken {
  import opened Json
  import opened Tokens

  const TOKEN_TTL_SECONDS := 600

  const PROTECTED: set<string> :=
    {"step", "subject", "payload_hash", "verdict", "iat", "exp", "issuer", "kid"}

  datatype Claim = Claim(step: string, subject: string, payloadHash: string, verdict: string,
                         issuer: string, kid: string)

  /** `ProtectedClash`: the HTTP 500 raised when `extra` names a stamped field. */
  datatype Issued = ProtectedClash(fields: set<string>) | Issued(body: Body, token: string, ledgerBody: Body)

  function Stamp(q: Claim, now: int): Body {
    map["step" := Str(q.step), "subject" := Str(q.subject), "payload_hash" := Str(q.payloadHash),
        "verdict" := Str(q.verdict), "iat" := Int(now), "exp" := Int(now + TOKEN_TTL_SECONDS),
        "issuer" := Str(q.issuer), "kid" := Str(q.kid)]
  }

  /** `key` is the store's active private key; `q.kid` the id the process captured at start. */
  function Issue(c: Scheme, j: Codec, key: Key, q: Claim, now: int, extra: Body, ledgerExtra: Body): Issued {
    var leaked := PROTECTED * extra.Keys;
    if leaked != {} then ProtectedClash(leaked)
    else
      var body := extra + Stamp(q, now);
      Issued(body, SignToken(c, j, key, body), ledgerExtra + body)
  }

  /** The clash is reported exactly when a caller field is protected, and names those fields. Otherwise
      the signed body is the eight stamped fields plus the caller's, and the ledger row is that body
      plus the extra fields it does not have. */
  lemma IssuedBody(c: Scheme, j: Codec, key: Key, q: Claim, now: int, extra: Body, ledgerExtra: Body)
    ensures var r := Issue(c, j, key, q, now, extra, ledgerExtra);
      var stamped := {"step", "subject", "payload_hash", "verdict", "iat", "exp", "issuer", "kid"};
      && (r.ProtectedClash? <==> exists f :: f in extra && f in stamped)
      && (r.ProtectedClash? ==> forall f :: f in r.fields <==> f in extra && f in stamped)
      && (r.Issued? ==>
            && r.body.Keys == extra.Keys + stamped
            && (forall f :: f in extra ==> r.body[f] == extra[f])
            && r.body["step"] == Str(q.step) && r.body["subject"] == Str(q.subject)
            && r.body["payload_hash"] == Str(q.payloadHash) && r.body["verdict"] == Str(q.verdict)
            && r.body["iat"] == Int(now) && r.body["exp"] == Int(now + 600)
            && r.body["issuer"] == Str(q.issuer) && r.body["kid"] == Str(q.kid)
            && r.token == SignToken(c, j, key, r.body)
            && r.ledgerBody.Keys == ledgerExtra.Keys + r.body.Keys
            && (forall f :: f in r.body ==> r.ledgerBody[f] == r.body[f])
            && (forall f :: f in ledgerExtra && f !in r.body ==> r.ledgerBody[f] == ledgerExtra[f]))
  {
    hide SignToken;
    assert Stamp(q, now).Keys == PROTECTED;
    var leaked := PROTECTED * extra.Keys;
    assert forall f :: f in leaked <==> f in extra && f in PROTECTED;
    if leaked != {} {
      var f :| f in leaked;
      assert f in extra;
    }
  }

  /** An issued token verifies under the signing key exactly for the 600 seconds after its stamp,
      under no other key, and may be chained into the ledger. */
  lemma IssuedVerifies(c: Scheme, j: Codec, key: Key, verifier: Key, q: Claim, now: int, t: int,
                       extra: Body, ledgerExtra: Body)
    requires Ideal(c) && Issue(c, j, key, q, now, extra, ledgerExtra).Issued?
    requires ReadsBack(j, Issue(c, j, key, q, now, extra, ledgerExtra).body)
    ensures var r := Issue(c, j, key, q, now, extra, ledgerExtra);
      && VerifyToken(c, j, verifier, r.token, t) ==
           (if verifier == key && t < now + 600 then Accepted(r.body) else Rejected)
      && '|' !in r.token && Get(r.body, "kid") == Some(Str(q.kid))
  {
    hide SignToken, VerifyToken;
    var body := extra + Stamp(q, now);
    assert Get(body, "exp") == Some(Int(now + TOKEN_TTL_SECONDS));
    VerifySigned(c, j, key, verifier, body, t);
    TokenShape(c, j, key, body);
  }
}
