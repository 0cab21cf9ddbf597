/** Which key a client finds for a token, in every behaviour of rotation, revocation and issue. */
module TokenKeys {
  import opened Json
  import opened KeyStore
  import opened Tokens
  import opened IssueToken
  import opened KeyRotation
  import opened ActiveMarker

  /** In every interleaving, races included: until it expires, the key that signed a token stays on
      disk and advertised. */
  lemma SignerStaysAdvertised(b: seq<State>, i: nat, t: Token)
    requires Behaviour(b) && i < |b| && t in b[i].tokens && b[i].now < t.iat + 600
    ensures Complete(View(b[i]), t.signer) && Advertised(View(b[i]), t.signer) == Some(t.signer)
  {
    InvAlways(b, i);
    hide Behaviour, ProcsInv;
    var s := b[i];
    if Active(s) == Names(t.signer) {
      assert Live(s, s.active) && Usable(s, t.signer);
    } else {
      assert t.signer in s.retired;
      assert t.signer in s.revoked ==> MayRevoke(s, t.signer);
    }
  }

  /** A token is issued under a stale kid exactly when the kid captured at the service's start has
      been retired since. */
  lemma StaleIffRetired(b: seq<State>, i: nat, p: nat)
    requires Behaviour(b) && i + 1 < |b| && NextStep(b[i], b[i + 1], IssueBy(p))
    ensures var t := Token(b[i].procs[p].kid, Active(b[i]).kid, b[i].now);
      t in b[i + 1].tokens && (t.kid == t.signer <==> t.kid !in b[i].retired)
  {
    InvAlways(b, i);
    hide Behaviour, KeyInv, TokenInv;
    var s := b[i];
    assert ProcInv(s, p);
    assert Live(s, s.active) && Usable(s, Active(s).kid);
  }

  /** The witness: a service starts, the key is rotated, the service issues: the body names the old
      kid, the signature is by the new key. */
  lemma RotateThenIssue(a: Kid, k: Kid) returns (b: seq<State>)
    requires a != k
    ensures Behaviour(b) && Token(a, k, 0) in b[|b| - 1].tokens
  {
    hide Behaviour, AtMost, Writers, Minting;
    b := Origin(a, 0, 2);
    var s0 := Started(a, 0).(procs := map[0 := Serving(a)]);
    NoWriters(s0);
    ServeStep(a);
    hide NextStep;
    b := Extend(b, s0, StartServe(0), 2);
    b := Written(b, 1, a, k);
    var s3 := Ready(s0, 1, a, k);
    MintedIs(s0, 1, k);
    var s4 := s3.(active := 1, temp := None, retired := map[a := 0], procs := s3.procs[1 := Rotating(k, 7, 1)]);
    var s5 := s4.(tokens := {Token(a, k, 0)});
    FewWriters(s4, 0, 1);
    FewWriters(s5, 0, 1);
    assert s4 == RenameTemp(s3, 1, k, 1);
    b := Go(b, s4, 1, 2);
    IssueStep(s4, 0, a, k);
    b := Extend(b, s5, IssueBy(0), 2);
  }

  lemma ServeStep(a: Kid)
    ensures NextStep(Started(a, 0), Started(a, 0).(procs := map[0 := Serving(a)]), StartServe(0))
  {
  }

  lemma IssueStep(s: State, p: nat, a: Kid, k: Kid)
    requires p in s.procs && s.procs[p] == Serving(a) && Active(s) == Names(k) && k in s.priv && s.priv[k] == Whole(k)
    ensures NextStep(s, s.(tokens := s.tokens + {Token(a, k, s.now)}), IssueBy(p))
  {
  }

  lemma NoWriters(s: State)
    requires forall p :: p in s.procs ==> !Writing(s.procs[p])
    ensures Writers(s) == {}
  {
  }

  ghost predicate OwnPems(s: State) {
    forall k :: k in s.pub ==> s.pub[k] == Torn || s.pub[k] == Whole(k)
  }

  lemma {:induction false} OwnPemsAlways(b: seq<State>, i: nat)
    requires Behaviour(b) && i < |b|
    ensures OwnPems(b[i])
  {
    if i == 0 {
    } else {
      OwnPemsAlways(b, i - 1);
      OwnPemsStep(b[i - 1], b[i]);
    }
  }

  lemma OwnPemsStep(s: State, s': State)
    requires OwnPems(s) && Next(s, s')
    ensures OwnPems(s')
  {
    var step :| NextStep(s, s', step);
    if step.Run? {
      hide OwnPems;
      PemsRun(s, s', step.p);
    }
  }

  lemma PemsRun(s: State, s': State, p: nat)
    requires OwnPems(s) && RunStep(s, s', p)
    ensures OwnPems(s')
  {
    hide RunStep, Exec;
    RunPub(s, s', p);
  }

  /** An operation leaves the public files alone, removes one, or gives one its own key or nothing. */
  lemma RunPub(s: State, s': State, p: nat)
    requires RunStep(s, s', p)
    ensures forall k :: k in s'.pub ==>
      s'.pub[k] == Torn || s'.pub[k] == Whole(k) || (k in s.pub && s'.pub[k] == s.pub[k])
  {
    var proc := s.procs[p];
    if KeyOp(proc).Some? {
      hide OpenTemp, WriteTemp, RenameTemp;
      assert s'.pub == Exec(View(s), KeyOp(proc).value).pub;
    } else {
      hide Exec;
    }
  }

  /** What a client does: look up the kid the body names. */
  function LookUp(d: Disk, body: Body): Option<Key> {
    match Get(body, "kid")
    case Some(Str(kid)) => Advertised(d, kid)
    case _ => None
  }

  /** An unexpired token verifies under the key advertised for the kid in its body exactly when
      that kid was the active one at issue: a service whose captured kid is stale after a
      rotation issues tokens that no client accepts. */
  lemma VerifiesIffKidWasActive(b: seq<State>, i: nat, t: Token,
                                c: Scheme, j: Codec, q: Claim, extra: Body, ledgerExtra: Body)
    requires Behaviour(b) && i < |b| && t in b[i].tokens && b[i].now < t.iat + 600
    requires q.kid == t.kid && Ideal(c) && Issue(c, j, t.signer, q, t.iat, extra, ledgerExtra).Issued?
    requires ReadsBack(j, Issue(c, j, t.signer, q, t.iat, extra, ledgerExtra).body)
    ensures var r := Issue(c, j, t.signer, q, t.iat, extra, ledgerExtra);
      var shown := LookUp(View(b[i]), r.body);
      (shown.Some? && VerifyToken(c, j, shown.value, r.token, b[i].now) == Accepted(r.body)) <==> t.kid == t.signer
  {
    hide VerifyToken, Issue, Behaviour, Ideal, ReadsBack;
    SignerStaysAdvertised(b, i, t);
    OwnPemsAlways(b, i);
    IssuedVerifies(c, j, t.signer, t.kid, q, t.iat, b[i].now, extra, ledgerExtra);
    var shown := Advertised(View(b[i]), t.kid);
    if shown.Some? {
      assert shown.value == t.kid;
    }
  }
}
