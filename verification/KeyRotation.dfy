/** Key rotation, revocation and token issue over time: any number of processes at once, one file
    operation per step, each free to die between operations. ACTIVE is replaced through one shared
    temporary path: open with truncation, write, rename. A process writes through the file it has
    opened, whatever name that file carries by then; so files are numbered and names point at them. */
module KeyRotation {
  import opened Json
  import opened KeyStore
  import opened Tokens
  import opened IssueToken

  /** Stages of a rotation: 0 to 3 make the key files, 4 opens the temporary file, 5 writes it, 6
      renames it; `file` is the opened one. `Failed`: the rename found no temporary file.
      A service keeps the kid it computed at its start. */
  datatype Proc =
    | Rotating(kid: Kid, stage: nat, file: nat)
    | Revoking(kid: Kid, stage: nat)
    | Serving(kid: Kid)
    | Failed(kid: Kid)

  /** The body names `kid`, the signature is by `signer`, the key that was active at issue. */
  datatype Token = Token(kid: Kid, signer: Kid, iat: int)

  /** `texts[f]` is what file f holds; `active` and `temp` are the files behind the two names.
      `retired[k]`: when k stopped being active. `used`: every id ever minted. */
  datatype State = State(priv: map<Kid, Pem>, pub: map<Kid, Pem>,
                         texts: seq<Marker>, active: nat, temp: Option<nat>,
                         now: int, procs: map<nat, Proc>, tokens: set<Token>,
                         used: set<Kid>, retired: map<Kid, int>, revoked: set<Kid>)

  datatype Step =
    | Tick(now: int)
    | StartRotate(p: nat, kid: Kid)
    | StartRevoke(p: nat, kid: Kid)
    | StartServe(p: nat)
    | Run(p: nat)
    | Die(p: nat)
    | IssueBy(p: nat)

  function Active(s: State): Marker {
    if s.active < |s.texts| then s.texts[s.active] else Blank
  }

  /** The directory as the key store's readers see it. */
  function View(s: State): Disk {
    Disk(Active(s), s.priv, s.pub, None, None)
  }

  /** The operator waits out the token lifetime before revoking a retired key. */
  predicate MayRevoke(s: State, k: Kid) {
    k in s.retired && s.retired[k] + TOKEN_TTL_SECONDS <= s.now
  }

  // ---- one operation of a process ----------------------------------------------------

  function KeyOp(proc: Proc): Option<FileOp> {
    match proc
    case Rotating(k, n, _) =>
      if n < 4 then Some([CreatePriv(k), WritePriv(k, k), CreatePub(k), WritePub(k, k)][n]) else None
    case Revoking(k, n) => if n < 2 then Some(RevokeOps(k)[n]) else None
    case _ => None
  }

  function OnKeyFiles(s: State, p: nat, proc: Proc, op: FileOp): State
    requires proc.Rotating? || proc.Revoking?
  {
    var d := Exec(View(s), op);
    s.(priv := d.priv, pub := d.pub, procs := s.procs[p := proc.(stage := proc.stage + 1)])
  }

  /** The key named by ACTIVE before but not after is retired now. */
  function Retire(s: State, s': State): State {
    if Active(s).Names? && Active(s') != Active(s) then s'.(retired := s.retired[Active(s).kid := s.now]) else s'
  }

  function OpenTemp(s: State, p: nat, k: Kid): State {
    if s.temp.Some? && s.temp.value < |s.texts|
    then s.(texts := s.texts[s.temp.value := Blank], procs := s.procs[p := Rotating(k, 5, s.temp.value)])
    else s.(texts := s.texts + [Blank], temp := Some(|s.texts|), procs := s.procs[p := Rotating(k, 5, |s.texts|)])
  }

  function WriteTemp(s: State, p: nat, k: Kid, f: nat): State {
    Retire(s, s.(texts := if f < |s.texts| then s.texts[f := Names(k)] else s.texts,
                 procs := s.procs[p := Rotating(k, 6, f)]))
  }

  function RenameTemp(s: State, p: nat, k: Kid, f: nat): State {
    if s.temp.None? then s.(procs := s.procs[p := Failed(k)])
    else Retire(s, s.(active := s.temp.value, temp := None, procs := s.procs[p := Rotating(k, 7, f)]))
  }

  ghost predicate RunStep(s: State, s': State, p: nat) {
    p in s.procs &&
    match s.procs[p]
    case Rotating(k, n, f) =>
      && n < 7
      && s' == (if n < 4 then OnKeyFiles(s, p, s.procs[p], KeyOp(s.procs[p]).value)
                else if n == 4 then OpenTemp(s, p, k)
                else if n == 5 then WriteTemp(s, p, k, f)
                else RenameTemp(s, p, k, f))
    case Revoking(k, n) => n < 2 && s' == OnKeyFiles(s, p, s.procs[p], KeyOp(s.procs[p]).value)
    case _ => false
  }

  ghost predicate NextStep(s: State, s': State, step: Step) {
    match step
    case Tick(now) => s.now <= now && s' == s.(now := now)
    case StartRotate(p, k) =>
      p !in s.procs && k !in s.used && s' == s.(procs := s.procs[p := Rotating(k, 0, 0)], used := s.used + {k})
    case StartRevoke(p, k) =>
      // revoke() refuses the active key, and fails when there is none
      && p !in s.procs && Active(s).Names? && Active(s).kid != k && MayRevoke(s, k)
      && s' == s.(procs := s.procs[p := Revoking(k, 0)], revoked := s.revoked + {k})
    case StartServe(p) =>
      && p !in s.procs && Active(s).Names? && Active(s).kid in s.pub && s.pub[Active(s).kid].Whole?
      && s' == s.(procs := s.procs[p := Serving(s.pub[Active(s).kid].key)])
    case Run(p) => RunStep(s, s', p)
    case Die(p) => p in s.procs && s' == s.(procs := s.procs - {p})
    case IssueBy(p) =>
      && p in s.procs && s.procs[p].Serving?
      && Active(s).Names? && Active(s).kid in s.priv && s.priv[Active(s).kid].Whole?
      && s' == s.(tokens := s.tokens + {Token(s.procs[p].kid, s.priv[Active(s).kid].key, s.now)})
  }

  ghost predicate Next(s: State, s': State) {
    exists step :: NextStep(s, s', step)
  }

  function Started(a: Kid, t: int): State {
    State(map[a := Whole(a)], map[a := Whole(a)], [Names(a)], 0, None, t, map[], {}, {a}, map[], {})
  }

  /** A directory with one complete, active pair. */
  ghost predicate Init(s: State) {
    exists a: Kid, t: int :: s == Started(a, t)
  }

  ghost predicate Behaviour(b: seq<State>) {
    b != [] && Init(b[0]) && forall i :: 0 <= i < |b| - 1 ==> Next(b[i], b[i + 1])
  }

  // ---- invariant of every interleaving -----------------------------------------------

  /** One of the two names leads to file f. */
  predicate Live(s: State, f: nat) {
    f == s.active || s.temp == Some(f)
  }

  ghost predicate FilesInv(s: State) {
    && s.active < |s.texts| && (s.temp.Some? ==> s.temp.value < |s.texts| && s.temp.value != s.active)
    && (forall f :: 0 <= f < |s.texts| ==> s.texts[f] == Blank || (s.texts[f].Names? && s.texts[f].kid in s.used))
    && (forall f, g :: 0 <= f < g < |s.texts| && s.texts[f].Names? ==> s.texts[f] != s.texts[g])
  }

  /** k is complete on disk and neither retired nor revoked. */
  ghost predicate Usable(s: State, k: Kid) {
    k !in s.retired && k !in s.revoked && Complete(View(s), k)
  }

  ghost predicate LiveInv(s: State) {
    forall f :: 0 <= f < |s.texts| && Live(s, f) && s.texts[f].Names? ==> Usable(s, s.texts[f].kid)
  }

  ghost predicate Unwritten(s: State, k: Kid) {
    forall f :: 0 <= f < |s.texts| ==> s.texts[f] != Names(k)
  }

  ghost predicate ProcInv(s: State, p: nat)
    requires p in s.procs
  {
    match s.procs[p]
    case Rotating(k, n, f) =>
      && k in s.used
      && (n <= 5 ==>
            && Unwritten(s, k) && k !in s.retired && k !in s.revoked
            && (n >= 2 ==> k in s.priv && s.priv[k] == Whole(k))
            && (n >= 4 ==> k in s.pub && s.pub[k] == Whole(k)))
      && (n == 5 ==> f < |s.texts|)
    case Revoking(k, n) => k in s.revoked
    case Serving(k) => Active(s) == Names(k) || k in s.retired
    case Failed(_) => true
  }

  ghost predicate ProcsInv(s: State) {
    && (forall p :: p in s.procs ==> ProcInv(s, p))
    && (forall p, q :: p in s.procs && q in s.procs && p != q && s.procs[p].Rotating? && s.procs[q].Rotating?
          ==> s.procs[p].kid != s.procs[q].kid)
  }

  ghost predicate KeyInv(s: State) {
    && (forall k :: k in s.retired ==> k in s.used && s.retired[k] <= s.now)
    && (forall k :: k in s.retired && k !in s.revoked ==> Complete(View(s), k))
    && (forall k :: k in s.revoked ==> MayRevoke(s, k))
  }

  ghost predicate TokenInv(s: State) {
    forall t :: t in s.tokens ==>
      && t.iat <= s.now
      && (Active(s) == Names(t.signer) || (t.signer in s.retired && t.iat <= s.retired[t.signer]))
  }

  ghost predicate Inv(s: State) {
    FilesInv(s) && LiveInv(s) && ProcsInv(s) && KeyInv(s) && TokenInv(s)
  }

  /** An operation on key files touches only its own key's. */
  lemma ExecLocal(d: Disk, proc: Proc, k: Kid)
    requires KeyOp(proc).Some? && k != proc.kid
    ensures SameFiles(d, Exec(d, KeyOp(proc).value), k)
  {
  }

  lemma KeyOpKeepsInv(s: State, s': State, p: nat)
    requires Inv(s) && RunStep(s, s', p) && KeyOp(s.procs[p]).Some?
    ensures Inv(s')
  {
    var proc := s.procs[p];
    assert ProcInv(s, p);
    hide Exec, KeyOp, RunStep;
    OwnFiles(s, s', p);
    OtherFiles(s, s', p);
    assert Active(s') == Active(s);
    forall q | q in s'.procs ensures ProcInv(s', q) {
      if q != p {
        assert ProcInv(s, q);
        assert s.procs[q].Rotating? && s.procs[q].kid != proc.kid ==> SameFiles(View(s), View(s'), s.procs[q].kid);
      }
    }
    assert LiveInv(s') by {
      forall f | 0 <= f < |s.texts| && Live(s', f) && s.texts[f].Names? ensures Usable(s', s.texts[f].kid) {
        assert Live(s, f) && Usable(s, s.texts[f].kid);
        assert s.texts[f].kid != proc.kid;
        assert SameFiles(View(s), View(s'), s.texts[f].kid);
      }
    }
    assert KeyInv(s') by {
      forall k | k in s'.retired && k !in s'.revoked ensures Complete(View(s'), k) {
        assert k != proc.kid && SameFiles(View(s), View(s'), k);
      }
    }
  }

  lemma OtherFiles(s: State, s': State, p: nat)
    requires RunStep(s, s', p) && KeyOp(s.procs[p]).Some?
    ensures forall k :: k != s.procs[p].kid ==> SameFiles(View(s), View(s'), k)
  {
    hide Exec, OpenTemp, WriteTemp, RenameTemp, KeyOp;
    var op := KeyOp(s.procs[p]).value;
    assert s'.priv == Exec(View(s), op).priv && s'.pub == Exec(View(s), op).pub by {
      KeyOpStage(s.procs[p]);
    }
    forall k | k != s.procs[p].kid ensures SameFiles(View(s), View(s'), k) {
      ExecLocal(View(s), s.procs[p], k);
    }
  }

  lemma KeyOpStage(proc: Proc)
    ensures KeyOp(proc).Some? <==> (proc.Rotating? && proc.stage < 4) || (proc.Revoking? && proc.stage < 2)
  {
  }

  /** The process itself after a key-file operation, and what the operation leaves alone. */
  lemma OwnFiles(s: State, s': State, p: nat)
    requires Inv(s) && RunStep(s, s', p) && KeyOp(s.procs[p]).Some?
    ensures s'.texts == s.texts && s'.active == s.active && s'.temp == s.temp && s'.now == s.now
    ensures s'.tokens == s.tokens && s'.used == s.used && s'.retired == s.retired && s'.revoked == s.revoked
    ensures p in s'.procs && s'.procs == s.procs[p := s'.procs[p]] && ProcInv(s', p)
    ensures s'.procs[p].kid == s.procs[p].kid && (s'.procs[p].Rotating? <==> s.procs[p].Rotating?)
    ensures s.procs[p].Rotating? ==> s.procs[p].stage < 4
    ensures s.procs[p].Rotating? || s.procs[p].Revoking?
  {
    hide LiveInv, KeyInv, TokenInv, FilesInv;
    assert ProcInv(s, p);
  }

  lemma OpenKeepsInv(s: State, p: nat, k: Kid)
    requires Inv(s) && p in s.procs && s.procs[p].Rotating? && s.procs[p].kid == k && s.procs[p].stage == 4
    ensures Inv(OpenTemp(s, p, k))
  {
    var s' := OpenTemp(s, p, k);
    OpenTexts(s, p, k);
    hide Complete, OpenTemp;
    assert KeyInv(s') && TokenInv(s') && LiveInv(s');
    hide KeyInv, TokenInv, LiveInv, FilesInv, Active;
    forall q | q in s'.procs ensures ProcInv(s', q) {
      assert ProcInv(s, q);
    }
  }

  /** Opening changes one process, and blanks a file that ACTIVE does not name or adds a blank one. */
  lemma OpenTexts(s: State, p: nat, k: Kid)
    requires FilesInv(s)
    ensures var s' := OpenTemp(s, p, k);
      && s'.procs == s.procs[p := s'.procs[p]] && s'.procs[p].Rotating? && s'.procs[p].kid == k
      && s'.procs[p].stage == 5 && s'.procs[p].file < |s'.texts|
      && s' == s.(procs := s'.procs, texts := s'.texts, temp := s'.temp)
      && FilesInv(s') && Active(s') == Active(s) && |s.texts| <= |s'.texts|
      && (forall f :: 0 <= f < |s'.texts| ==> s'.texts[f] == Blank || (f < |s.texts| && s'.texts[f] == s.texts[f]))
      && (forall f :: Live(s, f) && s'.temp != Some(f) ==> f == s.active)
      && (forall f :: 0 <= f < |s'.texts| && Live(s', f) && s'.texts[f].Names? ==> f == s.active)
  {
  }

  /** What a change of ACTIVE does to keys and tokens: the one named before is retired. */
  lemma RetireKeeps(s: State, s1: State)
    requires Inv(s) && s1.priv == s.priv && s1.pub == s.pub && s1.now == s.now && s1.tokens == s.tokens
    requires s1.used == s.used && s1.retired == s.retired && s1.revoked == s.revoked
    ensures var s' := Retire(s, s1);
      && s' == s1.(retired := s'.retired)
      && Active(s') == Active(s1) && KeyInv(s') && TokenInv(s')
      && (forall k :: k in s'.retired <==> k in s.retired || (Active(s) == Names(k) && Active(s1) != Active(s)))
  {
    hide ProcsInv;
    if Active(s).Names? {
      assert Usable(s, Active(s).kid);
    }
  }

  lemma WriteKeepsInv(s: State, p: nat, k: Kid, f: nat)
    requires Inv(s) && p in s.procs && s.procs[p] == Rotating(k, 5, f)
    ensures Inv(WriteTemp(s, p, k, f))
  {
    assert ProcInv(s, p);
    var s1 := s.(texts := s.texts[f := Names(k)], procs := s.procs[p := Rotating(k, 6, f)]);
    var s' := WriteTemp(s, p, k, f);
    assert s' == Retire(s, s1);
    RetireKeeps(s, s1);
    hide Complete, Retire, KeyInv, TokenInv;
    forall q | q in s'.procs ensures ProcInv(s', q) {
      assert ProcInv(s, q);
    }
  }

  lemma RenameKeepsInv(s: State, p: nat, k: Kid, f: nat)
    requires Inv(s) && p in s.procs && s.procs[p] == Rotating(k, 6, f)
    ensures Inv(RenameTemp(s, p, k, f))
  {
    assert ProcInv(s, p);
    if s.temp.None? {
      FailKeepsInv(s, p, k);
    } else {
      var s1 := s.(active := s.temp.value, temp := None, procs := s.procs[p := Rotating(k, 7, f)]);
      assert RenameTemp(s, p, k, f) == Retire(s, s1);
      RetireKeeps(s, s1);
      hide Complete, Retire, KeyInv, TokenInv;
      var s' := Retire(s, s1);
      assert FilesInv(s');
      assert LiveInv(s') by {
        assert Live(s, s.temp.value) && Live(s, s.active);
        assert s.texts[s.temp.value].Names? ==> Usable(s, s.texts[s.temp.value].kid);
      }
      hide FilesInv, LiveInv;
      forall q | q in s'.procs ensures ProcInv(s', q) {
        assert ProcInv(s, q);
        assert s.procs[q].Rotating? && s.procs[q].stage <= 5 ==> Active(s) != Names(s.procs[q].kid);
      }
    }
  }

  lemma FailKeepsInv(s: State, p: nat, k: Kid)
    requires Inv(s) && p in s.procs
    ensures Inv(s.(procs := s.procs[p := Failed(k)]))
  {
    var s' := s.(procs := s.procs[p := Failed(k)]);
    assert Active(s') == Active(s) && View(s') == View(s);
    hide Complete, Active, View;
    forall q | q in s'.procs ensures ProcInv(s', q) {
      if q != p {
        assert ProcInv(s, q);
      }
    }
  }

  lemma RunKeepsInv(s: State, s': State, p: nat)
    requires Inv(s) && RunStep(s, s', p)
    ensures Inv(s')
  {
    hide Inv, OpenTemp, WriteTemp, RenameTemp;
    var proc := s.procs[p];
    if KeyOp(proc).Some? {
      KeyOpKeepsInv(s, s', p);
    } else if proc.stage == 4 {
      OpenKeepsInv(s, p, proc.kid);
    } else if proc.stage == 5 {
      WriteKeepsInv(s, p, proc.kid, proc.file);
    } else {
      RenameKeepsInv(s, p, proc.kid, proc.file);
    }
  }

  /** Starting, dying, waiting and issuing: the processes. */
  lemma QuietKeepsProcs(s: State, s': State, step: Step)
    requires Inv(s) && NextStep(s, s', step) && !step.Run?
    ensures ProcsInv(s')
  {
    assert Active(s') == Active(s);
    if step.StartServe? {
      assert Usable(s, Active(s).kid);
    }
    hide Complete, KeyInv, TokenInv, LiveInv;
    forall q | q in s'.procs ensures ProcInv(s', q) {
      if q in s.procs {
        assert ProcInv(s, q);
      }
    }
    if step.StartRotate? {
      forall q | q in s.procs ensures s.procs[q].Rotating? ==> s.procs[q].kid != step.kid {
        assert ProcInv(s, q);
      }
    }
  }

  /** The same steps: files, keys and tokens. */
  lemma QuietKeepsRest(s: State, s': State, step: Step)
    requires Inv(s) && NextStep(s, s', step) && !step.Run?
    ensures FilesInv(s') && LiveInv(s') && KeyInv(s') && TokenInv(s')
  {
    hide ProcsInv;
    assert Active(s') == Active(s);
    if step.IssueBy? {
      assert Usable(s, Active(s).kid);
    }
    hide Complete;
  }

  lemma StepKeepsInv(s: State, s': State, step: Step)
    requires Inv(s) && NextStep(s, s', step)
    ensures Inv(s')
  {
    if step.Run? {
      hide Inv;
      RunKeepsInv(s, s', step.p);
    } else {
      hide FilesInv, LiveInv, ProcsInv, KeyInv, TokenInv, NextStep;
      QuietKeepsProcs(s, s', step);
      QuietKeepsRest(s, s', step);
    }
  }

  lemma NextKeepsInv(s: State, s': State)
    requires Inv(s) && Next(s, s')
    ensures Inv(s')
  {
    hide Inv, NextStep;
    var step :| NextStep(s, s', step);
    StepKeepsInv(s, s', step);
  }

  lemma InitInv(s: State)
    requires Init(s)
    ensures Inv(s) && Active(s).Names?
  {
  }

  lemma {:induction false} InvAlways(b: seq<State>, i: nat)
    requires Behaviour(b) && i < |b|
    ensures Inv(b[i])
  {
    hide Inv, Next, Init;
    if i == 0 {
      InitInv(b[0]);
    } else {
      InvAlways(b, i - 1);
      NextKeepsInv(b[i - 1], b[i]);
    }
  }

  // ---- ACTIVE -------------------------------------------------------------------------

  /** The key a client finds for a kid in the advertised map. */
  function Advertised(d: Disk, kid: Kid): (key: Option<Key>)
    ensures forall x :: key == Some(x) <==> kid in d.priv && kid in d.pub && d.pub[kid] == Whole(x)
  {
    if kid in Kids(d) && d.pub[kid].Whole? then Some(d.pub[kid].key) else None
  }

  /** In every reachable state of every interleaving ACTIVE is blank or names a complete, advertised pair. */
  lemma ActiveBlankOrComplete(b: seq<State>, i: nat)
    requires Behaviour(b) && i < |b|
    ensures Active(b[i]) == Blank || (Active(b[i]).Names? && Complete(View(b[i]), Active(b[i]).kid))
    ensures Active(b[i]).Names? ==> Advertised(View(b[i]), Active(b[i]).kid) == Some(Active(b[i]).kid)
  {
    InvAlways(b, i);
    hide Behaviour, ProcsInv, KeyInv, TokenInv;
    var s := b[i];
    if Active(s).Names? {
      assert Live(s, s.active) && Usable(s, Active(s).kid);
    }
  }

  // ---- revocation ---------------------------------------------------------------------

  /** A revocation that has unlinked a file finds it gone. */
  ghost predicate Unlinked(s: State) {
    forall p :: p in s.procs && s.procs[p].Revoking? ==>
      && (s.procs[p].stage >= 1 ==> s.procs[p].kid !in s.priv)
      && (s.procs[p].stage >= 2 ==> s.procs[p].kid !in s.pub)
  }

  /** Revoked, and no file left. */
  ghost predicate Gone(s: State, k: Kid) {
    k in s.revoked && k !in s.priv && k !in s.pub
  }

  /** Which key files an operation may bring back: only those of a key being minted. */
  lemma RunFiles(s: State, s': State, p: nat)
    requires RunStep(s, s', p)
    ensures forall k :: k in s'.priv && k !in s.priv ==> s.procs[p] == Rotating(k, s.procs[p].stage, s.procs[p].file)
    ensures forall k :: k in s'.pub && k !in s.pub ==> s.procs[p] == Rotating(k, s.procs[p].stage, s.procs[p].file)
    ensures s'.priv != s.priv || s'.pub != s.pub ==> KeyOp(s.procs[p]).Some?
    ensures s'.revoked == s.revoked && p in s'.procs && s'.procs == s.procs[p := s'.procs[p]]
  {
    var proc := s.procs[p];
    KeyOpStage(proc);
    if KeyOp(proc).Some? {
      hide OpenTemp, WriteTemp, RenameTemp, Exec, KeyOp;
      KeyOpFiles(View(s), proc);
    } else {
      hide Exec, OnKeyFiles, KeyOp;
    }
  }

  lemma KeyOpFiles(d: Disk, proc: Proc)
    requires KeyOp(proc).Some?
    ensures var e := Exec(d, KeyOp(proc).value);
      && (forall k :: k in e.priv && k !in d.priv ==> proc.Rotating? && proc.kid == k)
      && (forall k :: k in e.pub && k !in d.pub ==> proc.Rotating? && proc.kid == k)
  {
  }

  /** The revoking process itself. */
  lemma RevokeRuns(s: State, s': State, p: nat)
    requires RunStep(s, s', p) && s.procs[p].Revoking?
    requires s.procs[p].stage >= 1 ==> s.procs[p].kid !in s.priv
    ensures var k := s.procs[p].kid;
      && s'.procs[p] == Revoking(k, s.procs[p].stage + 1) && s'.procs[p].stage <= 2
      && k !in s'.priv && (s'.procs[p].stage == 2 ==> k !in s'.pub)
  {
    hide OpenTemp, WriteTemp, RenameTemp;
  }

  lemma RunKeepsGone(s: State, s': State, p: nat, k: Kid)
    requires Inv(s) && RunStep(s, s', p) && k in s.revoked
    ensures (k !in s.priv ==> k !in s'.priv) && (k !in s.pub ==> k !in s'.pub)
  {
    RunFiles(s, s', p);
    assert ProcInv(s, p);
    var proc := s.procs[p];
    assert proc.Rotating? && proc.stage <= 5 ==> proc.kid !in s.revoked;
    RunStage(s, s', p);
    hide RunStep, ProcInv;
  }

  lemma RunStage(s: State, s': State, p: nat)
    requires p in s.procs
    ensures KeyOp(s.procs[p]).Some? && s.procs[p].Rotating? ==> s.procs[p].stage <= 5
  {
  }

  lemma UnlinkedStep(s: State, s': State, step: Step)
    requires Inv(s) && Unlinked(s) && NextStep(s, s', step)
    ensures Unlinked(s')
  {
    if step.Run? {
      RunFiles(s, s', step.p);
      hide RunStep;
      forall q | q in s'.procs && s'.procs[q].Revoking?
        ensures s'.procs[q].stage >= 1 ==> s'.procs[q].kid !in s'.priv
        ensures s'.procs[q].stage >= 2 ==> s'.procs[q].kid !in s'.pub
      {
        UnlinkedRun(s, s', step.p, q);
      }
    }
  }

  lemma UnlinkedRun(s: State, s': State, p: nat, q: nat)
    requires Inv(s) && Unlinked(s) && RunStep(s, s', p) && q in s'.procs && s'.procs[q].Revoking?
    ensures s'.procs[q].stage >= 1 ==> s'.procs[q].kid !in s'.priv
    ensures s'.procs[q].stage >= 2 ==> s'.procs[q].kid !in s'.pub
  {
    RunFiles(s, s', p);
    if q == p {
      SameKind(s, s', p);
      RevokeRuns(s, s', p);
    } else {
      assert ProcInv(s, q);
      RunKeepsGone(s, s', p, s.procs[q].kid);
    }
  }

  lemma SameKind(s: State, s': State, p: nat)
    requires RunStep(s, s', p) && p in s'.procs && s'.procs[p].Revoking?
    ensures s.procs[p].Revoking?
  {
    hide Exec;
  }

  lemma NextKeepsGone(s: State, s': State, k: Kid)
    requires Inv(s) && Unlinked(s) && Next(s, s')
    ensures Unlinked(s') && (Gone(s, k) ==> Gone(s', k))
  {
    hide Inv, Unlinked, RunStep;
    var step :| NextStep(s, s', step);
    UnlinkedStep(s, s', step);
    if step.Run? && k in s.revoked {
      RunFiles(s, s', step.p);
      RunKeepsGone(s, s', step.p, k);
    }
  }

  lemma {:induction false} UnlinkedAlways(b: seq<State>, i: nat)
    requires Behaviour(b) && i < |b|
    ensures Unlinked(b[i])
  {
    if i == 0 {
    } else {
      StepAt(b, i - 1);
      hide Inv, Next, Unlinked, Behaviour;
      UnlinkedAlways(b, i - 1);
      InvAlways(b, i - 1);
      NextKeepsGone(b[i - 1], b[i], "");
    }
  }

  lemma StepAt(b: seq<State>, i: nat)
    requires Behaviour(b) && i + 1 < |b|
    ensures Next(b[i], b[i + 1])
  {
    hide Next, Init;
  }

  lemma {:induction false} GoneForGood(b: seq<State>, i: nat, j: nat, k: Kid)
    requires Behaviour(b) && i <= j < |b| && Gone(b[i], k)
    ensures Gone(b[j], k)
    decreases j - i
  {
    hide *;
    if i == j {
    } else {
      GoneForGood(b, i, j - 1, k);
      GoneStep(b, j - 1, k);
    }
  }

  lemma GoneStep(b: seq<State>, i: nat, k: Kid)
    requires Behaviour(b) && i + 1 < |b| && Gone(b[i], k)
    ensures Gone(b[i + 1], k)
  {
    hide *;
    StepAt(b, i);
    InvAlways(b, i);
    UnlinkedAlways(b, i);
    NextKeepsGone(b[i], b[i + 1], k);
  }

  /** A revocation that has run to its end leaves neither file of its key, in that state and in every
      later one of every interleaving, and the key is never advertised again. */
  lemma RevokedIsGone(b: seq<State>, i: nat, j: nat, p: nat, k: Kid)
    requires Behaviour(b) && i <= j < |b| && p in b[i].procs && b[i].procs[p] == Revoking(k, 2)
    ensures k !in b[j].priv && k !in b[j].pub && Advertised(View(b[j]), k) == None
  {
    InvAlways(b, i);
    UnlinkedAlways(b, i);
    assert ProcInv(b[i], p) && Gone(b[i], k);
    hide Behaviour, Inv, Unlinked;
    GoneForGood(b, i, j, k);
  }
}
