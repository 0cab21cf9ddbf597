/** Who may replace ACTIVE at the same time: the shared temporary file is safe for one writer and for
    no more. */
module ActiveMarker {
  import opened Json
  import opened KeyStore
  import opened KeyRotation

  /** The process has opened the temporary file and not renamed it yet. */
  predicate Writing(proc: Proc) {
    proc.Rotating? && 5 <= proc.stage <= 6
  }

  function Writers(s: State): set<nat> {
    set p | p in s.procs && Writing(s.procs[p])
  }

  ghost predicate AtMost(b: seq<State>, n: nat) {
    forall i :: 0 <= i < |b| ==> |Writers(b[i])| <= n
  }

  /** The writer's file is still the temporary one, and holds its kid once it is written. */
  ghost predicate Alone(s: State) {
    && Active(s).Names? && (forall p :: p in s.procs ==> !s.procs[p].Failed?)
    && forall p :: p in s.procs && Writing(s.procs[p]) ==>
         var w := s.procs[p];
         s.temp == Some(w.file) && w.file < |s.texts| && (w.stage == 6 ==> s.texts[w.file] == Names(w.kid))
  }

  lemma OneMember(ws: set<nat>, p: nat, q: nat)
    requires |ws| <= 1 && p in ws && q in ws
    ensures p == q
  {
    assert ws - {p} == {} by {
      assert |ws - {p}| == 0;
    }
    assert q == p || q in ws - {p};
  }

  lemma AloneStep(s: State, s': State, step: Step)
    requires Inv(s) && Alone(s) && NextStep(s, s', step) && |Writers(s)| <= 1 && |Writers(s')| <= 1
    ensures Alone(s')
  {
    if step.Run? {
      hide Inv, Alone, Writers;
      AloneRun(s, s', step.p);
    } else {
      hide Inv, Complete, Writers;
      assert Active(s') == Active(s);
      hide Active;
    }
  }

  lemma AloneRun(s: State, s': State, p: nat)
    requires Inv(s) && Alone(s) && RunStep(s, s', p) && |Writers(s)| <= 1 && |Writers(s')| <= 1
    ensures Alone(s')
  {
    hide ProcsInv, LiveInv, KeyInv, TokenInv, Exec, OpenTemp, WriteTemp, RenameTemp;
    var proc := s.procs[p];
    OthersStay(s, s', p);
    if KeyOp(proc).Some? {
      assert Active(s') == Active(s);
    } else {
      OwnWrite(s, s', p);
      hide RunStep, Writers, FilesInv, Active;
      forall q | q in s'.procs && Writing(s'.procs[q]) ensures q == p {
        OnlyWriter(s, s', p, q);
      }
    }
  }

  lemma OwnWrite(s: State, s': State, p: nat)
    requires FilesInv(s) && Alone(s) && RunStep(s, s', p) && KeyOp(s.procs[p]).None?
    ensures Active(s').Names? && !s'.procs[p].Failed?
    ensures Writing(s'.procs[p]) ==>
      var w := s'.procs[p];
      s'.temp == Some(w.file) && w.file < |s'.texts| && (w.stage == 6 ==> s'.texts[w.file] == Names(w.kid))
  {
    hide OnKeyFiles;
  }

  lemma OthersStay(s: State, s': State, p: nat)
    requires RunStep(s, s', p)
    ensures p in s'.procs && s'.procs == s.procs[p := s'.procs[p]]
    ensures KeyOp(s.procs[p]).Some? ==> !Writing(s'.procs[p]) && !s'.procs[p].Failed?
    ensures KeyOp(s.procs[p]).None? ==> Writing(s.procs[p]) || Writing(s'.procs[p])
  {
    hide Exec;
  }

  lemma OnlyWriter(s: State, s': State, p: nat, q: nat)
    requires p in s.procs && p in s'.procs && s'.procs == s.procs[p := s'.procs[p]]
    requires Writing(s.procs[p]) || Writing(s'.procs[p])
    requires q in s'.procs && Writing(s'.procs[q]) && |Writers(s)| <= 1 && |Writers(s')| <= 1
    ensures q == p
  {
    if q != p {
      if Writing(s.procs[p]) {
        OneMember(Writers(s), p, q);
      } else {
        OneMember(Writers(s'), p, q);
      }
    }
  }

  lemma NextAlone(s: State, s': State)
    requires Inv(s) && Alone(s) && Next(s, s') && |Writers(s)| <= 1 && |Writers(s')| <= 1
    ensures Alone(s')
  {
    hide Inv, Alone, NextStep, Writers;
    var step :| NextStep(s, s', step);
    AloneStep(s, s', step);
  }

  lemma InitAlone(s: State)
    requires Init(s)
    ensures Alone(s)
  {
  }

  lemma {:induction false} AloneAlways(b: seq<State>, i: nat)
    requires Behaviour(b) && AtMost(b, 1) && i < |b|
    ensures Alone(b[i])
  {
    hide Inv, Next, Init, Alone, Writers;
    if i == 0 {
      InitAlone(b[0]);
    } else {
      AloneAlways(b, i - 1);
      InvAlways(b, i - 1);
      NextAlone(b[i - 1], b[i]);
    }
  }

  // ---- the race on the temporary file ---------------------------------------------------

  ghost predicate Bounded(b: seq<State>, n: nat) {
    b != [] && Behaviour(b) && AtMost(b, n)
  }

  lemma Extend(b: seq<State>, s: State, step: Step, n: nat) returns (longer: seq<State>)
    requires Bounded(b, n) && NextStep(b[|b| - 1], s, step) && |Writers(s)| <= n
    ensures longer == b + [s] && Bounded(longer, n)
  {
    hide NextStep, Init, Writers;
    longer := b + [s];
    assert longer[0] == b[0];
    forall i | 0 <= i < |longer| - 1 ensures Next(longer[i], longer[i + 1]) {
      if i == |b| - 1 {
        assert NextStep(longer[i], longer[i + 1], step);
      } else {
        assert longer[i] == b[i] && longer[i + 1] == b[i + 1];
      }
    }
  }

  /** Process p has done n of the four key-file operations of minting k. */
  function Minting(s: State, p: nat, k: Kid, n: nat): State {
    s.(priv := if n == 0 then s.priv else s.priv[k := if n == 1 then Torn else Whole(k)],
       pub := if n <= 2 then s.pub else s.pub[k := if n == 3 then Torn else Whole(k)],
       procs := s.procs[p := Rotating(k, n, 0)], used := s.used + {k})
  }

  /** It stands before opening the temporary file. */
  function Minted(s: State, p: nat, k: Kid): State {
    Minting(s, p, k, 4)
  }

  lemma MintStep(s: State, p: nat, k: Kid, n: nat)
    requires p !in s.procs && k !in s.used && n < 4
    ensures n == 0 ==> NextStep(s, Minting(s, p, k, 0), StartRotate(p, k))
    ensures NextStep(Minting(s, p, k, n), Minting(s, p, k, n + 1), Run(p))
  {
    var x, y := Minting(s, p, k, n), Minting(s, p, k, n + 1);
    assert x.procs[p := Rotating(k, n + 1, 0)] == y.procs;
    assert n == 1 ==> x.priv[k := Whole(k)] == y.priv;
    assert n == 3 ==> x.pub[k := Whole(k)] == y.pub;
  }

  lemma MintWriters(s: State, p: nat, k: Kid, n: nat)
    requires p !in s.procs && n <= 4
    ensures Writers(Minting(s, p, k, n)) == Writers(s)
  {
  }

  lemma {:induction false} MintTo(b: seq<State>, p: nat, k: Kid, m: nat, n: nat) returns (longer: seq<State>)
    requires Bounded(b, n) && p !in b[|b| - 1].procs && k !in b[|b| - 1].used && m <= 4
    ensures Bounded(longer, n) && longer[|longer| - 1] == Minting(b[|b| - 1], p, k, m)
    decreases m
  {
    var s := b[|b| - 1];
    assert |Writers(s)| <= n;
    hide NextStep, Behaviour, AtMost, Minting, Writers;
    MintWriters(s, p, k, m);
    if m == 0 {
      MintStep(s, p, k, 0);
      longer := Extend(b, Minting(s, p, k, 0), StartRotate(p, k), n);
    } else {
      MintStep(s, p, k, m - 1);
      longer := MintTo(b, p, k, m - 1, n);
      longer := Extend(longer, Minting(s, p, k, m), Run(p), n);
    }
  }

  /** Operations 4, 5 and 6 of a rotation extend a behaviour. */
  lemma Go(b: seq<State>, s: State, p: nat, n: nat) returns (longer: seq<State>)
    requires Bounded(b, n) && p in b[|b| - 1].procs && b[|b| - 1].procs[p].Rotating? && |Writers(s)| <= n
    requires var last, proc := b[|b| - 1], b[|b| - 1].procs[p];
      || (proc.stage == 4 && s == OpenTemp(last, p, proc.kid))
      || (proc.stage == 5 && s == WriteTemp(last, p, proc.kid, proc.file))
      || (proc.stage == 6 && s == RenameTemp(last, p, proc.kid, proc.file))
    ensures longer == b + [s] && Bounded(longer, n)
  {
    hide Behaviour, AtMost, OpenTemp, WriteTemp, RenameTemp, Writers;
    assert RunStep(b[|b| - 1], s, p);
    longer := Extend(b, s, Run(p), n);
  }

  lemma Origin(a: Kid, t: int, n: nat) returns (b: seq<State>)
    ensures Bounded(b, n) && b == [Started(a, t)]
    ensures Writers(Started(a, t)) == {}
  {
    b := [Started(a, t)];
    assert Writers(b[0]) == {};
  }

  lemma FewWriters(s: State, p: nat, q: nat)
    requires forall x :: x in s.procs && Writing(s.procs[x]) ==> x == p || x == q
    ensures |Writers(s)| <= 2
  {
    assert Writers(s) <= {p, q};
    Subset(Writers(s), {p, q});
  }

  lemma {:induction false} Subset(a: set<nat>, b: set<nat>)
    requires a <= b
    ensures |a| <= |b|
  {
    assert b == a + (b - a);
  }

  /** Process 0 wrote the temporary file, process 1 opened it with truncation, process 0 renamed it. */
  function Raced(a: Kid, k: Kid, k': Kid): State {
    var s := Minted(Ready(Started(a, 0), 0, a, k), 1, k');
    s.(texts := [Names(a), Blank], active := 1, temp := None, retired := map[a := 0],
       procs := map[0 := Rotating(k, 7, 1), 1 := Rotating(k', 5, 1)])
  }

  lemma Race(a: Kid, k: Kid, k': Kid) returns (b: seq<State>)
    requires a != k && a != k' && k != k'
    ensures Bounded(b, 2) && b[|b| - 1] == Raced(a, k, k')
  {
    hide Behaviour, AtMost, Writers, NextStep, Minting;
    b := Origin(a, 0, 2);
    var s0 := Started(a, 0);
    b := Written(b, 0, a, k);
    var s2 := Ready(s0, 0, a, k);
    MintedIs(s0, 0, k);
    b := MintTo(b, 1, k', 4, 2);
    var s4 := RaceSteps(a, k, k');
    hide OpenTemp, RenameTemp, Minted, Ready, Raced;
    b := Go(b, s4, 1, 2);
    b := Go(b, Raced(a, k, k'), 0, 2);
  }

  lemma RaceSteps(a: Kid, k: Kid, k': Kid) returns (s4: State)
    requires a != k && a != k' && k != k'
    ensures var s3 := Minted(Ready(Started(a, 0), 0, a, k), 1, k');
      && 1 in s3.procs && s3.procs[1] == Rotating(k', 4, 0) && s4 == OpenTemp(s3, 1, k')
    ensures 0 in s4.procs && s4.procs[0] == Rotating(k, 6, 1) && Raced(a, k, k') == RenameTemp(s4, 0, k, 1)
    ensures |Writers(s4)| <= 2 && |Writers(Raced(a, k, k'))| <= 2
  {
    hide Minting, Writers;
    var s2 := Ready(Started(a, 0), 0, a, k);
    MintedIs(Started(a, 0), 0, k);
    MintedIs(s2, 1, k');
    var s3 := Minted(s2, 1, k');
    s4 := s3.(texts := [Names(a), Blank], procs := s3.procs[1 := Rotating(k', 5, 1)]);
    FewWriters(s4, 0, 1);
    FewWriters(Raced(a, k, k'), 0, 1);
    assert s4 == OpenTemp(s3, 1, k');
  }

  lemma RacedFiles(a: Kid, k: Kid, k': Kid)
    requires a != k && a != k' && k != k'
    ensures Complete(View(Raced(a, k, k')), k) && Complete(View(Raced(a, k, k')), k')
  {
    MintedIs(Started(a, 0), 0, k);
    MintedIs(Ready(Started(a, 0), 0, a, k), 1, k');
  }

  /** The witness: after the race process 1 dies. ACTIVE is blank, no process is left to fill it, and
      both new pairs are complete. */
  lemma RaceBlanks(a: Kid, k: Kid, k': Kid) returns (b: seq<State>)
    requires a != k && a != k' && k != k'
    ensures Bounded(b, 2)
    ensures var s := b[|b| - 1];
      && Active(s) == Blank && s.procs == map[0 := Rotating(k, 7, 1)]
      && Complete(View(s), k) && Complete(View(s), k')
  {
    b := Race(a, k, k');
    RacedFiles(a, k, k');
    hide Behaviour, AtMost, Writers, NextStep, Minting;
    var s5 := Raced(a, k, k');
    var s6 := s5.(procs := s5.procs - {1});
    FewWriters(s6, 0, 1);
    Dies(s5, 1);
    b := Extend(b, s6, Die(1), 2);
    assert s6.procs == map[0 := Rotating(k, 7, 1)];
  }

  /** The other witness: process 1 goes on. It writes into ACTIVE itself, and then its rename fails. */
  lemma RaceFails(a: Kid, k: Kid, k': Kid) returns (b: seq<State>)
    requires a != k && a != k' && k != k'
    ensures Bounded(b, 2)
    ensures var s := b[|b| - 1];
      Active(s) == Names(k') && 1 in s.procs && s.procs[1] == Failed(k')
  {
    b := Race(a, k, k');
    hide Behaviour, AtMost, Writers, NextStep, Minting;
    var s5 := Raced(a, k, k');
    var s6 := WriteTemp(s5, 1, k', 1);
    assert s6.procs[1] == Rotating(k', 6, 1) && s6.temp.None?;
    FewWriters(s6, 0, 1);
    b := Go(b, s6, 1, 2);
    var s7 := RenameTemp(s6, 1, k', 1);
    FewWriters(s7, 0, 1);
    b := Go(b, s7, 1, 2);
  }

  lemma Dies(s: State, p: nat)
    requires p in s.procs
    ensures NextStep(s, s.(procs := s.procs - {p}), Die(p))
  {
  }

  lemma MintedIs(s: State, p: nat, k: Kid)
    ensures Minted(s, p, k) == s.(priv := s.priv[k := Whole(k)], pub := s.pub[k := Whole(k)],
                                  procs := s.procs[p := Rotating(k, 4, 0)], used := s.used + {k})
  {
  }

  /** From a start state, process p has minted k and written the temporary file. */
  function Ready(s: State, p: nat, a: Kid, k: Kid): State {
    Minted(s, p, k).(texts := [Names(a), Names(k)], temp := Some(1), procs := s.procs[p := Rotating(k, 6, 1)])
  }

  lemma Written(b: seq<State>, p: nat, a: Kid, k: Kid) returns (longer: seq<State>)
    requires Bounded(b, 2) && b[|b| - 1].texts == [Names(a)] && b[|b| - 1].active == 0 && b[|b| - 1].temp == None
    requires p !in b[|b| - 1].procs && k !in b[|b| - 1].used && Writers(b[|b| - 1]) == {}
    ensures Bounded(longer, 2) && longer[|longer| - 1] == Ready(b[|b| - 1], p, a, k)
  {
    var s := b[|b| - 1];
    assert forall q :: q in s.procs && Writing(s.procs[q]) ==> q in Writers(s);
    hide Behaviour, AtMost, Writers, NextStep, Minting;
    longer := MintTo(b, p, k, 4, 2);
    MintedIs(s, p, k);
    var s0 := Minted(s, p, k);
    var s1 := s0.(texts := [Names(a), Blank], temp := Some(1), procs := s.procs[p := Rotating(k, 5, 1)]);
    var s2 := Ready(s, p, a, k);
    FewWriters(s1, p, p);
    FewWriters(s2, p, p);
    assert s1 == OpenTemp(s0, p, k);
    longer := Go(longer, s1, p, 2);
    assert s2 == WriteTemp(s1, p, k, 1);
    longer := Go(longer, s2, p, 2);
  }

  /** ACTIVE names a complete pair in every state of every behaviour with at most n processes between
      opening and renaming the temporary file, if and only if n is at most one. */
  lemma NeverBlankIffOneWriter(n: nat)
    ensures (forall b: seq<State>, i: nat :: Bounded(b, n) && i < |b| ==> Active(b[i]).Names?) <==> n <= 1
  {
    hide Behaviour, AtMost, Active;
    if n <= 1 {
      forall b: seq<State>, i: nat | Bounded(b, n) && i < |b| ensures Active(b[i]).Names? {
        Loosen(b, n, 1);
        AloneNames(b, i);
      }
    } else {
      var b := RaceBlanks("a", "b", "c");
      Loosen(b, 2, n);
      assert !Active(b[|b| - 1]).Names?;
    }
  }

  lemma AloneNames(b: seq<State>, i: nat)
    requires Bounded(b, 1) && i < |b|
    ensures Active(b[i]).Names? && forall p :: p in b[i].procs ==> !b[i].procs[p].Failed?
  {
    AloneAlways(b, i);
  }

  /** No rotation ever fails, in any behaviour with at most n such processes, if and only if n is at
      most one. */
  lemma NoFailureIffOneWriter(n: nat)
    ensures (forall b: seq<State>, i: nat, p: nat ::
               Bounded(b, n) && i < |b| && p in b[i].procs ==> !b[i].procs[p].Failed?) <==> n <= 1
  {
    hide Behaviour, AtMost, Active;
    if n <= 1 {
      forall b: seq<State>, i: nat, p: nat | Bounded(b, n) && i < |b| && p in b[i].procs
        ensures !b[i].procs[p].Failed?
      {
        Loosen(b, n, 1);
        AloneNames(b, i);
      }
    } else {
      var b := RaceFails("a", "b", "c");
      Loosen(b, 2, n);
      assert b[|b| - 1].procs[1].Failed?;
    }
  }

  lemma Loosen(b: seq<State>, m: nat, n: nat)
    requires Bounded(b, m) && m <= n
    ensures Bounded(b, n)
  {
    hide Behaviour, Writers;
  }
}
