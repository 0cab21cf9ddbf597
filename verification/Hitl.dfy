/** Human-in-the-loop decisions: approve and reject calls racing on version-checked rows.
    A call loads the item in one step and commits `UPDATE ... WHERE version = seen` in another;
    the row lock some databases add only removes interleavings. */
module Hitl {
  import opened Json

  datatype Status = Pending | Approved | Rejected

  datatype Item = Item(version: nat, status: Status, approver: Option<string>, note: Option<string>,
                       tsDecided: Option<int>)

  /** `approve` and `reject` are the only callers, so the new status is never pending. */
  datatype Decision = Decision(item: nat, approve: bool, approver: string, note: Option<string>)

  datatype Pc =
    | Called(d: Decision)
    | Loaded(d: Decision, seen: nat)
    | Won(d: Decision, ts: int)
    | NotFound(d: Decision)
    | AlreadyDecided(d: Decision)
    | Stale(d: Decision)
    | Crashed(d: Decision)

  datatype State = State(items: map<nat, Item>, calls: map<nat, Pc>)

  datatype Step =
    | Enqueue(item: nat)
    | Call(c: nat, d: Decision)
    | Load(c: nat)
    | Commit(c: nat, ts: int)
    | Crash(c: nat)

  /** The mapper numbers a new row 1 and adds one on every committed update. */
  function Fresh(): Item {
    Item(1, Pending, None, None, None)
  }

  function Decide(it: Item, d: Decision, ts: int): Item {
    Item(it.version + 1, if d.approve then Approved else Rejected, Some(d.approver), d.note, Some(ts))
  }

  function LoadPc(s: State, d: Decision): Pc {
    if d.item !in s.items then NotFound(d)
    else if s.items[d.item].status != Pending then AlreadyDecided(d)
    else Loaded(d, s.items[d.item].version)
  }

  ghost predicate NextStep(s: State, s': State, step: Step) {
    match step
    case Enqueue(x) => x !in s.items && s' == s.(items := s.items[x := Fresh()])
    case Call(c, d) => c !in s.calls && s' == s.(calls := s.calls[c := Called(d)])
    case Load(c) =>
      c in s.calls && s.calls[c].Called? && s' == s.(calls := s.calls[c := LoadPc(s, s.calls[c].d)])
    case Commit(c, ts) =>
      && c in s.calls && s.calls[c].Loaded? && s.calls[c].d.item in s.items
      && var d, it := s.calls[c].d, s.items[s.calls[c].d.item];
      && s' == (if it.version == s.calls[c].seen
                then State(s.items[d.item := Decide(it, d, ts)], s.calls[c := Won(d, ts)])
                else s.(calls := s.calls[c := Stale(d)]))
    case Crash(c) =>
      && c in s.calls && (s.calls[c].Called? || s.calls[c].Loaded?)
      && s' == s.(calls := s.calls[c := Crashed(s.calls[c].d)])
  }

  ghost predicate Next(s: State, s': State) {
    exists step :: NextStep(s, s', step)
  }

  ghost predicate Behaviour(b: seq<State>) {
    && b != [] && b[0] == State(map[], map[])
    && forall i :: 0 <= i < |b| - 1 ==> Next(b[i], b[i + 1])
  }

  ghost predicate WonItem(s: State, c: nat, x: nat) {
    c in s.calls && s.calls[c].Won? && s.calls[c].d.item == x
  }

  ghost predicate HasWinner(s: State, x: nat) {
    exists c: nat :: WonItem(s, c, x)
  }

  /** The row carries the decision of call c. */
  ghost predicate Reflects(it: Item, pc: Pc)
    requires pc.Won?
  {
    it == Decide(Fresh(), pc.d, pc.ts)
  }

  ghost predicate Inv(s: State) {
    && (forall x :: x in s.items ==> if s.items[x].status == Pending then s.items[x] == Fresh() else HasWinner(s, x))
    && (forall c :: c in s.calls && s.calls[c].Loaded? ==> s.calls[c].d.item in s.items && s.calls[c].seen == 1)
    && (forall c, x :: WonItem(s, c, x) ==> x in s.items && Reflects(s.items[x], s.calls[c]))
    && (forall c, d, x :: WonItem(s, c, x) && WonItem(s, d, x) ==> c == d)
  }

  lemma StepKeepsInv(s: State, s': State, step: Step)
    requires Inv(s) && NextStep(s, s', step)
    ensures Inv(s')
    ensures forall x :: x in s.items && s.items[x].status != Pending ==> x in s'.items && s'.items[x] == s.items[x]
    ensures forall c, x :: WonItem(s, c, x) ==> WonItem(s', c, x) && s'.calls[c] == s.calls[c]
  {
    if step.Commit? && s.items[s.calls[step.c].d.item].version == s.calls[step.c].seen {
      WinKeepsInv(s, s', step);
    } else {
      forall c, x ensures WonItem(s', c, x) <==> WonItem(s, c, x) {
      }
      forall x | HasWinner(s, x) ensures HasWinner(s', x) {
        var c: nat :| WonItem(s, c, x);
        assert WonItem(s', c, x);
      }
    }
  }

  /** The winning commit: nobody had won its item before. */
  lemma WinKeepsInv(s: State, s': State, step: Step)
    requires Inv(s) && NextStep(s, s', step) && step.Commit?
    requires s.items[s.calls[step.c].d.item].version == s.calls[step.c].seen
    ensures Inv(s')
    ensures forall x :: x in s.items && s.items[x].status != Pending ==> x in s'.items && s'.items[x] == s.items[x]
    ensures forall c, x :: WonItem(s, c, x) ==> WonItem(s', c, x) && s'.calls[c] == s.calls[c]
  {
    var win, y := step.c, s.calls[step.c].d.item;
    assert !HasWinner(s, y);
    forall c: nat ensures !WonItem(s, c, y) {
    }
    forall c: nat, x: nat ensures WonItem(s', c, x) <==> WonItem(s, c, x) || (c == win && x == y) {
    }
    assert HasWinner(s', y);
    forall x | HasWinner(s, x) ensures HasWinner(s', x) {
      var c: nat :| WonItem(s, c, x);
      assert WonItem(s', c, x);
    }
  }

  lemma NextKeepsInv(s: State, s': State)
    requires Inv(s) && Next(s, s')
    ensures Inv(s')
    ensures forall x :: x in s.items && s.items[x].status != Pending ==> x in s'.items && s'.items[x] == s.items[x]
  {
    var step :| NextStep(s, s', step);
    StepKeepsInv(s, s', step);
  }

  lemma {:induction false} InvAlways(b: seq<State>, i: nat)
    requires Behaviour(b) && i < |b|
    ensures Inv(b[i])
  {
    if i == 0 {
    } else {
      InvAlways(b, i - 1);
      NextKeepsInv(b[i - 1], b[i]);
    }
  }

  /** Once an item is decided, its row never changes again, in any later state. */
  lemma {:induction false} DecisionIsFinal(b: seq<State>, i: nat, j: nat, x: nat)
    requires Behaviour(b) && i <= j < |b| && x in b[i].items && b[i].items[x].status != Pending
    ensures x in b[j].items && b[j].items[x] == b[i].items[x]
  {
    if i == j {
    } else {
      DecisionIsFinal(b, i, j - 1, x);
      InvAlways(b, j - 1);
      assert Next(b[j - 1], b[j - 1 + 1]);
      NextKeepsInv(b[j - 1], b[j]);
    }
  }

  /** A decided item has exactly one winning call, and status, approver, note and time are that call's. */
  lemma OneWinner(b: seq<State>, i: nat, x: nat)
    requires Behaviour(b) && i < |b| && x in b[i].items
    ensures b[i].items[x].status != Pending <==> HasWinner(b[i], x)
    ensures b[i].items[x].status == Pending ==>
      b[i].items[x].approver.None? && b[i].items[x].note.None? && b[i].items[x].tsDecided.None?
    ensures forall c, d :: WonItem(b[i], c, x) && WonItem(b[i], d, x) ==> c == d
    ensures forall c :: WonItem(b[i], c, x) ==>
      var it, d := b[i].items[x], b[i].calls[c].d;
      && it.status == (if d.approve then Approved else Rejected)
      && it.approver == Some(d.approver) && it.note == d.note && it.tsDecided == Some(b[i].calls[c].ts)
  {
    InvAlways(b, i);
  }

  /** A call that loads or commits once the item is decided fails. */
  lemma LosersFail(b: seq<State>, i: nat, c: nat, step: Step)
    requires Behaviour(b) && i + 1 < |b| && NextStep(b[i], b[i + 1], step)
    requires (step.Load? || step.Commit?) && step.c == c && b[i].calls[c].d.item in b[i].items
    ensures b[i].items[b[i].calls[c].d.item].status != Pending
      ==> b[i + 1].calls[c].AlreadyDecided? || b[i + 1].calls[c].Stale?
    ensures b[i].items[b[i].calls[c].d.item].status == Pending
      ==> b[i + 1].calls[c].Loaded? || b[i + 1].calls[c].Won?
  {
    InvAlways(b, i);
    var x := b[i].calls[c].d.item;
    if b[i].items[x].status != Pending {
      var w: nat :| WonItem(b[i], w, x);
    }
  }

  /** A call whose item does not exist ends as not found, and that is the only way to end so. */
  lemma MissingIsNotFound(s: State, s': State, step: Step)
    requires NextStep(s, s', step) && step.Load?
    ensures s'.calls[step.c].NotFound? <==> s.calls[step.c].d.item !in s.items
    ensures s'.items == s.items && s'.calls[step.c].d == s.calls[step.c].d
    ensures forall c :: c in s.calls && c != step.c ==> c in s'.calls && s'.calls[c] == s.calls[c]
  {
  }
}
