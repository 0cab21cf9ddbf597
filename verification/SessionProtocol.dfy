/** Concurrent activate, deactivate and touch calls on one session row. With `locks` the row is read
    by SELECT ... FOR UPDATE and held until the commit; without (SQLite) it is a plain read, and the
    commit writes the columns that differ from what was read. An absent row cannot be locked, so two
    activates may both try to insert; the loser hits the primary key and retries. No step deletes the
    row. A call reads the row it returns after its commit, when others may have committed too. */
module SessionProtocol {
  import Json
  import opened Lists
  import opened SessionPacks

  const MAX_RETRIES := 5

  datatype Pc =
    | Called(op: Op, attempt: nat)
    | SawNone(op: Op, attempt: nat)
    | Selected(op: Op, snap: Row)
    | Committed(op: Op, at: nat, changed: bool)
    | Done(op: Op, at: nat, changed: bool, seen: nat, row: Option<Row>)
    | Raised(op: Op)
    | Crashed(op: Op)
    | CrashedAfterCommit(op: Op, at: nat)

  datatype Entry = Entry(c: nat, op: Op)

  /** `log` lists the committed operations in commit order. A call's `at` is its place there, and
      `seen` the number of operations committed when it read back the row. */
  datatype State = State(row: Option<Row>, lock: Option<nat>, calls: map<nat, Pc>, log: seq<Entry>)

  datatype Step =
    | Call(c: nat, op: Op)
    | Select(c: nat)
    | Insert(c: nat)
    | Update(c: nat)
    | Refresh(c: nat)
    | Crash(c: nat)

  /** Write the row an operation computed from `before` and release the lock. An operation that
      found no row to change returns at once. */
  function Commit(s: State, c: nat, op: Op, before: Option<Row>): State {
    var (after, changed) := Apply(before, op);
    var pc := if after.None? then Done(op, |s.log|, changed, |s.log| + 1, after) else Committed(op, |s.log|, changed);
    State(after, Json.None, s.calls[c := pc], s.log + [Entry(c, op)])
  }

  /** A column is written only where the new value differs from the one read. */
  function Stored(current: Option<Row>, read: Row, after: Option<Row>): Option<Row> {
    if current.None? || after.None? then after
    else
      var now, new_ := current.value, after.value;
      Json.Some(Row(if new_.packs == read.packs then now.packs else new_.packs,
                    if new_.activatedAt == read.activatedAt then now.activatedAt else new_.activatedAt,
                    if new_.lastSeen == read.lastSeen then now.lastSeen else new_.lastSeen,
                    if new_.expires == read.expires then now.expires else new_.expires))
  }

  function CommitRead(s: State, c: nat, op: Op, read: Row): State {
    var s' := Commit(s, c, op, Json.Some(read));
    s'.(row := Stored(s.row, read, s'.row))
  }

  /** The call's operation is in the log. */
  predicate Owns(pc: Pc) {
    pc.Committed? || pc.Done? || pc.CrashedAfterCommit?
  }

  predicate Running(pc: Pc) {
    pc.Called? || pc.SawNone? || pc.Selected? || pc.Committed?
  }

  ghost predicate NextStep(locks: bool, s: State, s': State, step: Step) {
    match step
    case Call(c, op) => c !in s.calls && s' == s.(calls := s.calls[c := Called(op, 0)])
    case Select(c) =>
      && c in s.calls && s.calls[c].Called?
      && var op := s.calls[c].op;
      if s.row.None? then
        // deactivate and touch find nothing to change; activate goes on to insert
        s' == (if op.Activate? then s.(calls := s.calls[c := SawNone(op, s.calls[c].attempt)])
               else Commit(s, c, op, s.row))
      else
        && s.lock.None?
        && s' == (if op.Touch? then Commit(s, c, op, s.row)
                  else s.(lock := if locks then Json.Some(c) else Json.None,
                          calls := s.calls[c := Selected(op, s.row.value)]))
    case Insert(c) =>
      && c in s.calls && s.calls[c].SawNone?
      && var op, attempt := s.calls[c].op, s.calls[c].attempt;
      s' == (if s.row.None? then Commit(s, c, op, Json.None)
             else if attempt + 1 >= MAX_RETRIES then s.(calls := s.calls[c := Raised(op)])
             else s.(calls := s.calls[c := Called(op, attempt + 1)]))
    case Update(c) =>
      && c in s.calls && s.calls[c].Selected?
      && s' == CommitRead(s, c, s.calls[c].op, s.calls[c].snap)
    case Refresh(c) =>
      && c in s.calls && s.calls[c].Committed?
      && var pc := s.calls[c];
      s' == s.(calls := s.calls[c := Done(pc.op, pc.at, pc.changed, |s.log|, s.row)])
    case Crash(c) =>
      && c in s.calls && Running(s.calls[c])
      && var pc := s.calls[c];
      s' == s.(lock := if s.lock == Json.Some(c) then Json.None else s.lock,
               calls := s.calls[c := if pc.Committed? then CrashedAfterCommit(pc.op, pc.at) else Crashed(pc.op)])
  }

  ghost predicate Next(locks: bool, s: State, s': State) {
    exists step :: NextStep(locks, s, s', step)
  }

  ghost predicate Behaviour(locks: bool, b: seq<State>) {
    && b != [] && b[0] == State(Json.None, Json.None, map[], [])
    && forall i :: 0 <= i < |b| - 1 ==> Next(locks, b[i], b[i + 1])
  }

  function Ops(log: seq<Entry>): (ops: seq<Op>)
    ensures |ops| == |log| && forall i :: 0 <= i < |log| ==> ops[i] == log[i].op
  {
    seq(|log|, i requires 0 <= i < |log| => log[i].op)
  }

  /** The call's place in commit order, and the flag it reports, are those of the serial run. */
  ghost predicate Logged(log: seq<Entry>, c: nat, op: Op, at: nat) {
    at < |log| && log[at] == Entry(c, op)
  }

  ghost predicate CallInv(s: State, c: nat)
    requires c in s.calls
  {
    match s.calls[c]
    case Called(op, attempt) => attempt <= 1 && (attempt == 1 ==> s.row.Some?)
    case SawNone(op, attempt) => op.Activate? && attempt == 0
    case Selected(op, snap) => s.lock == Json.Some(c) && s.row == Json.Some(snap) && !op.Touch?
    case Committed(op, at, changed) => Logged(s.log, c, op, at) && changed == Changed(Ops(s.log), at)
    case Done(op, at, changed, seen, row) =>
      && Logged(s.log, c, op, at) && changed == Changed(Ops(s.log), at)
      && at < seen <= |s.log| && row == Run(Ops(s.log[..seen]))
    case Raised(_) => false
    case Crashed(_) => true
    case CrashedAfterCommit(op, at) => Logged(s.log, c, op, at)
  }

  ghost predicate Inv(s: State) {
    && s.row == Run(Ops(s.log))
    && (s.lock.Some? ==> s.lock.value in s.calls && s.calls[s.lock.value].Selected?)
    && (forall i :: 0 <= i < |s.log| ==>
          s.log[i].c in s.calls && Owns(s.calls[s.log[i].c]) && s.calls[s.log[i].c].at == i)
    && (forall c :: c in s.calls ==> CallInv(s, c))
  }

  lemma OpsSnoc(log: seq<Entry>, e: Entry)
    ensures Ops(log + [e]) == Ops(log) + [e.op] && Ops(log + [e])[..|log|] == Ops(log)
    ensures Run(Ops(log + [e])) == Apply(Run(Ops(log)), e.op).0
  {
    assert Ops(log + [e])[..|log|] == Ops(log);
  }

  /** Growing the log changes no flag and no row that a call has reported. */
  lemma OpsKept(log: seq<Entry>, e: Entry, k: nat)
    requires k <= |log|
    ensures Ops((log + [e])[..k]) == Ops(log[..k])
    ensures k < |log| ==> Changed(Ops(log + [e]), k) == Changed(Ops(log), k)
  {
    assert (log + [e])[..k] == log[..k];
    assert Ops(log + [e])[..k] == Ops(log)[..k];
  }

  lemma CallKept(s: State, s': State, d: nat)
    requires d in s.calls && d in s'.calls && s'.calls[d] == s.calls[d] && CallInv(s, d)
    requires exists e :: s'.log == s.log + [e]
    requires !s.calls[d].Selected? && (s.row.Some? ==> s'.row.Some?)
    ensures CallInv(s', d)
  {
    hide Apply, Run, Ops, Changed;
    var e :| s'.log == s.log + [e];
    var pc := s.calls[d];
    if Owns(pc) {
      OpsKept(s.log, e, pc.at);
    }
    if pc.Done? {
      OpsKept(s.log, e, pc.seen);
    }
  }

  lemma NewFlag(log: seq<Entry>, e: Entry)
    ensures Changed(Ops(log + [e]), |log|) == Apply(Run(Ops(log)), e.op).1
  {
    OpsSnoc(log, e);
  }

  /** A committed operation, computed from the current row, keeps the invariant. */
  lemma CommitKeepsInv(s: State, c: nat, op: Op)
    requires Inv(s) && c in s.calls && !Owns(s.calls[c])
    requires s.lock.None? || s.lock == Json.Some(c)
    ensures Inv(Commit(s, c, op, s.row))
  {
    var s', e := Commit(s, c, op, s.row), Entry(c, op);
    OpsSnoc(s.log, e);
    NewFlag(s.log, e);
    RowStays(s.row, op);
    hide Apply, Run, Ops, Changed;
    assert s'.log[..|s'.log|] == s'.log;
    forall d | d in s'.calls ensures CallInv(s', d) {
      if d != c {
        assert CallInv(s, d);
        CallKept(s, s', d);
      }
    }
  }

  lemma RowStays(row: Option<Row>, op: Op)
    ensures row.Some? ==> Apply(row, op).0.Some?
  {
  }

  lemma CurrentRead(s: State, c: nat, op: Op, read: Row)
    requires s.row == Json.Some(read)
    ensures CommitRead(s, c, op, read) == Commit(s, c, op, s.row)
  {
    hide Apply;
  }

  /** A step that commits nothing and moves only call c keeps the invariant. */
  lemma QuietKeepsInv(s: State, s': State, c: nat)
    requires Inv(s)
    requires c in s.calls && Owns(s.calls[c]) ==>
      c in s'.calls && Owns(s'.calls[c]) && s'.calls[c].at == s.calls[c].at
    requires s'.row == s.row && s'.log == s.log
    requires c in s'.calls && s'.calls == s.calls[c := s'.calls[c]] && CallInv(s', c)
    requires s'.lock == s.lock || s.lock.None? || s.lock == Json.Some(c)
    requires s'.lock.Some? ==> s'.lock.value in s'.calls && s'.calls[s'.lock.value].Selected?
    ensures Inv(s')
  {
    hide Apply, Run, Ops, Changed;
    forall i | 0 <= i < |s'.log|
      ensures s'.log[i].c in s'.calls && Owns(s'.calls[s'.log[i].c]) && s'.calls[s'.log[i].c].at == i
    {
      assert s.log[i].c in s.calls;
    }
    forall d | d in s'.calls ensures CallInv(s', d) {
      if d != c {
        assert CallInv(s, d);
      }
    }
  }

  lemma InvFacts(s: State, c: nat)
    requires Inv(s)
    ensures c in s.calls ==> CallInv(s, c)
    ensures s.row == Run(Ops(s.log[..|s.log|]))
    ensures s.lock.Some? ==> s.lock.value in s.calls && s.calls[s.lock.value].Selected? && CallInv(s, s.lock.value)
  {
    hide CallInv, Run, Ops;
    assert s.log[..|s.log|] == s.log;
  }

  lemma StepKeepsInv(s: State, s': State, step: Step)
    requires Inv(s) && NextStep(true, s, s', step)
    ensures Inv(s')
  {
    hide Inv, Apply, Run, Ops, Changed;
    var c := step.c;
    InvFacts(s, c);
    if step.Call? {
      QuietKeepsInv(s, s', c);
    } else {
      if |s'.log| == |s.log| {
        QuietKeepsInv(s, s', c);
      } else {
        if step.Update? {
          CurrentRead(s, c, s.calls[c].op, s.calls[c].snap);
        }
        CommitKeepsInv(s, c, s.calls[c].op);
      }
    }
  }

  lemma NextKeepsInv(s: State, s': State)
    requires Inv(s) && Next(true, s, s')
    ensures Inv(s')
  {
    var step :| NextStep(true, s, s', step);
    StepKeepsInv(s, s', step);
  }

  lemma {:induction false} InvAlways(b: seq<State>, i: nat)
    requires Behaviour(true, b) && i < |b|
    ensures Inv(b[i])
  {
    if i == 0 {
    } else {
      hide Inv, Next;
      InvAlways(b, i - 1);
      NextKeepsInv(b[i - 1], b[i]);
    }
  }

  /** The flag is the one the serial run gives at the call's place in commit order, and the row is
      the serial row of a moment between the call's own commit and now. */
  ghost predicate ReportIsSerial(s: State, c: nat)
    requires c in s.calls && s.calls[c].Done?
  {
    var pc := s.calls[c];
    && Logged(s.log, c, pc.op, pc.at) && pc.changed == Changed(Ops(s.log), pc.at)
    && pc.at < pc.seen <= |s.log| && pc.row == Run(Ops(s.log)[..pc.seen])
  }

  /** Every interleaving equals the serial run in commit order: the stored row, every `changed`
      flag and, as of the moment it was read back, every returned row; one log entry per call. */
  lemma Serializable(b: seq<State>, i: nat)
    requires Behaviour(true, b) && i < |b|
    ensures b[i].row == Run(Ops(b[i].log))
    ensures forall c :: c in b[i].calls && b[i].calls[c].Done? ==> ReportIsSerial(b[i], c)
    ensures forall k :: 0 <= k < |b[i].log| ==>
      b[i].log[k].c in b[i].calls && Owns(b[i].calls[b[i].log[k].c]) && b[i].calls[b[i].log[k].c].at == k
  {
    InvAlways(b, i);
    hide Behaviour;
    var s := b[i];
    forall c | c in s.calls && s.calls[c].Done? ensures ReportIsSerial(s, c) {
      assert CallInv(s, c);
      assert Ops(s.log[..s.calls[c].seen]) == Ops(s.log)[..s.calls[c].seen];
    }
  }

  lemma LastRow(log: seq<Entry>)
    requires log != []
    ensures var at := |log| - 1;
      (Run(Ops(log)), Changed(Ops(log), at)) == Apply(Run(Ops(log)[..at]), log[at].op)
  {
    hide Apply;
  }

  /** A call returns the row of its own commit exactly when nobody has committed in between: the
      last log entry at its refresh is its own. Then the row is what its operation computed. */
  lemma OwnRowIff(b: seq<State>, i: nat, c: nat)
    requires Behaviour(true, b) && i + 1 < |b| && NextStep(true, b[i], b[i + 1], Refresh(c))
    ensures var s, pc := b[i], b[i + 1].calls[c];
      && pc.Done? && pc.seen == |s.log| > 0
      && (pc.seen == pc.at + 1 <==> s.log[|s.log| - 1].c == c)
      && (pc.seen == pc.at + 1 ==> (pc.row, pc.changed) == Apply(Run(Ops(s.log)[..pc.at]), pc.op))
  {
    InvAlways(b, i);
    hide Apply, Run, Ops, Changed, Behaviour;
    var s, at := b[i], b[i].calls[c].at;
    assert CallInv(s, c);
    assert s.log[at].c == c;
    if at + 1 == |s.log| {
      LastRow(s.log);
    }
  }

  lemma Extend(locks: bool, b: seq<State>, s: State, step: Step) returns (longer: seq<State>)
    requires Behaviour(locks, b) && NextStep(locks, b[|b| - 1], s, step)
    ensures longer == b + [s] && Behaviour(locks, longer)
  {
    hide NextStep;
    longer := b + [s];
    forall i | 0 <= i < |longer| - 1 ensures Next(locks, longer[i], longer[i + 1]) {
      if i == |b| - 1 {
        assert NextStep(locks, longer[i], longer[i + 1], step);
      } else {
        assert longer[i] == b[i] && longer[i + 1] == b[i + 1];
      }
    }
  }

  /** The witness: an activate that changed the list returns a row without its pack, because a
      deactivate committed between its commit and its refresh. */
  lemma ReturnsWithoutItsPack(pack: string) returns (b: seq<State>)
    requires pack != ""
    ensures Behaviour(true, b)
    ensures var s := b[|b| - 1];
      && 1 in s.calls && s.calls[1].Done? && s.calls[1].op == Activate(pack, 0) && s.calls[1].changed
      && s.calls[1].row.Some? && s.calls[1].row.value.packs == []
  {
    var on, off := Activate(pack, 0), Deactivate(pack, 0);
    var r1, r2 := Row([pack], 0, 0, TTL), Row([], 0, 0, TTL);
    OnThenOff(pack);
    hide Dedupe, Apply;
    var log1 := [Entry(1, on)];
    b := [State(Json.None, Json.None, map[], [])];
    b := Extend(true, b, State(Json.None, Json.None, map[1 := Called(on, 0)], []), Call(1, on));
    b := Extend(true, b, State(Json.None, Json.None, map[1 := SawNone(on, 0)], []), Select(1));
    var c1 := Committed(on, 0, true);
    b := Extend(true, b, State(Json.Some(r1), Json.None, map[1 := c1], log1), Insert(1));
    b := Extend(true, b, State(Json.Some(r1), Json.None, map[1 := c1, 2 := Called(off, 0)], log1), Call(2, off));
    b := Extend(true, b, State(Json.Some(r1), Json.Some(2), map[1 := c1, 2 := Selected(off, r1)], log1), Select(2));
    var log2, c2 := log1 + [Entry(2, off)], Committed(off, 1, true);
    b := Extend(true, b, State(Json.Some(r2), Json.None, map[1 := c1, 2 := c2], log2), Update(2));
    var d1 := Done(on, 0, true, 2, Json.Some(r2));
    b := Extend(true, b, State(Json.Some(r2), Json.None, map[1 := d1, 2 := c2], log2), Refresh(1));
  }

  lemma OnThenOff(pack: string)
    requires pack != ""
    ensures Apply(Json.None, Activate(pack, 0)) == (Json.Some(Row([pack], 0, 0, TTL)), true)
    ensures Apply(Json.Some(Row([pack], 0, 0, TTL)), Deactivate(pack, 0)) == (Json.Some(Row([], 0, 0, TTL)), true)
  {
    DedupeClean([pack]);
    assert [pack][1..] == [] && Remove([pack], pack) == [];
  }

  /** Operation k put the pack on the list (again), and nothing had taken it off when the row was read back. */
  ghost predicate StillOn(ops: seq<Op>, pack: string, k: int) {
    ActivatedAt(ops, pack, k) && !DroppedIn(ops, pack, k, |ops|)
  }

  /** An activate returns a list with its pack if and only if, when it reads the row back, its own
      activation or a later one of the pack has not been dropped. */
  lemma PackReturnedIff(b: seq<State>, i: nat, c: nat, ids: set<string>)
    requires Behaviour(true, b) && i < |b| && c in b[i].calls && b[i].calls[c].Done? && b[i].calls[c].op.Activate?
    requires "" !in ids && Over(Ops(b[i].log), ids)
    ensures var pc := b[i].calls[c];
      && pc.at < pc.seen <= |b[i].log|
      && (pc.op.pack in Packs(pc.row) <==> exists k :: pc.at <= k && StillOn(Ops(b[i].log)[..pc.seen], pc.op.pack, k))
  {
    Serializable(b, i);
    hide Behaviour, Run, Live, LiveUpTo;
    var s, pc := b[i], b[i].calls[c];
    assert ReportIsSerial(s, c);
    var ops := Ops(s.log)[..pc.seen];
    ListIsLivePacks(ops, ids);
    ListedSince(ops, pc.op.pack, pc.at);
  }

  lemma ListedSince(ops: seq<Op>, pack: string, at: nat)
    requires ActivatedAt(ops, pack, at)
    ensures pack in LiveUpTo(ops, |ops|) <==> exists k :: at <= k && StillOn(ops, pack, k)
  {
    hide LiveUpTo;
    ListedIff(ops, pack, |ops|);
    if pack in LiveUpTo(ops, |ops|) {
      var i: nat :| i < |ops| && Live(ops, i) && ops[i].pack == pack;
      assert StillOn(ops, pack, if i < at then at else i);
    }
    if k :| at <= k && StillOn(ops, pack, k) {
      var live := FindLive(ops, pack, k);
    }
  }

  /** The witness on a database without row locks: two activates read [a]; both commit; the first
      one's pack is gone although nobody deactivated it. */
  lemma LosesUpdate(a: string, p: string, q: string) returns (b: seq<State>)
    requires a != "" && p != "" && q != "" && a != p && a != q && p != q
    ensures Behaviour(false, b)
    ensures var s := b[|b| - 1];
      && s.row.Some? && s.row.value.packs == [a, q]
      && s.log == [Entry(0, Activate(a, 0)), Entry(1, Activate(p, 0)), Entry(2, Activate(q, 0))]
      && Packs(Run(Ops(s.log))) == [a, p, q]
  {
    var x, y, z := Activate(a, 0), Activate(p, 0), Activate(q, 0);
    var r1, r2, r3 := Row([a], 0, 0, TTL), Row([a, p], 0, 0, TTL), Row([a, q], 0, 0, TTL);
    ThreeActivates(a, p, q);
    hide Apply, Run, Ops, Dedupe;
    var log1 := [Entry(0, x)];
    var c0 := Committed(x, 0, true);
    b := [State(Json.None, Json.None, map[], [])];
    b := Extend(false, b, State(Json.None, Json.None, map[0 := Called(x, 0)], []), Call(0, x));
    b := Extend(false, b, State(Json.None, Json.None, map[0 := SawNone(x, 0)], []), Select(0));
    b := Extend(false, b, State(Json.Some(r1), Json.None, map[0 := c0], log1), Insert(0));
    b := ReadBoth(b, r1, log1, c0, y, z);
    var log2, log3 := log1 + [Entry(1, y)], [Entry(0, x), Entry(1, y), Entry(2, z)];
    var c1, c2 := Committed(y, 1, true), Committed(z, 2, true);
    var calls2 := map[0 := c0, 1 := c1, 2 := Selected(z, r1)];
    b := Extend(false, b, State(Json.Some(r2), Json.None, calls2, log2), Update(1));
    b := Extend(false, b, State(Json.Some(r3), Json.None, map[0 := c0, 1 := c1, 2 := c2], log3), Update(2));
  }

  /** Calls 1 and 2 both read the row. */
  lemma ReadBoth(b: seq<State>, r: Row, log: seq<Entry>, c0: Pc, y: Op, z: Op) returns (longer: seq<State>)
    requires Behaviour(false, b) && b[|b| - 1] == State(Json.Some(r), Json.None, map[0 := c0], log)
    requires y.Activate? && z.Activate?
    ensures Behaviour(false, longer)
    ensures longer[|longer| - 1]
      == State(Json.Some(r), Json.None, map[0 := c0, 1 := Selected(y, r), 2 := Selected(z, r)], log)
  {
    var s := b[|b| - 1];
    var sy, sz := Selected(y, r), Selected(z, r);
    longer := Extend(false, b, s.(calls := map[0 := c0, 1 := Called(y, 0)]), Call(1, y));
    longer := Extend(false, longer, s.(calls := map[0 := c0, 1 := sy]), Select(1));
    longer := Extend(false, longer, s.(calls := map[0 := c0, 1 := sy, 2 := Called(z, 0)]), Call(2, z));
    longer := Extend(false, longer, s.(calls := map[0 := c0, 1 := sy, 2 := sz]), Select(2));
  }

  lemma ThreeActivates(a: string, p: string, q: string)
    requires a != "" && p != "" && q != "" && a != p && a != q && p != q
    ensures Apply(Json.None, Activate(a, 0)) == (Json.Some(Row([a], 0, 0, TTL)), true)
    ensures Apply(Json.Some(Row([a], 0, 0, TTL)), Activate(p, 0)) == (Json.Some(Row([a, p], 0, 0, TTL)), true)
    ensures Apply(Json.Some(Row([a], 0, 0, TTL)), Activate(q, 0)) == (Json.Some(Row([a, q], 0, 0, TTL)), true)
    ensures Packs(Run(Ops([Entry(0, Activate(a, 0)), Entry(1, Activate(p, 0)), Entry(2, Activate(q, 0))]))) == [a, p, q]
  {
    Adds([], a);
    Adds([a], p);
    Adds([a], q);
    Adds([a, p], q);
    assert [a] + [p] == [a, p] && [a] + [q] == [a, q] && [a, p] + [q] == [a, p, q];
    hide Apply, Run;
    var x, y, z := Activate(a, 0), Activate(p, 0), Activate(q, 0);
    OpsThree(x, y, z);
    hide Ops;
    RunThree(x, y, z);
  }

  lemma OpsThree(x: Op, y: Op, z: Op)
    ensures Ops([Entry(0, x), Entry(1, y), Entry(2, z)]) == [x, y, z]
  {
  }

  lemma RunThree(x: Op, y: Op, z: Op)
    ensures Run([x, y, z]) == Apply(Apply(Apply(Json.None, x).0, y).0, z).0
  {
    RunNone();
    hide Apply, Run;
    assert [x, y, z][..2] == [x, y] && [x, y][..1] == [x] && [x][..0] == [];
    RunSnoc([x]);
    RunSnoc([x, y]);
    RunSnoc([x, y, z]);
  }

  lemma RunNone()
    ensures Run([]) == Json.None
  {
  }

  lemma Adds(packs: seq<string>, x: string)
    requires Clean(packs) && x !in packs
    ensures Apply(Json.None, Activate(x, 0)) == (Json.Some(Row([x], 0, 0, TTL)), true)
    ensures Apply(Json.Some(Row(packs, 0, 0, TTL)), Activate(x, 0)) == (Json.Some(Row(packs + [x], 0, 0, TTL)), true)
  {
    DedupeClean(packs);
    hide Dedupe;
  }

  /** Every behaviour stores the row of its serial history if and only if the database has row locks. */
  lemma SerializableIffLocks(locks: bool)
    ensures (forall b: seq<State>, i: nat :: Behaviour(locks, b) && i < |b| ==> b[i].row == Run(Ops(b[i].log)))
      <==> locks
  {
    hide Run, Ops;
    if locks {
      forall b: seq<State>, i: nat | Behaviour(locks, b) && i < |b| ensures b[i].row == Run(Ops(b[i].log)) {
        Serializable(b, i);
      }
    } else {
      var b := LosesUpdate("a", "p", "q");
      assert Packs(b[|b| - 1].row) == ["a", "q"];
      assert ["a", "q"] != ["a", "p", "q"];
      assert b[|b| - 1].row != Run(Ops(b[|b| - 1].log));
    }
  }

  /** No lost update: with non-empty ids the stored list is the live packs in activation order,
      free of duplicates, as long as the changed activates minus the changed deactivates. */
  lemma NoLostUpdate(b: seq<State>, i: nat, ids: set<string>)
    requires Behaviour(true, b) && i < |b| && "" !in ids && Over(Ops(b[i].log), ids)
    ensures Packs(b[i].row) == LiveUpTo(Ops(b[i].log), |b[i].log|) && NoDup(Packs(b[i].row))
    ensures |Packs(b[i].row)| == Score(Ops(b[i].log))
  {
    InvAlways(b, i);
    ListIsLivePacks(Ops(b[i].log), ids);
    RunClean(Ops(b[i].log), ids);
  }

  /** An activate meets at most one insert collision, so the retry budget is never spent. */
  lemma RetryBudgetNeverSpent(b: seq<State>, i: nat, c: nat)
    requires Behaviour(true, b) && i < |b| && c in b[i].calls
    ensures !b[i].calls[c].Raised?
    ensures b[i].calls[c].Called? ==> b[i].calls[c].attempt <= 1
    ensures b[i].calls[c].SawNone? ==> b[i].calls[c].attempt == 0
  {
    InvAlways(b, i);
    assert CallInv(b[i], c);
  }
}
