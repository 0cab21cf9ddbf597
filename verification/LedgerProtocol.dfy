/** Concurrent `append` calls on one ledger table, any number of workers, as a step protocol.
    Every call loops: read the tail in a fresh session, insert a row, commit or hit a unique
    constraint and retry. The only cross-worker guards are UNIQUE(prev), UNIQUE(h) and the
    primary key. A fresh id exceeds every id committed when it was drawn; that covers a
    sequence that burns ids and a max-plus-one row id alike. */
module LedgerProtocol {
  import opened Json
  import opened Chain

  datatype Job = Job(tenant: string, subject: string, body: Body, token: string, maxRetries: nat)

  /** History of one call: log length when it began, attempts lost on prev, attempts lost otherwise. */
  datatype Tally = Tally(start: nat, lost: nat, clash: nat)

  /** `seen` is the log length at the tail read; `at` the position of the committed row. */
  datatype Pc =
    | Ready(job: Job, t: Tally)
    | Read(job: Job, t: Tally, seen: nat, prev: string)
    | Inserted(job: Job, t: Tally, seen: nat, row: Row)
    | Committed(job: Job, at: nat)
    | Returned(job: Job, at: nat)
    | CrashedAfterCommit(job: Job, at: nat)
    | Raised(job: Job, t: Tally)
    | Crashed(job: Job)

  /** `log` is the table in commit order, `writer[i]` the call that committed log[i]. */
  datatype State = State(log: seq<Row>, writer: seq<nat>, calls: map<nat, Pc>)

  datatype Step =
    | Start(c: nat, job: Job)
    | ReadTail(c: nat)
    | InsertRow(c: nat, id: int, ts: int)
    | Commit(c: nat)
    | Conflict(c: nat)
    | Return(c: nat)
    | Crash(c: nat)

  /** SELECT ... ORDER BY id DESC LIMIT 1, reduced to its digest. */
  function TailHash(rows: seq<Row>): string {
    HashBefore(OrderById(rows), |OrderById(rows)|)
  }

  predicate PrevTaken(log: seq<Row>, r: Row) {
    exists i :: 0 <= i < |log| && log[i].prev == r.prev
  }

  predicate OtherTaken(log: seq<Row>, r: Row) {
    exists i :: 0 <= i < |log| && (log[i].h == r.h || log[i].id == r.id)
  }

  function Attempts(t: Tally): nat {
    t.lost + t.clash
  }

  function MakeRow(p: Primitives, job: Job, prev: string, id: int, ts: int): Row {
    Row(id, ts, job.tenant, job.subject, prev, job.body, job.token, ChainHash(p, prev, job.body, job.token))
  }

  function Retry(log: seq<Row>, pc: Pc): Pc
    requires pc.Inserted?
  {
    var t := if PrevTaken(log, pc.row) then pc.t.(lost := pc.t.lost + 1) else pc.t.(clash := pc.t.clash + 1);
    if Attempts(t) >= pc.job.maxRetries then Raised(pc.job, t) else Ready(pc.job, t)
  }

  ghost predicate NextStep(p: Primitives, s: State, s': State, step: Step) {
    match step
    case Start(c, job) =>
      && c !in s.calls && '|' !in job.token
      && var t := Tally(|s.log|, 0, 0);
      && s' == s.(calls := s.calls[c := if job.maxRetries == 0 then Raised(job, t) else Ready(job, t)])
    case ReadTail(c) =>
      && c in s.calls && s.calls[c].Ready?
      && s' == s.(calls := s.calls[c := Read(s.calls[c].job, s.calls[c].t, |s.log|, TailHash(s.log))])
    case InsertRow(c, id, ts) =>
      && c in s.calls && s.calls[c].Read? && 0 < id
      && (forall i :: 0 <= i < |s.log| ==> s.log[i].id < id)
      && var pc := s.calls[c];
      && s' == s.(calls := s.calls[c := Inserted(pc.job, pc.t, pc.seen, MakeRow(p, pc.job, pc.prev, id, ts))])
    case Commit(c) =>
      && c in s.calls && s.calls[c].Inserted?
      && !PrevTaken(s.log, s.calls[c].row) && !OtherTaken(s.log, s.calls[c].row)
      && s' == State(s.log + [s.calls[c].row], s.writer + [c], s.calls[c := Committed(s.calls[c].job, |s.log|)])
    case Conflict(c) =>
      && c in s.calls && s.calls[c].Inserted?
      && (PrevTaken(s.log, s.calls[c].row) || OtherTaken(s.log, s.calls[c].row))
      && s' == s.(calls := s.calls[c := Retry(s.log, s.calls[c])])
    case Return(c) =>
      && c in s.calls && s.calls[c].Committed?
      && s' == s.(calls := s.calls[c := Returned(s.calls[c].job, s.calls[c].at)])
    case Crash(c) =>
      && c in s.calls
      && var pc := s.calls[c];
      && (pc.Ready? || pc.Read? || pc.Inserted? || pc.Committed?)
      && s' == s.(calls := s.calls[c := if pc.Committed? then CrashedAfterCommit(pc.job, pc.at) else Crashed(pc.job)])
  }

  ghost predicate Next(p: Primitives, s: State, s': State) {
    exists step :: NextStep(p, s, s', step)
  }

  ghost predicate Behaviour(p: Primitives, b: seq<State>) {
    && b != [] && b[0] == State([], [], map[])
    && forall i :: 0 <= i < |b| - 1 ==> Next(p, b[i], b[i + 1])
  }

  // ---- inductive invariant -------------------------------------------------------

  predicate Owns(pc: Pc) {
    pc.Committed? || pc.Returned? || pc.CrashedAfterCommit?
  }

  ghost predicate Carries(r: Row, job: Job) {
    r.tenant == job.tenant && r.matter == job.subject && r.body == job.body && r.token == job.token
  }

  ghost predicate CallInv(p: Primitives, s: State, c: nat)
    requires c in s.calls
  {
    var pc := s.calls[c];
    && '|' !in pc.job.token
    && (pc.Ready? || pc.Raised? ==> pc.t.start + pc.t.lost <= |s.log|)
    && (pc.Ready? ==> Attempts(pc.t) < pc.job.maxRetries)
    && (pc.Raised? ==> Attempts(pc.t) == pc.job.maxRetries)
    && (pc.Read? || pc.Inserted? ==>
          && pc.t.start + pc.t.lost <= pc.seen <= |s.log| && Attempts(pc.t) < pc.job.maxRetries)
    && (pc.Read? ==> pc.prev == HashBefore(s.log, pc.seen))
    && (pc.Inserted? ==>
          && pc.row.prev == HashBefore(s.log, pc.seen) && 0 < pc.row.id
          && pc.row == MakeRow(p, pc.job, pc.row.prev, pc.row.id, pc.row.ts)
          && forall i :: 0 <= i < pc.seen ==> s.log[i].id < pc.row.id)
    && (Owns(pc) ==> pc.at < |s.log| && |s.writer| == |s.log| && s.writer[pc.at] == c && Carries(s.log[pc.at], pc.job))
  }

  ghost predicate LogInv(p: Primitives, log: seq<Row>) {
    && Linked(p, log) && Increasing(log) && PlainTokens(log)
    && (forall i, j :: 0 <= i < j < |log| ==> log[i].h != log[j].h)
    && forall i :: 0 <= i < |log| ==> 0 < log[i].id
  }

  /** The writer list is the inverse of the calls' positions. */
  ghost predicate WriterInv(s: State) {
    && |s.writer| == |s.log|
    && forall i :: 0 <= i < |s.log| ==>
         s.writer[i] in s.calls && Owns(s.calls[s.writer[i]]) && s.calls[s.writer[i]].at == i
  }

  ghost predicate Inv(p: Primitives, s: State) {
    && LogInv(p, s.log) && WriterInv(s)
    && forall c :: c in s.calls ==> CallInv(p, s, c)
  }

  lemma TailOfOrdered(log: seq<Row>)
    requires Increasing(log)
    ensures OrderById(log) == log && TailHash(log) == HashBefore(log, |log|)
  {
    OrderedAlready(log);
  }

  lemma LinkedPrev(p: Primitives, log: seq<Row>, i: nat)
    requires Linked(p, log) && i < |log|
    ensures log[i].prev == HashBefore(log, i)
  {
    assert LinkedAt(p, log, i);
  }

  /** A call whose tail has been superseded finds its prev taken. */
  lemma StaleTailIsTaken(p: Primitives, s: State, c: nat)
    requires Inv(p, s) && c in s.calls && s.calls[c].Inserted? && !PrevTaken(s.log, s.calls[c].row)
    ensures s.calls[c].seen == |s.log|
  {
    assert CallInv(p, s, c);
    var seen := s.calls[c].seen;
    if seen < |s.log| {
      LinkedPrev(p, s.log, seen);
    }
  }

  lemma CommitKeepsLog(p: Primitives, s: State, c: nat)
    requires Inv(p, s) && c in s.calls && s.calls[c].Inserted?
    requires !PrevTaken(s.log, s.calls[c].row) && !OtherTaken(s.log, s.calls[c].row)
    ensures LogInv(p, s.log + [s.calls[c].row])
  {
    StaleTailIsTaken(p, s, c);
    assert CallInv(p, s, c);
    var log := s.log + [s.calls[c].row];
    forall i | 0 <= i < |log| ensures LinkedAt(p, log, i) {
      if i < |s.log| {
        assert LinkedAt(p, s.log, i);
      }
    }
  }

  /** Growing the log leaves every other call's bookkeeping intact. */
  lemma CallKept(p: Primitives, s: State, s': State, c: nat)
    requires c in s.calls && c in s'.calls && s'.calls[c] == s.calls[c] && CallInv(p, s, c)
    requires s.log <= s'.log && s.writer <= s'.writer && |s.writer| == |s.log| && |s'.writer| == |s'.log|
    ensures CallInv(p, s', c)
  {
  }

  lemma StepCall(p: Primitives, s: State, s': State, step: Step)
    requires HexDigest(p) && Inv(p, s) && NextStep(p, s, s', step)
    ensures step.c in s'.calls && CallInv(p, s', step.c)
  {
    hide LogInv, OrderById, PrevTaken, OtherTaken, Linked, HexDigest;
    if step.Conflict? {
      hide CallInv, Inv, Retry;
      RetryKeepsCall(p, s, step.c);
    } else if step.ReadTail? || step.InsertRow? {
      hide CallInv, Inv;
      PrepareKeepsCall(p, s, s', step);
    } else if !step.Start? {
      assert CallInv(p, s, step.c);
    }
  }

  /** Reading the tail and inserting. */
  lemma PrepareKeepsCall(p: Primitives, s: State, s': State, step: Step)
    requires Inv(p, s) && NextStep(p, s, s', step) && (step.ReadTail? || step.InsertRow?)
    ensures step.c in s'.calls && CallInv(p, s', step.c)
  {
    hide LogInv, OrderById, PrevTaken, OtherTaken, Linked;
    assert CallInv(p, s, step.c);
    if step.ReadTail? {
      TailOfLog(p, s.log);
      hide TailHash;
    }
  }

  lemma TailOfLog(p: Primitives, log: seq<Row>)
    requires LogInv(p, log)
    ensures TailHash(log) == HashBefore(log, |log|)
  {
    TailOfOrdered(log);
  }

  lemma RetryKeepsCall(p: Primitives, s: State, c: nat)
    requires HexDigest(p) && Inv(p, s) && c in s.calls && s.calls[c].Inserted?
    ensures CallInv(p, s.(calls := s.calls[c := Retry(s.log, s.calls[c])]), c)
  {
    if PrevTaken(s.log, s.calls[c].row) {
      ConflictMeansCommit(p, s, c);
    }
    assert CallInv(p, s, c);
  }

  /** A conflict on prev happens only after the log grew past the tail that was read. */
  lemma ConflictMeansCommit(p: Primitives, s: State, c: nat)
    requires HexDigest(p) && Inv(p, s) && c in s.calls && s.calls[c].Inserted? && PrevTaken(s.log, s.calls[c].row)
    ensures s.calls[c].seen < |s.log|
  {
    assert CallInv(p, s, c);
    var i :| 0 <= i < |s.log| && s.log[i].prev == s.calls[c].row.prev;
    assert LinkedAt(p, s.log, i) && LinkedAt(p, s.log, |s.log| - 1);
  }

  lemma StepKeepsInv(p: Primitives, s: State, s': State, step: Step)
    requires HexDigest(p) && Inv(p, s) && NextStep(p, s, s', step)
    ensures Inv(p, s') && s.log <= s'.log
  {
    StepCall(p, s, s', step);
    if step.Commit? {
      CommitKeepsLog(p, s, step.c);
    }
    forall i | 0 <= i < |s'.log|
      ensures s'.writer[i] in s'.calls && Owns(s'.calls[s'.writer[i]]) && s'.calls[s'.writer[i]].at == i
    {
      if i < |s.log| {
        assert s.writer[i] in s.calls && Owns(s.calls[s.writer[i]]);
      }
    }
    forall c | c in s'.calls ensures CallInv(p, s', c) {
      if c != step.c {
        assert CallInv(p, s, c);
        CallKept(p, s, s', c);
      }
    }
  }

  // ---- whole runs ----------------------------------------------------------------

  lemma NextKeepsInv(p: Primitives, s: State, s': State)
    requires HexDigest(p) && Inv(p, s) && Next(p, s, s')
    ensures Inv(p, s') && s.log <= s'.log
  {
    var step :| NextStep(p, s, s', step);
    StepKeepsInv(p, s, s', step);
  }

  lemma {:induction false} InvAlways(p: Primitives, b: seq<State>, i: nat)
    requires HexDigest(p) && Behaviour(p, b) && i < |b|
    ensures Inv(p, b[i])
  {
    if i == 0 {
    } else {
      hide Inv, Next, HexDigest;
      InvAlways(p, b, i - 1);
      NextKeepsInv(p, b[i - 1], b[i]);
    }
  }

  /** In every reachable state the rows in id order are one linear chain: `verify_chain` holds. */
  lemma ChainAlwaysVerifies(p: Primitives, b: seq<State>, i: nat)
    requires HexDigest(p) && Behaviour(p, b) && i < |b|
    ensures OrderById(b[i].log) == b[i].log && Increasing(b[i].log)
    ensures Linked(p, OrderById(b[i].log))
    ensures forall k :: 0 <= k < |b[i].log| ==> 0 < b[i].log[k].id
  {
    InvAlways(p, b, i);
    OrderedAlready(b[i].log);
  }

  /** The committed rows of an earlier state are a prefix of those of any later state. */
  lemma {:induction false} AppendOnly(p: Primitives, b: seq<State>, i: nat, j: nat)
    requires HexDigest(p) && Behaviour(p, b) && i <= j < |b|
    ensures b[i].log <= b[j].log
  {
    hide Inv, Next, HexDigest;
    if i == j {
    } else {
      AppendOnly(p, b, i, j - 1);
      InvAlways(p, b, j - 1);
      NextKeepsInv(p, b[j - 1], b[j]);
    }
  }

  ghost predicate OwnsAt(s: State, c: nat, k: nat) {
    c in s.calls && Owns(s.calls[c]) && s.calls[c].at == k
  }

  ghost predicate HasOwner(s: State, k: nat) {
    exists c: nat :: OwnsAt(s, c, k)
  }

  /** Calls that own a row and rows of the table correspond one to one, and the row is the call's. */
  ghost predicate OneRowPerCall(s: State) {
    && (forall k: nat :: k < |s.log| ==> HasOwner(s, k))
    && (forall c: nat, d: nat, k: nat :: OwnsAt(s, c, k) && OwnsAt(s, d, k) ==> c == d)
    && (forall c: nat, k: nat :: OwnsAt(s, c, k) ==> k < |s.log| && Carries(s.log[k], s.calls[c].job))
  }

  lemma RowsMatchCalls(p: Primitives, b: seq<State>, i: nat)
    requires HexDigest(p) && Behaviour(p, b) && i < |b|
    ensures OneRowPerCall(b[i])
  {
    InvAlways(p, b, i);
    hide LogInv, Behaviour, HexDigest;
    var s := b[i];
    forall k: nat | k < |s.log| ensures HasOwner(s, k) {
      assert OwnsAt(s, s.writer[k], k);
    }
    forall c: nat, k: nat | OwnsAt(s, c, k)
      ensures k < |s.log| && s.writer[k] == c && Carries(s.log[k], s.calls[c].job)
    {
      assert CallInv(p, s, c);
    }
  }

  predicate Undecided(pc: Pc) {
    pc.Raised? || pc.Ready? || pc.Read? || pc.Inserted?
  }

  ghost predicate BeganAt(b: seq<State>, c: nat, k: nat, start: nat) {
    k + 1 < |b| && c !in b[k].calls && c in b[k + 1].calls && |b[k].log| == start
  }

  lemma StartKept(p: Primitives, s: State, s': State, c: nat)
    requires Next(p, s, s') && c in s'.calls && Undecided(s'.calls[c])
    ensures c in s.calls ==> Undecided(s.calls[c]) && s.calls[c].t.start == s'.calls[c].t.start
    ensures c !in s.calls ==> s'.calls[c].t.start == |s.log|
  {
    var step :| NextStep(p, s, s', step);
  }

  /** `start` really is the length of the log when the call began. */
  lemma {:induction false} StartIsHonest(p: Primitives, b: seq<State>, i: nat, c: nat)
    requires Behaviour(p, b) && i < |b| && c in b[i].calls && Undecided(b[i].calls[c])
    ensures exists k: nat :: k < i && BeganAt(b, c, k, b[i].calls[c].t.start)
  {
    hide Next;
    if i == 0 {
    } else {
      StartKept(p, b[i - 1], b[i], c);
      if c in b[i - 1].calls {
        StartIsHonest(p, b, i - 1, c);
      } else {
        assert BeganAt(b, c, i - 1, b[i].calls[c].t.start);
      }
    }
  }

  /** A clash (a unique violation while prev is free) hands over a digest collision with a stored row. */
  lemma ClashMeansCollision(p: Primitives, b: seq<State>, i: nat, c: nat)
    requires HexDigest(p) && Behaviour(p, b) && i < |b|
    requires c in b[i].calls && b[i].calls[c].Inserted?
    requires OtherTaken(b[i].log, b[i].calls[c].row) && !PrevTaken(b[i].log, b[i].calls[c].row)
    ensures exists k :: 0 <= k < |b[i].log| && Collide(p, b[i].calls[c].row, b[i].log[k])
  {
    InvAlways(p, b, i);
    var s, r := b[i], b[i].calls[c].row;
    assert CallInv(p, s, c);
    StaleTailIsTaken(p, s, c);
    var k :| 0 <= k < |s.log| && (s.log[k].h == r.h || s.log[k].id == r.id);
    var q := s.log[k];
    assert LinkedAt(p, s.log, k);
    if Preimage(p, q.prev, q.body, q.token) == Preimage(p, r.prev, r.body, r.token) {
      PrevIsPlain(p, s.log, k);
      HashIsPlain(p, s.log, |s.log|);
      JoinInjective(q.prev, p.canon(q.body), q.token, r.prev, p.canon(r.body), r.token);
    }
    assert Collide(p, r, q);
  }

  lemma HashIsPlain(p: Primitives, log: seq<Row>, n: nat)
    requires HexDigest(p) && Linked(p, log) && n <= |log|
    ensures '|' !in HashBefore(log, n)
  {
    if n > 0 {
      assert LinkedAt(p, log, n - 1);
    }
  }

  /** In state k the pending row of call c collides with a stored row. */
  ghost predicate CollidesAt(p: Primitives, b: seq<State>, c: nat, k: nat) {
    && k < |b| && c in b[k].calls && b[k].calls[c].Inserted?
    && exists m :: 0 <= m < |b[k].log| && Collide(p, b[k].calls[c].row, b[k].log[m])
  }

  lemma ClashStep(p: Primitives, s: State, s': State, c: nat)
    requires Next(p, s, s') && c in s'.calls && Undecided(s'.calls[c]) && s'.calls[c].t.clash > 0
    ensures c in s.calls && Undecided(s.calls[c])
    ensures s.calls[c].t.clash > 0 ||
      (s.calls[c].Inserted? && OtherTaken(s.log, s.calls[c].row) && !PrevTaken(s.log, s.calls[c].row))
  {
    hide OtherTaken, PrevTaken, OrderById, MakeRow;
    var step :| NextStep(p, s, s', step);
  }

  /** An attempt counted as a clash goes back to a collision. */
  lemma {:induction false} ClashHasCause(p: Primitives, b: seq<State>, i: nat, c: nat)
    requires HexDigest(p) && Behaviour(p, b) && i < |b|
    requires c in b[i].calls && Undecided(b[i].calls[c]) && b[i].calls[c].t.clash > 0
    ensures exists k: nat :: k < i && CollidesAt(p, b, c, k)
  {
    hide Next, HexDigest;
    ClashStep(p, b[i - 1], b[i], c);
    if b[i - 1].calls[c].t.clash > 0 {
      ClashHasCause(p, b, i - 1, c);
    } else {
      ClashMeansCollision(p, b, i - 1, c);
      assert CollidesAt(p, b, c, i - 1);
    }
  }

  /** A call that gives up was overlapped by at least `max_retries` commits of other calls, all made
      since it began, or one of its attempts exhibits a digest collision. */
  lemma GivingUpNeedsRivals(p: Primitives, b: seq<State>, i: nat, c: nat)
    requires HexDigest(p) && Behaviour(p, b) && i < |b| && c in b[i].calls && b[i].calls[c].Raised?
    ensures var pc := b[i].calls[c];
      || (pc.t.start + pc.job.maxRetries <= |b[i].log| == |b[i].writer|
          && forall k :: pc.t.start <= k < |b[i].log| ==> b[i].writer[k] != c)
      || exists k: nat :: k < i && CollidesAt(p, b, c, k)
  {
    InvAlways(p, b, i);
    assert CallInv(p, b[i], c);
    if b[i].calls[c].t.clash > 0 {
      ClashHasCause(p, b, i, c);
    }
  }
}
