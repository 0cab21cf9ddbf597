/** Crash safety of the floor migration, and when a stamp really means that the floor is populated. */
module FloorSafety {
  import opened Json
  import opened PackStore
  import opened FloorMigration

  /** The file an uninterrupted pass over one tenant leaves. */
  function Migrated(f: File, enabled: seq<string>): File {
    Populated(Ensured(f), enabled)
  }

  // ---- the target row --------------------------------------------------------------

  lemma {:induction false} FirstAt(rows: seq<PackRow>, id: string, i: nat)
    requires i < |rows| && rows[i].id == id && forall k :: 0 <= k < i ==> rows[k].id != id
    ensures FirstWithId(rows, id) == Some(rows[i])
  {
    var n := |rows| - 1;
    if i < n {
      FirstAt(rows[..n], id, i);
    } else {
      NoneBefore(rows[..n], id);
    }
  }

  lemma {:induction false} NoneBefore(rows: seq<PackRow>, id: string)
    ensures FirstWithId(rows, id).None? <==> forall k :: 0 <= k < |rows| ==> rows[k].id != id
    ensures FirstWithId(rows, id).Some? ==> FirstWithId(rows, id).value in rows && FirstWithId(rows, id).value.id == id
  {
    if rows == [] {
    } else {
      NoneBefore(rows[..|rows| - 1], id);
    }
  }

  lemma FirstSnoc(rows: seq<PackRow>, r: PackRow, id: string)
    ensures FirstWithId(rows + [r], id) ==
      if FirstWithId(rows, id).Some? then FirstWithId(rows, id) else if r.id == id then Some(r) else None
  {
    assert (rows + [r])[..|rows|] == rows;
  }

  /** The row that receives the ids is the first one with the floor's id. */
  lemma TargetIsFirst(rows: seq<PackRow>)
    requires OneFloor(rows) && FloorOf(rows).Some?
    ensures var id := FloorOf(rows).value.id;
      && Target(rows, id) < |rows| && rows[Target(rows, id)].id == id
      && FirstWithId(rows, id) == Some(rows[Target(rows, id)])
  {
    var floor := FloorOf(rows).value;
    FloorIsThere(rows);
    var i := Target(rows, floor.id);
    if rows[i].isFloor {
      FloorIs(rows, rows[i]);
    }
    FirstAt(rows, floor.id, i);
  }

  lemma {:induction false} AbsentMeaning(members: seq<string>, enabled: seq<string>)
    ensures forall x :: x in enabled ==> x in members || x in Absent(members, enabled)
    ensures (forall x :: x in enabled ==> x in members) ==> Absent(members, enabled) == []
    ensures forall x :: x in Absent(members, enabled) ==> x in enabled
  {
    if enabled == [] {
    } else {
      AbsentMeaning(members, enabled[..|enabled| - 1]);
      assert enabled == enabled[..|enabled| - 1] + [enabled[|enabled| - 1]];
    }
  }

  function Grown(r: PackRow, enabled: seq<string>): PackRow {
    r.(policyIds := r.policyIds + Absent(r.policyIds, enabled))
  }

  ghost predicate Ready(f: File, rows: seq<PackRow>, floor: PackRow, target: PackRow) {
    && LoadRows(f) == Ok(rows) && FloorOf(rows) == Some(floor)
    && FirstWithId(rows, floor.id) == Some(target)
  }

  lemma ReadyAt(f: File, rows: seq<PackRow>)
    requires LoadRows(f) == Ok(rows) && FloorOf(rows).Some?
    ensures OneFloor(rows) && Prefixed(rows)
    ensures var i := Target(rows, FloorOf(rows).value.id);
      i < |rows| && Ready(f, rows, FloorOf(rows).value, rows[i]) && rows[i].id == FloorOf(rows).value.id
  {
    LoadedRows(f);
    TargetIsFirst(rows);
  }

  /** Populating: the target row grows, the floor grows only if it is the target. */
  lemma PopulateRows(f: File, rows: seq<PackRow>, floor: PackRow, target: PackRow, enabled: seq<string>)
    returns (rows2: seq<PackRow>)
    requires Ready(f, rows, floor, target)
    ensures Ready(Populated(f, enabled), rows2,
                  if target.isFloor then Grown(floor, enabled) else floor, Grown(target, enabled))
    ensures |rows2| == |rows| && target in rows && target.id == floor.id && (target.isFloor ==> target == floor)
    ensures forall r :: r in rows ==> r in rows2 || (r == target && Grown(target, enabled) in rows2)
    ensures Absent(target.policyIds, enabled) == [] ==> Populated(f, enabled) == f
  {
    ReadyAt(f, rows);
    var i := Target(rows, floor.id);
    assert target == rows[i];
    if target.isFloor {
      FloorIs(rows, target);
    }
    var more := Absent(target.policyIds, enabled);
    if more == [] {
      rows2 := rows;
      assert Grown(target, enabled) == target;
    } else {
      ExtendedRows(rows, i, floor, more);
      rows2 := SortById(Extend(rows, i, more));
      ExtendOneFloor(rows, i, more);
    }
  }

  lemma ExtendedRows(rows: seq<PackRow>, i: nat, floor: PackRow, more: seq<string>)
    requires OneFloor(rows) && Prefixed(rows) && FloorOf(rows) == Some(floor) && i == Target(rows, floor.id) < |rows|
    requires rows[i].id == floor.id
    ensures var xs, t := Extend(rows, i, more), rows[i].(policyIds := rows[i].policyIds + more);
      && FirstWithId(SortById(xs), floor.id) == Some(t)
      && FloorOf(SortById(xs)) == Some(if t.isFloor then t else floor)
      && |SortById(xs)| == |rows|
      && forall r :: r in rows ==> r in SortById(xs) || (r == rows[i] && t in SortById(xs))
  {
    hide SortById, FloorOf, FirstWithId, OneFloor, Prefixed, LoadRows, Target;
    var xs := Extend(rows, i, more);
    ExtendOneFloor(rows, i, more);
    SortFirst(xs, floor.id);
    FirstAt(xs, floor.id, i);
    SortOneFloor(xs);
    SortMembers(xs);
    FloorOfMeaning(rows);
    UpdateMembers(rows, i, xs[i]);
    if rows[i].isFloor {
      FloorIs(rows, rows[i]);
      FloorIs(SortById(xs), xs[i]);
    } else {
      FloorIs(SortById(xs), floor);
    }
  }

  lemma UpdateMembers(rows: seq<PackRow>, i: nat, t: PackRow)
    requires i < |rows|
    ensures t in rows[i := t] && forall r :: r in rows ==> r in rows[i := t] || r == rows[i]
  {
    assert rows[i := t][i] == t;
    forall r | r in rows && r != rows[i] ensures r in rows[i := t] {
      var k :| 0 <= k < |rows| && rows[k] == r;
      assert rows[i := t][k] == r;
    }
  }

  /** Creating the floor: who is found under its id. */
  lemma EnsureRows(f: File) returns (rows: seq<PackRow>, floor: PackRow, target: PackRow)
    requires LoadRows(f).Ok?
    ensures Ready(Ensured(f), rows, floor, target) && Ensured(Ensured(f)) == Ensured(f)
    ensures target.isFloor <==> NoImpostor(LoadRows(f).value)
    ensures forall r :: r in LoadRows(f).value ==> r in rows
  {
    hide SortById, FloorOf, FirstWithId, OneFloor, Prefixed, LoadRows, Target, Written;
    var old_ := LoadRows(f).value;
    LoadedRows(f);
    if FloorOf(old_).Some? {
      rows := old_;
    } else {
      EnsureWrites(old_);
      rows := SortById(old_ + [FLOOR]);
      SortMembers(old_ + [FLOOR]);
      SortFirst(old_ + [FLOOR], FLOOR_PACK_ID);
      FirstSnoc(old_, FLOOR, FLOOR_PACK_ID);
      NoneBefore(old_, FLOOR_PACK_ID);
      FloorOfMeaning(old_);
    }
    ReadyAt(Ensured(f), rows);
    floor := FloorOf(rows).value;
    target := rows[Target(rows, floor.id)];
    FloorOfMeaning(rows);
    if target.isFloor {
      FloorIs(rows, target);
    }
  }

  /** No ordinary pack stands before the floor under the floor's id. */
  predicate NoImpostor(rows: seq<PackRow>) {
    match FloorOf(rows)
    case None => FirstWithId(rows, FLOOR_PACK_ID).None?
    case Some(floor) => FirstWithId(rows, floor.id) == Some(floor)
  }

  /** Running the pass again changes nothing, from the start or from the middle. */
  lemma MigratedIsStable(f: File, enabled: seq<string>)
    requires LoadRows(f).Ok?
    ensures LoadRows(Migrated(f, enabled)).Ok?
    ensures Ensured(Migrated(f, enabled)) == Migrated(f, enabled)
    ensures Populated(Migrated(f, enabled), enabled) == Migrated(f, enabled)
    ensures Migrated(Ensured(f), enabled) == Migrated(f, enabled)
  {
    hide LoadRows, FloorOf, FirstWithId, Populated, NoImpostor;
    var rows, floor, target := EnsureRows(f);
    var rows2 := PopulateRows(Ensured(f), rows, floor, target, enabled);
    var floor2 := if target.isFloor then Grown(floor, enabled) else floor;
    var rows3 := PopulateRows(Migrated(f, enabled), rows2, floor2, Grown(target, enabled), enabled);
    AbsentMeaning(target.policyIds, enabled);
    AbsentMeaning(Grown(target, enabled).policyIds, enabled);
  }

  // ---- coverage ------------------------------------------------------------------------

  /** Every enabled policy is a member of the floor. */
  ghost predicate Covers(f: File, enabled: seq<string>) {
    && LoadRows(f).Ok? && FloorOf(LoadRows(f).value).Some?
    && forall x :: x in enabled ==> x in FloorOf(LoadRows(f).value).value.policyIds
  }

  function Longer(ids: seq<string>): (x: string)
    ensures forall y :: y in ids ==> |y| < |x|
  {
    if ids == [] then "p"
    else
      var x, last := Longer(ids[..|ids| - 1]), ids[|ids| - 1];
      assert ids == ids[..|ids| - 1] + [last];
      if |last| < |x| then x else last + "p"
  }

  /** The migration puts every enabled policy into the floor, whatever they are, if and only if no
      ordinary pack carries the floor's id ahead of it. */
  lemma CoversIffNoImpostor(f: File)
    requires LoadRows(f).Ok?
    ensures (forall enabled :: Covers(Migrated(f, enabled), enabled)) <==> NoImpostor(LoadRows(f).value)
  {
    hide LoadRows, FloorOf, FirstWithId, Populated, NoImpostor;
    var rows, floor, target := EnsureRows(f);
    forall enabled: seq<string>
      ensures target.isFloor ==> Covers(Migrated(f, enabled), enabled)
      ensures !target.isFloor ==>
        (Covers(Migrated(f, enabled), enabled) <==> forall x :: x in enabled ==> x in floor.policyIds)
    {
      var rows2 := PopulateRows(Ensured(f), rows, floor, target, enabled);
      AbsentMeaning(floor.policyIds, enabled);
    }
    var x := Longer(floor.policyIds);
    assert x !in floor.policyIds;
    assert x in [x];
    if !target.isFloor {
      assert !Covers(Migrated(f, [x]), [x]);
    }
  }

  /** A user pack created as "floor" before the upgrade takes the ids; the new floor stays empty. */
  lemma ImpostorTakesThePolicies(x: string)
    ensures var impostor := PackRow(FLOOR_PACK_ID, "mine", "", [], false);
      var f := Migrated(Written([impostor]), [x]);
      && LoadRows(Written([impostor])).Ok? && !NoImpostor([impostor]) && LoadRows(f).Ok?
      && impostor.(policyIds := [x]) in LoadRows(f).value && FloorOf(LoadRows(f).value) == Some(FLOOR)
  {
    var r := PackRow(FLOOR_PACK_ID, "mine", "", [], false);
    var rows := OrdinaryFloorId(r);
    hide LoadRows, FloorOf, FirstWithId, SortById, Written, Populated, Ensured, NoImpostor, Absent;
    var rows2 := PopulateRows(Ensured(Written([r])), rows, FLOOR, r, [x]);
    AbsentOne(x);
    FirstMember(rows2, FLOOR_PACK_ID);
  }

  lemma FirstMember(rows: seq<PackRow>, id: string)
    ensures FirstWithId(rows, id).Some? ==> FirstWithId(rows, id).value in rows
  {
    hide FirstWithId;
    NoneBefore(rows, id);
  }

  lemma AbsentOne(x: string)
    ensures Absent([], [x]) == [x]
  {
    assert [x][..0] == [];
  }

  /** Next to an ordinary pack with the floor's id the new floor comes second. */
  lemma OrdinaryFloorId(r: PackRow) returns (rows: seq<PackRow>)
    requires r.id == FLOOR_PACK_ID && !r.isFloor
    ensures LoadRows(Written([r])).Ok? && !NoImpostor([r])
    ensures Ready(Ensured(Written([r])), rows, FLOOR, r)
  {
    WrittenLoads([r]);
    hide LoadRows, FloorOf, FirstWithId, SortById, Written;
    FirstAt([r], FLOOR_PACK_ID, 0);
    FloorOfMeaning([r]);
    EnsureWrites([r]);
    rows := SortById([r] + [FLOOR]);
    SortFirst([r] + [FLOOR], FLOOR_PACK_ID);
    FirstSnoc([r], FLOOR, FLOOR_PACK_ID);
  }

  /** No row disappears and no member is dropped. */
  lemma MembersKept(f: File, enabled: seq<string>, r: PackRow)
    requires LoadRows(f).Ok? && r in LoadRows(f).value
    ensures LoadRows(Migrated(f, enabled)).Ok? && OneFloor(LoadRows(Migrated(f, enabled)).value)
    ensures exists r' ::
      r' in LoadRows(Migrated(f, enabled)).value && r'.(policyIds := r.policyIds) == r && r.policyIds <= r'.policyIds
  {
    var rows, floor, target := EnsureRows(f);
    var rows2 := PopulateRows(Ensured(f), rows, floor, target, enabled);
    LoadedRows(Migrated(f, enabled));
    var r' := if r in rows2 then r else Grown(target, enabled);
    assert r' in rows2 && r'.(policyIds := r.policyIds) == r && r.policyIds <= r'.policyIds;
  }

  // ---- crashes ---------------------------------------------------------------------------

  ghost predicate AllStamped(tenants: seq<Tenant>) {
    tenants != [] && forall i :: 0 <= i < |tenants| ==> tenants[i].stamp.Some?
  }

  /** Same tenants, and no stamp lost. */
  ghost predicate Later(old_: seq<Tenant>, new_: seq<Tenant>) {
    var a, b := Table(old_), Table(new_);
    && |a| == |b|
    && forall i :: 0 <= i < |a| ==> a[i].id == b[i].id && (a[i].stamp.Some? ==> b[i] == a[i])
  }

  lemma {:induction false} PendingMeaning(tenants: seq<Tenant>, n: nat)
    requires n <= |Table(tenants)|
    ensures forall i :: 0 <= i < n ==> (i in Pending(tenants, n) <==> Table(tenants)[i].stamp.None?)
    ensures forall i :: i in Pending(tenants, n) ==> i < n
    ensures forall j, k :: 0 <= j < k < |Pending(tenants, n)| ==> Pending(tenants, n)[j] < Pending(tenants, n)[k]
  {
    if n == 0 {
    } else {
      PendingMeaning(tenants, n - 1);
    }
  }

  lemma NothingPendingIff(p: Persist)
    ensures Todo(p) == [] <==> AllStamped(p.tenants)
  {
    PendingMeaning(p.tenants, |Table(p.tenants)|);
    if Todo(p) != [] {
      assert Todo(p)[0] in Todo(p);
      assert p.tenants != [] ==> Table(p.tenants) == p.tenants;
    } else {
      assert 0 in Todo(p) <==> Table(p.tenants)[0].stamp.None?;
    }
  }

  /** Work that covers what is unstamped. */
  ghost predicate Enough(p: Persist, todo: seq<nat>) {
    && (forall i :: 0 <= i < |todo| ==> todo[i] < |Table(p.tenants)| && Table(p.tenants)[todo[i]].stamp.None?)
    && (forall i :: 0 <= i < |Table(p.tenants)| ==> Table(p.tenants)[i].stamp.Some? || i in todo)
    && (forall j, k :: 0 <= j < k < |todo| ==> todo[j] < todo[k])
  }

  lemma TodoEnough(p: Persist)
    ensures Enough(p, Todo(p))
  {
    PendingMeaning(p.tenants, |Table(p.tenants)|);
    forall i | 0 <= i < |Todo(p)| ensures Todo(p)[i] in Todo(p) {
    }
  }

  /** A state left by a crash: either nothing was committed and the file is at some stage of the
      pass, or the file is fully migrated. */
  ghost predicate CrashState(p: Persist, q: Persist, enabled: seq<string>) {
    && Later(p.tenants, q.tenants)
    && (q.file == Migrated(p.file, enabled)
        || (q.tenants == p.tenants && (q.file == p.file || q.file == Ensured(p.file))))
  }

  lemma StampEnough(p: Persist, todo: seq<nat>, ts: int)
    requires Enough(p, todo) && todo != []
    ensures Enough(Stamped(p, todo[0], ts), todo[1..])
    ensures Later(p.tenants, Stamped(p, todo[0], ts).tenants) && Stamped(p, todo[0], ts).tenants != []
  {
    var q := Stamped(p, todo[0], ts);
    assert Table(q.tenants) == q.tenants;
    assert todo == [todo[0]] + todo[1..];
  }

  lemma LaterTrans(a: seq<Tenant>, b: seq<Tenant>, c: seq<Tenant>)
    requires Later(a, b) && Later(b, c)
    ensures Later(a, c)
  {
  }

  /** Every state of a boot is a crash state, and the last one is fully migrated and stamped. */
  lemma {:induction false} TraceStates(p: Persist, todo: seq<nat>, enabled: seq<string>, ts: int)
    requires LoadRows(p.file).Ok? && Enough(p, todo)
    ensures forall q :: q in Trace(p, todo, enabled, ts) ==> CrashState(p, q, enabled)
    ensures var last := Last(Trace(p, todo, enabled, ts));
      && Todo(last) == [] && Later(p.tenants, last.tenants)
      && last.file == if todo == [] then p.file else Migrated(p.file, enabled)
    decreases |todo|
  {
    hide LoadRows, Ensured, Populated, Todo;
    if todo == [] {
      AllDone(p);
    } else {
      var p1 := p.(file := Ensured(p.file));
      var p2 := p1.(file := Populated(p1.file, enabled));
      var p3 := Stamped(p2, todo[0], ts);
      MigratedIsStable(p.file, enabled);
      assert Enough(p2, todo);
      StampEnough(p2, todo, ts);
      TraceStates(p3, todo[1..], enabled, ts);
      TraceStep(p, todo, enabled, ts);
      forall q | q in Trace(p, todo, enabled, ts) ensures CrashState(p, q, enabled) {
        if q in Trace(p3, todo[1..], enabled, ts) {
          LaterTrans(p.tenants, p3.tenants, q.tenants);
        }
      }
      LaterTrans(p.tenants, p3.tenants, Last(Trace(p3, todo[1..], enabled, ts)).tenants);
    }
  }

  lemma AllDone(p: Persist)
    requires Enough(p, [])
    ensures Todo(p) == []
  {
    NothingPendingIff(p);
  }

  lemma BootOutcome(p: Persist, enabled: seq<string>, ts: int)
    requires LoadRows(p.file).Ok?
    ensures var r := Boot(p, enabled, ts);
      && Todo(r) == [] && AllStamped(r.tenants) && Later(p.tenants, r.tenants)
      && r.file == if AllStamped(p.tenants) then p.file else Migrated(p.file, enabled)
  {
    TodoEnough(p);
    TraceStates(p, Todo(p), enabled, ts);
    NothingPendingIff(p);
    NothingPendingIff(Boot(p, enabled, ts));
  }

  /** From any crash point, one boot that completes gives the same pack file and the same, fully
      stamped tenants as a boot that was never interrupted; a further boot has nothing to do. */
  lemma CrashThenRerun(p: Persist, q: Persist, enabled: seq<string>, ts: int, ts': int)
    requires LoadRows(p.file).Ok? && q in Trace(p, Todo(p), enabled, ts)
    ensures var whole, resumed := Boot(p, enabled, ts), Boot(q, enabled, ts');
      && resumed.file == whole.file
      && AllStamped(resumed.tenants) && AllStamped(whole.tenants) && Later(p.tenants, resumed.tenants)
      && Todo(resumed) == [] && Boot(resumed, enabled, ts') == resumed
  {
    hide LoadRows, Ensured, Populated, Boot;
    TodoEnough(p);
    TraceStates(p, Todo(p), enabled, ts);
    MigratedIsStable(p.file, enabled);
    EnsuredLoads(p.file);
    NothingPendingIff(p);
    BootOutcome(p, enabled, ts);
    assert CrashState(p, q, enabled);
    BootOutcome(q, enabled, ts');
    LaterTrans(p.tenants, q.tenants, Boot(q, enabled, ts').tenants);
    IdleBoot(Boot(q, enabled, ts'), enabled, ts');
    if AllStamped(p.tenants) {
      assert q == p by {
        IdleTrace(p, enabled, ts);
      }
    }
  }

  /** A crash that has changed the pack file and stamped nobody. */
  ghost predicate ChangedUnstamped(p: Persist, q: Persist) {
    q.file != p.file && q.tenants == p.tenants
  }

  /** The floor is missing, or the row found under its id lacks an enabled policy. */
  ghost predicate NeedsWork(rows: seq<PackRow>, enabled: seq<string>) {
    match FloorOf(rows)
    case None => true
    case Some(floor) =>
      match FirstWithId(rows, floor.id)
      case None => false
      case Some(t) => exists x :: x in enabled && x !in t.policyIds
  }

  /** The pass changes the file exactly when there is work. */
  lemma ChangesIff(f: File, enabled: seq<string>)
    requires LoadRows(f).Ok?
    ensures (Ensured(f) != f || Migrated(f, enabled) != f) <==> NeedsWork(LoadRows(f).value, enabled)
  {
    var rows := LoadRows(f).value;
    LoadedRows(f);
    if FloorOf(rows).None? {
      hide LoadRows, FirstWithId, SortById, Written, Populated;
      EnsureWrites(rows);
    } else {
      assert Ensured(f) == f;
      hide LoadRows, FirstWithId, SortById, Written, Populated, Ensured;
      ReadyAt(f, rows);
      var floor := FloorOf(rows).value;
      var t := rows[Target(rows, floor.id)];
      var rows2 := PopulateRows(f, rows, floor, t, enabled);
      AbsentMeaning(t.policyIds, enabled);
      if Absent(t.policyIds, enabled) != [] {
        var x := Absent(t.policyIds, enabled)[0];
        assert x in Absent(t.policyIds, enabled) && x in enabled;
        GrownDiffers(t, enabled);
        SameIdAfter(rows, rows2, floor, t, enabled);
      }
    }
  }

  lemma GrownDiffers(t: PackRow, enabled: seq<string>)
    requires Absent(t.policyIds, enabled) != []
    ensures Grown(t, enabled) != t && exists x :: x in enabled && x !in t.policyIds
  {
    assert |Grown(t, enabled).policyIds| > |t.policyIds|;
    AbsentMeaning(t.policyIds, enabled);
  }

  lemma SameIdAfter(rows: seq<PackRow>, rows2: seq<PackRow>, floor: PackRow, t: PackRow, enabled: seq<string>)
    requires FirstWithId(rows, floor.id) == Some(t) && Grown(t, enabled) != t
    requires FirstWithId(rows2, floor.id) == Some(Grown(t, enabled))
    ensures rows2 != rows
  {
  }

  /** Some crash point leaves the pack file changed with nobody stamped, if and only if there is a
      tenant to migrate, and the floor is missing or the first pack with its id lacks an enabled policy. */
  lemma LagIff(p: Persist, enabled: seq<string>, ts: int)
    requires LoadRows(p.file).Ok?
    ensures (exists q :: q in Trace(p, Todo(p), enabled, ts) && ChangedUnstamped(p, q)) <==>
      !AllStamped(p.tenants) && NeedsWork(LoadRows(p.file).value, enabled)
  {
    hide LoadRows, Ensured, Populated, Todo, Trace, NeedsWork, AllStamped;
    TodoEnough(p);
    TraceStates(p, Todo(p), enabled, ts);
    NothingPendingIff(p);
    ChangesIff(p.file, enabled);
    if Todo(p) == [] {
      IdleTrace(p, enabled, ts);
    } else {
      var p1 := p.(file := Ensured(p.file));
      var p2 := p.(file := Migrated(p.file, enabled));
      FirstStates(p, Todo(p), enabled, ts);
      assert ChangedUnstamped(p, p1) <==> Ensured(p.file) != p.file;
      assert ChangedUnstamped(p, p2) <==> Migrated(p.file, enabled) != p.file;
    }
  }

  lemma FirstStates(p: Persist, todo: seq<nat>, enabled: seq<string>, ts: int)
    requires todo != []
    ensures p.(file := Ensured(p.file)) in Trace(p, todo, enabled, ts)
    ensures p.(file := Migrated(p.file, enabled)) in Trace(p, todo, enabled, ts)
  {
  }

  /** The instance: a new installation, whose first boot dies before its first commit. */
  lemma FirstBootLags(enabled: seq<string>, ts: int)
    ensures var p, q := Persist(Missing, []), Persist(Written([FLOOR]), []);
      q in Trace(p, Todo(p), enabled, ts) && ChangedUnstamped(p, q)
  {
    var p := Persist(Missing, []);
    assert Todo(p) == [0];
    FirstStates(p, Todo(p), enabled, ts);
    var none: seq<PackRow> := [];
    assert none + [FLOOR] == [FLOOR] && [FLOOR][..0] == none;
    assert SortById([FLOOR]) == [FLOOR];
    assert Ensured(Missing) == Written([FLOOR]);
  }

  lemma IdleBoot(p: Persist, enabled: seq<string>, ts: int)
    requires Todo(p) == []
    ensures Boot(p, enabled, ts) == p
  {
  }

  lemma IdleTrace(p: Persist, enabled: seq<string>, ts: int)
    requires AllStamped(p.tenants)
    ensures Trace(p, Todo(p), enabled, ts) == [p]
  {
    NothingPendingIff(p);
  }

  /** A history of boots, each of which died at one of its crash points: qs[i] is what the i-th left. */
  ghost predicate Crashes(p: Persist, qs: seq<Persist>, enabled: seq<string>, ts: seq<int>) {
    && |ts| == |qs|
    && forall i :: 0 <= i < |qs| ==>
         var before := LeftBy(p, qs, i);
         qs[i] in Trace(before, Todo(before), enabled, ts[i])
  }

  /** The state before boot i of the history. */
  function LeftBy(p: Persist, qs: seq<Persist>, i: nat): Persist
    requires i <= |qs|
  {
    if i == 0 then p else qs[i - 1]
  }

  /** After any number of crashed boots, one that completes gives the pack file of a boot that was
      never interrupted, every tenant stamped, no stamp lost, and leaves a further boot nothing to do. */
  lemma {:induction false} CrashesThenRerun(p: Persist, qs: seq<Persist>, enabled: seq<string>,
                                            ts: seq<int>, t: int, t': int)
    requires LoadRows(p.file).Ok? && Crashes(p, qs, enabled, ts)
    ensures var whole, last := Boot(p, enabled, t), LeftBy(p, qs, |qs|);
      var resumed := Boot(last, enabled, t');
      && LoadRows(last.file).Ok? && Later(p.tenants, last.tenants)
      && resumed.file == whole.file
      && AllStamped(resumed.tenants) && AllStamped(whole.tenants) && Later(p.tenants, resumed.tenants)
      && Todo(resumed) == [] && Boot(resumed, enabled, t') == resumed
    decreases |qs|
  {
    hide LoadRows, Ensured, Populated, Boot, Trace, Todo, AllStamped;
    BootOutcome(p, enabled, t);
    if qs == [] {
      BootOutcome(p, enabled, t');
      IdleBoot(Boot(p, enabled, t'), enabled, t');
    } else {
      var n := |qs| - 1;
      var init, last := qs[..n], LeftBy(p, qs, n);
      assert Crashes(p, init, enabled, ts[..n]) by {
        forall i | 0 <= i < n ensures LeftBy(p, init, i) == LeftBy(p, qs, i) && init[i] == qs[i] {
        }
      }
      assert LeftBy(p, init, n) == last;
      CrashesThenRerun(p, init, enabled, ts[..n], t, t');
      assert qs[n] in Trace(last, Todo(last), enabled, ts[n]);
      CrashThenRerun(last, qs[n], enabled, ts[n], t');
      SameFile(last, enabled, ts[n], t');
      CrashLoads(last, qs[n], enabled, ts[n]);
      LaterTrans(p.tenants, last.tenants, qs[n].tenants);
      LaterTrans(p.tenants, last.tenants, Boot(qs[n], enabled, t').tenants);
    }
  }

  /** The clock does not matter to the file. */
  lemma SameFile(p: Persist, enabled: seq<string>, ts: int, ts': int)
    requires LoadRows(p.file).Ok?
    ensures Boot(p, enabled, ts).file == Boot(p, enabled, ts').file
  {
    hide LoadRows, Ensured, Populated, Boot;
    BootOutcome(p, enabled, ts);
    BootOutcome(p, enabled, ts');
  }

  lemma CrashLoads(p: Persist, q: Persist, enabled: seq<string>, ts: int)
    requires LoadRows(p.file).Ok? && q in Trace(p, Todo(p), enabled, ts)
    ensures LoadRows(q.file).Ok? && Later(p.tenants, q.tenants)
  {
    hide LoadRows, Ensured, Populated, Trace, Todo;
    TodoEnough(p);
    TraceStates(p, Todo(p), enabled, ts);
    assert CrashState(p, q, enabled);
    MigratedIsStable(p.file, enabled);
    EnsuredLoads(p.file);
  }

  /** At no crash point is a tenant stamped before every enabled policy is in the floor. */
  lemma StampMeansCovered(p: Persist, q: Persist, enabled: seq<string>, ts: int)
    requires LoadRows(p.file).Ok? && NoImpostor(LoadRows(p.file).value)
    requires q in Trace(p, Todo(p), enabled, ts) && q.tenants != p.tenants
    ensures Covers(q.file, enabled)
  {
    hide LoadRows, Ensured, Populated, NoImpostor;
    TodoEnough(p);
    TraceStates(p, Todo(p), enabled, ts);
    assert CrashState(p, q, enabled);
    CoversIffNoImpostor(p.file);
  }

  // ---- a policy store that does not load -------------------------------------------------

  /** Members of the floor, none if there is no floor. */
  function FloorMembers(rows: seq<PackRow>): seq<string> {
    match FloorOf(rows) case None => [] case Some(floor) => floor.policyIds
  }

  /** The first complete boot decides for good. It stamps every tenant, so no later boot changes
      anything, whatever it is given; and a policy is in the floor afterwards exactly when that boot
      was given it or it was there before. So the floor covers the enabled policies if and only if
      the first list and the old members do. */
  lemma FirstListDecides(p: Persist, given: seq<string>, enabled: seq<string>, ts: int, later: seq<string>, ts': int)
    requires LoadRows(p.file).Ok? && NoImpostor(LoadRows(p.file).value) && !AllStamped(p.tenants)
    ensures var q := Boot(p, given, ts);
      && AllStamped(q.tenants) && Boot(q, later, ts') == q
      && (Covers(q.file, enabled) <==>
            forall x :: x in enabled ==> x in given || x in FloorMembers(LoadRows(p.file).value))
  {
    hide LoadRows, Populated, Ensured, Boot, NoImpostor, AllStamped, Todo;
    BootOutcome(p, given, ts);
    IdleBoot(Boot(p, given, ts), later, ts');
    MembersAfter(p.file, given);
  }

  /** The floor after one pass. */
  lemma MembersAfter(f: File, given: seq<string>)
    requires LoadRows(f).Ok? && NoImpostor(LoadRows(f).value)
    ensures var g := Migrated(f, given);
      && LoadRows(g).Ok? && FloorOf(LoadRows(g).value).Some?
      && forall x :: x in FloorOf(LoadRows(g).value).value.policyIds <==>
           x in given || x in FloorMembers(LoadRows(f).value)
  {
    var rows, floor, target := EnsureRows(f);
    NewFloorMembers(f);
    hide LoadRows, Populated, Ensured, FloorOf, FirstWithId, NoImpostor, FloorMembers;
    var rows2 := PopulateRows(Ensured(f), rows, floor, target, given);
    AbsentMeaning(floor.policyIds, given);
  }

  lemma NewFloorMembers(f: File)
    requires LoadRows(f).Ok?
    ensures LoadRows(Ensured(f)).Ok? && FloorOf(LoadRows(Ensured(f)).value).Some?
    ensures FloorOf(LoadRows(Ensured(f)).value).value.policyIds == FloorMembers(LoadRows(f).value)
  {
    LoadedRows(f);
    hide LoadRows, FloorOf, SortById, Written;
    if FloorOf(LoadRows(f).value).None? {
      EnsureWrites(LoadRows(f).value);
    }
  }

  /** The instance: the policy store does not load at the first boot of a new installation, which
      counts as no enabled policy. All tenants are stamped, the floor stays empty, and no later boot
      repairs it. */
  lemma UnloadableStoreIsFinal(x: string, ts: int, ts': int)
    ensures var q := Boot(Persist(Missing, []), [], ts);
      AllStamped(q.tenants) && !Covers(q.file, [x]) && Boot(q, [x], ts') == q
  {
    var p := Persist(Missing, []);
    assert LoadRows(Missing) == Ok([]);
    hide Boot;
    FirstListDecides(p, [], [x], ts, [x], ts');
    assert x in [x];
  }

  // ---- stamps and returned ids -----------------------------------------------------------

  /** The tenants of `after` are those of the table; the ones in todo carry the stamp, the others are as before. */
  ghost predicate StampedIn(before: seq<Tenant>, after: seq<Tenant>, todo: seq<nat>, ts: int) {
    && |after| == |before|
    && forall i :: 0 <= i < |before| ==>
         after[i] == Tenant(before[i].id, if i in todo then Some(ts) else before[i].stamp)
  }

  lemma {:induction false} TraceStamps(p: Persist, todo: seq<nat>, enabled: seq<string>, ts: int)
    requires forall i :: 0 <= i < |todo| ==> todo[i] < |Table(p.tenants)|
    ensures StampedIn(Table(p.tenants), Table(Last(Trace(p, todo, enabled, ts)).tenants), todo, ts)
    ensures todo != [] ==> Last(Trace(p, todo, enabled, ts)).tenants != []
    decreases |todo|
  {
    if todo == [] {
    } else {
      hide Ensured, Populated;
      var p2 := p.(file := Populated(Ensured(p.file), enabled));
      var p3 := Stamped(p2, todo[0], ts);
      assert Table(p3.tenants) == p3.tenants;
      TraceStamps(p3, todo[1..], enabled, ts);
      TraceStep(p, todo, enabled, ts);
      hide Trace;
      var last := Table(Last(Trace(p, todo, enabled, ts)).tenants);
      assert todo == [todo[0]] + todo[1..];
      forall i | 0 <= i < |Table(p.tenants)|
        ensures last[i] == Tenant(Table(p.tenants)[i].id, if i in todo then Some(ts) else Table(p.tenants)[i].stamp)
      {
        assert i in todo <==> i == todo[0] || i in todo[1..];
      }
    }
  }

  lemma {:induction false} NamesAre(table: seq<Tenant>, ks: seq<nat>)
    requires forall i :: 0 <= i < |ks| ==> ks[i] < |table|
    ensures |Names(table, ks)| == |ks| && forall i :: 0 <= i < |ks| ==> Names(table, ks)[i] == table[ks[i]].id
  {
    if ks == [] {
    } else {
      NamesAre(table, ks[..|ks| - 1]);
    }
  }

  /** A complete boot in plain terms: an empty table gets the tenant "default"; every tenant without a
      stamp gets this boot's, every other keeps its own; and the ids returned are those of the tenants
      without a stamp, in table order. */
  lemma BootStamps(p: Persist, enabled: seq<string>, ts: int)
    ensures p.tenants == [] ==> Boot(p, enabled, ts).tenants == [Tenant("default", Some(ts))]
    ensures p.tenants != [] ==>
      var after := Boot(p, enabled, ts).tenants;
      && |after| == |p.tenants|
      && forall i :: 0 <= i < |after| ==>
           after[i] == Tenant(p.tenants[i].id, if p.tenants[i].stamp.Some? then p.tenants[i].stamp else Some(ts))
    ensures var table, ids := Table(p.tenants), Names(Table(p.tenants), Todo(p));
      && |ids| == |Todo(p)| && (forall i :: 0 <= i < |ids| ==> Todo(p)[i] < |table| && ids[i] == table[Todo(p)[i]].id)
      && (forall i, j :: 0 <= i < j < |ids| ==> Todo(p)[i] < Todo(p)[j])
      && (forall i :: 0 <= i < |table| ==> (i in Todo(p) <==> table[i].stamp.None?))
  {
    PendingMeaning(p.tenants, |Table(p.tenants)|);
    hide Pending, Trace, Names;
    forall i | 0 <= i < |Todo(p)| ensures Todo(p)[i] < |Table(p.tenants)| {
      assert Todo(p)[i] in Todo(p);
    }
    TraceStamps(p, Todo(p), enabled, ts);
    NamesAre(Table(p.tenants), Todo(p));
    if p.tenants == [] {
      assert 0 in Todo(p);
    } else {
      assert Boot(p, enabled, ts).tenants != [] by {
        if Boot(p, enabled, ts).tenants == [] && Todo(p) == [] {
          IdleBoot(p, enabled, ts);
        }
      }
    }
  }
}
