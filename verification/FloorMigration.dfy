/** The boot migration that moves every enabled policy into the floor pack: per tenant, make sure
    the floor exists (a file write), add the missing ids (a file write), stamp the tenant (a
    database commit). A crash keeps what was written; the next boot starts over. */
module FloorMigration {
  import opened Json
  import opened Lists
  import opened PackStore

  const FLOOR_PACK_ID := "user-pack/floor"
  /** The row as created; its description text is left out. */
  const FLOOR := PackRow(FLOOR_PACK_ID, "Floor", "", [], true)

  datatype Tenant = Tenant(id: string, stamp: Option<int>)

  /** What survives a crash. */
  datatype Persist = Persist(file: File, tenants: seq<Tenant>)

  // ---- _enabled_policy_ids ---------------------------------------------------------

  datatype Override = Override(policyId: string, enabled: bool)

  /** The first enabled override of x is at i. */
  ghost predicate FirstOn(ovs: seq<Override>, x: string, i: nat) {
    i < |ovs| && ovs[i] == Override(x, true) && forall k :: 0 <= k < i ==> ovs[k] != Override(x, true)
  }

  /** Enabled ids without duplicates, in first-seen order; a store that fails to load counts as having none. */
  method EnabledPolicyIds(overrides: Option<seq<Override>>) returns (out: seq<string>)
    ensures NoDup(out)
    ensures overrides.None? ==> out == []
    ensures overrides.Some? ==> forall x :: x in out <==> Override(x, true) in overrides.value
    ensures overrides.Some? ==> forall k, l, i: nat, j: nat ::
      0 <= k < l < |out| && FirstOn(overrides.value, out[k], i) && FirstOn(overrides.value, out[l], j) ==> i < j
  {
    out := [];
    if overrides.None? {
      return;
    }
    var seen: set<string> := {};
    var ovs := overrides.value;
    ghost var first: seq<nat> := [];
    for n := 0 to |ovs|
      invariant NoDup(out) && forall x :: x in seen <==> x in out
      invariant forall x :: x in out <==> Override(x, true) in ovs[..n]
      invariant |first| == |out| && forall k :: 0 <= k < |out| ==> first[k] < n && FirstOn(ovs, out[k], first[k])
      invariant forall k, l :: 0 <= k < l < |out| ==> first[k] < first[l]
    {
      assert ovs[..n + 1] == ovs[..n] + [ovs[n]];
      if ovs[n].enabled && ovs[n].policyId !in seen {
        assert forall k :: 0 <= k < n ==> ovs[k] in ovs[..n];
        seen := seen + {ovs[n].policyId};
        out := out + [ovs[n].policyId];
        first := first + [n];
      }
    }
    assert ovs[..|ovs|] == ovs;
    forall k, l, i: nat, j: nat | 0 <= k < l < |out| && FirstOn(ovs, out[k], i) && FirstOn(ovs, out[l], j)
      ensures i < j
    {
      assert i == first[k] && j == first[l];
    }
  }

  // ---- ensure_floor_pack and _populate_floor -----------------------------------------

  function FloorOf(rows: seq<PackRow>): Option<PackRow> {
    if rows == [] then None
    else
      var r := FloorOf(rows[..|rows| - 1]);
      if r.Some? then r else if rows[|rows| - 1].isFloor then Some(rows[|rows| - 1]) else None
  }

  /** Ids of `enabled` not yet listed, in order. */
  function Absent(members: seq<string>, enabled: seq<string>): seq<string> {
    if enabled == [] then []
    else
      var a, last := Absent(members, enabled[..|enabled| - 1]), enabled[|enabled| - 1];
      if last in members || last in a then a else a + [last]
  }

  /** Position of the first row that carries the floor id or the floor flag. */
  function Target(rows: seq<PackRow>, floorId: string): (i: nat)
    ensures i <= |rows|
    ensures i < |rows| ==> rows[i].id == floorId || rows[i].isFloor
    ensures forall k :: 0 <= k < i ==> rows[k].id != floorId && !rows[k].isFloor
  {
    if rows == [] then 0
    else
      var i := Target(rows[..|rows| - 1], floorId);
      if i < |rows| - 1 then i
      else if rows[i].id == floorId || rows[i].isFloor then i else |rows|
  }

  function Extend(rows: seq<PackRow>, i: nat, more: seq<string>): seq<PackRow>
    requires i < |rows|
  {
    rows[i := rows[i].(policyIds := rows[i].policyIds + more)]
  }

  /** The file once the floor exists. */
  function EnsuredRows(f: File, rows: seq<PackRow>): File {
    if FloorOf(rows).Some? then f else Written(SortById(rows + [FLOOR]))
  }

  function PopulatedRows(f: File, rows: seq<PackRow>, enabled: seq<string>): File {
    match FloorOf(rows)
    case None => f
    case Some(floor) =>
      var i := Target(rows, floor.id);
      if i == |rows| then f
      else
        var more := Absent(rows[i].policyIds, enabled);
        if more == [] then f else Written(SortById(Extend(rows, i, more)))
  }

  function Ensured(f: File): File {
    match LoadRows(f) case Ok(rows) => EnsuredRows(f, rows) case Err => f
  }

  function Populated(f: File, enabled: seq<string>): File {
    match LoadRows(f) case Ok(rows) => PopulatedRows(f, rows, enabled) case Err => f
  }

  // ---- one boot ------------------------------------------------------------------------

  /** The rows the loop works on: an empty table is seeded with the default tenant. */
  function Table(tenants: seq<Tenant>): seq<Tenant> {
    if tenants == [] then [Tenant("default", None)] else tenants
  }

  function Pending(tenants: seq<Tenant>, n: nat): (ks: seq<nat>)
    requires n <= |Table(tenants)|
    ensures forall i :: 0 <= i < |ks| ==> ks[i] < n
  {
    if n == 0 then []
    else if Table(tenants)[n - 1].stamp.None? then Pending(tenants, n - 1) + [n - 1]
    else Pending(tenants, n - 1)
  }

  function Todo(p: Persist): seq<nat> {
    Pending(p.tenants, |Table(p.tenants)|)
  }

  function Names(table: seq<Tenant>, ks: seq<nat>): seq<string>
    requires forall i :: 0 <= i < |ks| ==> ks[i] < |table|
  {
    if ks == [] then [] else Names(table, ks[..|ks| - 1]) + [table[ks[|ks| - 1]].id]
  }

  /** The commit of tenant i; it also persists the seeded row. */
  function Stamped(p: Persist, i: nat, ts: int): Persist {
    if i < |Table(p.tenants)|
    then p.(tenants := Table(p.tenants)[i := Table(p.tenants)[i].(stamp := Some(ts))])
    else p
  }

  /** Every persistent state the boot passes through: a crash leaves one of them. */
  function Trace(p: Persist, todo: seq<nat>, enabled: seq<string>, ts: int): (t: seq<Persist>)
    ensures t != []
    decreases |todo|
  {
    if todo == [] then [p]
    else
      var p1 := p.(file := Ensured(p.file));
      var p2 := p1.(file := Populated(p1.file, enabled));
      [p, p1, p2] + Trace(Stamped(p2, todo[0], ts), todo[1..], enabled, ts)
  }

  function Last<T>(s: seq<T>): T
    requires s != []
  {
    s[|s| - 1]
  }

  /** An uninterrupted boot. */
  function Boot(p: Persist, enabled: seq<string>, ts: int): Persist {
    Last(Trace(p, Todo(p), enabled, ts))
  }

  predicate HasFloor(f: File, id: string) {
    LoadRows(f).Ok? && FloorOf(LoadRows(f).value).Some? && FloorOf(LoadRows(f).value).value.id == id
  }

  /** The appended ids: each enabled one that is not a member, once, in the order of the list. */
  lemma {:induction false} AbsentOrder(members: seq<string>, enabled: seq<string>)
    ensures NoDup(Absent(members, enabled))
    ensures forall x :: x in Absent(members, enabled) <==> x in enabled && x !in members
    ensures forall k, l, i: nat, j: nat ::
      && 0 <= k < l < |Absent(members, enabled)|
      && FirstIn(enabled, Absent(members, enabled)[k], i) && FirstIn(enabled, Absent(members, enabled)[l], j)
      ==> i < j
  {
    if enabled == [] {
    } else {
      var n, init := |enabled| - 1, enabled[..|enabled| - 1];
      var a, all := Absent(members, init), Absent(members, enabled);
      AbsentOrder(members, init);
      assert enabled == init + [enabled[n]];
      assert all == a || all == a + [enabled[n]];
      hide Absent;
      forall k, l, i: nat, j: nat | 0 <= k < l < |all| && FirstIn(enabled, all[k], i) && FirstIn(enabled, all[l], j)
        ensures i < j
      {
        assert all[k] == a[k] && a[k] in init;
        assert i < n && init[..i] == enabled[..i];
        if l < |a| {
          assert a[l] in init;
          assert j < n && init[..j] == enabled[..j];
          assert FirstIn(init, a[k], i) && FirstIn(init, a[l], j);
        } else {
          assert all[l] !in a && enabled[n] == all[l];
          NotEarlier(members, init, enabled, n, all[l], j);
        }
      }
    }
  }

  lemma NotEarlier(members: seq<string>, init: seq<string>, enabled: seq<string>, n: nat, x: string, j: nat)
    requires n < |enabled| && init == enabled[..n] && x !in Absent(members, init) && x !in members
    requires (forall y :: y in Absent(members, init) <==> y in init && y !in members) && FirstIn(enabled, x, j)
    ensures j >= n
  {
    hide Absent;
    assert x !in init;
  }

  /** The search loop of `_populate_floor`. */
  method FindTarget(rows: seq<PackRow>, id: string) returns (i: nat)
    ensures i == Target(rows, id)
  {
    i := 0;
    while i < |rows| && !(rows[i].id == id || rows[i].isFloor)
      invariant i <= |rows|
      invariant forall k :: 0 <= k < i ==> rows[k].id != id && !rows[k].isFloor
    {
      i := i + 1;
    }
  }

  /** The append loop of `_populate_floor`. */
  method AppendAbsent(members: seq<string>, enabled: seq<string>) returns (grown: seq<string>, appended: seq<string>)
    ensures appended == Absent(members, enabled) && grown == members + appended
    ensures NoDup(appended) && forall x :: x in appended <==> x in enabled && x !in members
    ensures forall k, l, i: nat, j: nat ::
      0 <= k < l < |appended| && FirstIn(enabled, appended[k], i) && FirstIn(enabled, appended[l], j) ==> i < j
  {
    AbsentOrder(members, enabled);
    grown, appended := members, [];
    for k := 0 to |enabled|
      invariant appended == Absent(members, enabled[..k]) && grown == members + appended
    {
      assert enabled[..k + 1][..k] == enabled[..k];
      if enabled[k] !in grown {
        grown := grown + [enabled[k]];
        appended := appended + [enabled[k]];
      }
    }
    assert enabled[..|enabled|] == enabled;
  }

  class Migration {
    const store: Store
    var tenants: seq<Tenant>

    constructor (store: Store, tenants: seq<Tenant>)
      ensures this.store == store && this.tenants == tenants
    {
      this.store := store;
      this.tenants := tenants;
    }

    /** False when loading the store raised. */
    method EnsureFloorPack() returns (ok: bool, id: string)
      modifies store
      ensures store.file == Ensured(old(store.file))
      ensures ok <==> LoadRows(old(store.file)).Ok?
      ensures ok ==> HasFloor(store.file, id)
    {
      var got := store.Load();
      if got.Err? {
        return false, "";
      }
      var rows := got.value;
      LoadedRows(store.file);
      var floor := FloorOf(rows);
      if floor.Some? {
        return true, floor.value.id;
      }
      EnsureWrites(rows);
      var saved := store.Save(rows + [FLOOR]);
      return true, FLOOR_PACK_ID;
    }

    method PopulateFloor(enabled: seq<string>) returns (ok: bool)
      modifies store
      ensures store.file == Populated(Ensured(old(store.file)), enabled)
      ensures ok <==> LoadRows(old(store.file)).Ok?
    {
      var id;
      ok, id := EnsureFloorPack();
      if !ok {
        return;
      }
      var got := store.Load();
      var rows := got.value;
      LoadedRows(store.file);
      var i := FindTarget(rows, id);
      FloorIsThere(rows);
      var members, appended := AppendAbsent(rows[i].policyIds, enabled);
      if appended != [] {
        ExtendOneFloor(rows, i, appended);
        var saved := store.Save(rows[i := rows[i].(policyIds := members)]);
      }
    }

    /** The ids stamped on this call; None when the pack store does not load. */
    method Migrate(enabled: seq<string>, ts: int) returns (migrated: Option<seq<string>>)
      modifies this, store
      ensures LoadRows(old(store.file)).Ok? || Todo(old(Persist(store.file, tenants))) == [] ==>
        && Persist(store.file, tenants) == Boot(old(Persist(store.file, tenants)), enabled, ts)
        && migrated == Some(Names(Table(old(tenants)), Todo(old(Persist(store.file, tenants)))))
      ensures LoadRows(old(store.file)).Err? ==> store.file == old(store.file) && tenants == old(tenants)
      ensures LoadRows(old(store.file)).Err? && Todo(old(Persist(store.file, tenants))) != [] ==> migrated.None?
    {
      hide LoadRows, Ensured, Populated, Trace, Names, Stamped;
      ghost var p0 := Persist(store.file, tenants);
      var table := Table(tenants);
      var todo := Pending(tenants, |table|);
      var ids := [];
      NoNames(table);
      ghost var loads := LoadRows(store.file).Ok?;
      var k := 0;
      while k < |todo|
        invariant k <= |todo| && ids == Names(table, todo[..k])
        invariant LoadRows(store.file).Ok? == loads
        invariant !loads ==> k == 0 && Persist(store.file, tenants) == p0
        invariant Last(Trace(Persist(store.file, tenants), todo[k..], enabled, ts)) == Boot(p0, enabled, ts)
      {
        ghost var p := Persist(store.file, tenants);
        EnsuredLoads(store.file);
        PopulatedLoads(Ensured(store.file), enabled);
        var ok := PopulateFloor(enabled);
        if !ok {
          UnloadableStays(p.file, enabled);
          return None;
        }
        StampKeepsFile(Persist(store.file, tenants), todo[k], ts);
        tenants := Stamped(Persist(store.file, tenants), todo[k], ts).tenants;
        ids := ids + [table[todo[k]].id];
        NameSnoc(table, todo, k);
        assert todo[k..][1..] == todo[k + 1..];
        TraceStep(p, todo[k..], enabled, ts);
        k := k + 1;
      }
      assert todo[..|todo|] == todo;
      TraceEnd(Persist(store.file, tenants), enabled, ts);
      migrated := Some(ids);
    }
  }

  // ---- facts about the two file writes ---------------------------------------------------

  lemma LoadedRows(f: File)
    ensures LoadRows(f).Ok? ==> OneFloor(LoadRows(f).value) && Prefixed(LoadRows(f).value)
  {
  }

  lemma {:induction false} FloorOfMeaning(rows: seq<PackRow>)
    ensures FloorOf(rows).None? <==> forall r :: r in rows ==> !r.isFloor
    ensures FloorOf(rows).Some? ==> FloorOf(rows).value in rows && FloorOf(rows).value.isFloor
  {
    if rows == [] {
    } else {
      FloorOfMeaning(rows[..|rows| - 1]);
      assert rows == rows[..|rows| - 1] + [rows[|rows| - 1]];
    }
  }

  /** With at most one floor, any floor row is the floor. */
  lemma FloorIs(rows: seq<PackRow>, r: PackRow)
    requires OneFloor(rows) && r in rows && r.isFloor
    ensures FloorOf(rows) == Some(r)
  {
    FloorOfMeaning(rows);
    var f := FloorOf(rows).value;
    var i :| 0 <= i < |rows| && rows[i] == r;
    var j :| 0 <= j < |rows| && rows[j] == f;
    assert i == j || i < j || j < i;
  }

  lemma TraceStep(p: Persist, todo: seq<nat>, enabled: seq<string>, ts: int)
    requires todo != []
    ensures var p2 := p.(file := Populated(Ensured(p.file), enabled));
      Last(Trace(p, todo, enabled, ts)) == Last(Trace(Stamped(p2, todo[0], ts), todo[1..], enabled, ts))
  {
  }

  lemma UnloadableStays(f: File, enabled: seq<string>)
    requires LoadRows(f).Err?
    ensures Populated(Ensured(f), enabled) == f
  {
  }

  lemma TraceEnd(p: Persist, enabled: seq<string>, ts: int)
    ensures Trace(p, [], enabled, ts) == [p]
  {
  }

  lemma StampKeepsFile(p: Persist, i: nat, ts: int)
    ensures Stamped(p, i, ts).file == p.file
  {
  }

  lemma NoNames(table: seq<Tenant>)
    ensures Names(table, []) == []
  {
  }

  lemma NameSnoc(table: seq<Tenant>, ks: seq<nat>, k: nat)
    requires k < |ks| && forall i :: 0 <= i < |ks| ==> ks[i] < |table|
    ensures Names(table, ks[..k + 1]) == Names(table, ks[..k]) + [table[ks[k]].id]
  {
    assert ks[..k + 1][..k] == ks[..k];
  }

  /** Creating the floor: the new row is the floor of the saved file. */
  lemma EnsureWrites(rows: seq<PackRow>)
    requires OneFloor(rows) && Prefixed(rows) && FloorOf(rows).None?
    ensures OneFloor(rows + [FLOOR])
    ensures LoadRows(Written(SortById(rows + [FLOOR]))) == Ok(SortById(rows + [FLOOR]))
    ensures FloorOf(SortById(rows + [FLOOR])) == Some(FLOOR)
  {
    hide SortById, FloorOf, LoadRows, Written;
    FloorOfMeaning(rows);
    var all := rows + [FLOOR];
    assert forall i :: 0 <= i < |rows| ==> all[i] in rows;
    assert OneFloor(all) && Prefixed(all);
    hide OneFloor, Prefixed;
    SaveLoad(all);
    SortOneFloor(all);
    SortMembers(all);
    FloorIs(SortById(all), FLOOR);
  }

  lemma FloorIsThere(rows: seq<PackRow>)
    requires FloorOf(rows).Some?
    ensures Target(rows, FloorOf(rows).value.id) < |rows|
  {
    FloorOfMeaning(rows);
  }

  lemma ExtendOneFloor(rows: seq<PackRow>, i: nat, more: seq<string>)
    requires OneFloor(rows) && Prefixed(rows) && i < |rows|
    ensures OneFloor(Extend(rows, i, more)) && Prefixed(Extend(rows, i, more))
    ensures LoadRows(Written(SortById(Extend(rows, i, more)))) == Ok(SortById(Extend(rows, i, more)))
  {
    var xs := Extend(rows, i, more);
    forall r | r in xs ensures PREFIX <= r.id {
      var k :| 0 <= k < |xs| && xs[k] == r;
      assert rows[k] in rows;
    }
    SaveLoad(xs);
  }

  lemma EnsuredLoads(f: File)
    ensures LoadRows(Ensured(f)).Ok? == LoadRows(f).Ok?
    ensures LoadRows(f).Ok? ==> FloorOf(LoadRows(Ensured(f)).value).Some?
  {
    hide LoadRows, Written, SortById, FloorOf;
    LoadedRows(f);
    if LoadRows(f).Ok? && FloorOf(LoadRows(f).value).None? {
      EnsureWrites(LoadRows(f).value);
    }
  }

  lemma PopulatedLoads(f: File, enabled: seq<string>)
    ensures LoadRows(Populated(f, enabled)).Ok? == LoadRows(f).Ok?
  {
    hide LoadRows, Written, SortById, FloorOf, Absent;
    LoadedRows(f);
    if LoadRows(f).Ok? && FloorOf(LoadRows(f).value).Some? {
      var rows := LoadRows(f).value;
      var i := Target(rows, FloorOf(rows).value.id);
      if i < |rows| {
        ExtendOneFloor(rows, i, Absent(rows[i].policyIds, enabled));
      }
    }
  }
}
