/** The active-pack list of one session row: the serial meaning of activate, deactivate and touch. */
module SessionPacks {
  import Json
  import opened Lists

  type Option<T> = Json.Option<T>
  const TTL := 30 * 24 * 3600

  datatype Row = Row(packs: seq<string>, activatedAt: int, lastSeen: int, expires: int)

  datatype Op = Activate(pack: string, now: int) | Deactivate(pack: string, now: int) | Touch(now: int)

  // ---- _dedupe_pack_ids --------------------------------------------------------

  /** Non-empty ids, each at its first occurrence. */
  function Dedupe(s: seq<string>): seq<string> {
    if s == [] then []
    else
      var d, last := Dedupe(s[..|s| - 1]), s[|s| - 1];
      if last == "" || last in d then d else d + [last]
  }

  function Texts(raw: seq<Json.Value>): seq<string> {
    if raw == [] then []
    else
      var init := Texts(raw[..|raw| - 1]);
      match raw[|raw| - 1]
      case Str(s) => init + [s]
      case _ => init
  }

  method DedupePackIds(raw: seq<Json.Value>) returns (out: seq<string>)
    ensures out == Dedupe(Texts(raw))
  {
    hide Dedupe, Texts;
    var seen: set<string> := {};
    out := [];
    NoTexts();
    for i := 0 to |raw|
      invariant out == Dedupe(Texts(raw[..i]))
      invariant forall x :: x in seen <==> x in out
    {
      TextsSnoc(raw, i);
      match raw[i] {
        case Str(p) =>
          DedupeSnoc(Texts(raw[..i]), p);
          if p != "" && p !in seen {
            seen := seen + {p};
            out := out + [p];
          }
        case _ =>
      }
    }
    assert raw[..|raw|] == raw;
  }

  lemma NoTexts()
    ensures Dedupe(Texts([])) == []
  {
  }

  lemma TextsSnoc(raw: seq<Json.Value>, i: nat)
    requires i < |raw|
    ensures Texts(raw[..i + 1]) == match raw[i] case Str(s) => Texts(raw[..i]) + [s] case _ => Texts(raw[..i])
  {
    assert raw[..i + 1][..i] == raw[..i];
  }

  lemma DedupeSnoc(s: seq<string>, x: string)
    ensures Dedupe(s + [x]) == if x == "" || x in Dedupe(s) then Dedupe(s) else Dedupe(s) + [x]
  {
    assert (s + [x])[..|s|] == s;
  }

  ghost predicate Clean(s: seq<string>) {
    NoDup(s) && "" !in s
  }

  /** The result is clean, has exactly the non-empty ids, in order of first occurrence. */
  lemma {:induction false} DedupeMeaning(s: seq<string>)
    ensures Clean(Dedupe(s))
    ensures forall x :: x in Dedupe(s) <==> x in s && x != ""
    ensures forall k, l, i: nat, j: nat ::
      0 <= k < l < |Dedupe(s)| && FirstIn(s, Dedupe(s)[k], i) && FirstIn(s, Dedupe(s)[l], j) ==> i < j
  {
    if s == [] {
    } else {
      var n := |s| - 1;
      var d := Dedupe(s[..n]);
      DedupeMeaning(s[..n]);
      assert s == s[..n] + [s[n]];
      forall k, l, i: nat, j: nat
        | 0 <= k < l < |Dedupe(s)| && FirstIn(s, Dedupe(s)[k], i) && FirstIn(s, Dedupe(s)[l], j)
        ensures i < j
      {
        assert Dedupe(s)[k] == d[k] && d[k] in s[..n];
        assert i < n && s[..n][..i] == s[..i];
        if l < |d| {
          assert d[l] in s[..n];
          assert j < n && s[..n][..j] == s[..j];
          assert FirstIn(s[..n], d[k], i) && FirstIn(s[..n], d[l], j);
        }
      }
    }
  }

  lemma {:induction false} DedupeClean(s: seq<string>)
    requires Clean(s)
    ensures Dedupe(s) == s
  {
    if s == [] {
    } else {
      DedupeClean(s[..|s| - 1]);
      assert s == s[..|s| - 1] + [s[|s| - 1]];
    }
  }

  // ---- serial meaning ------------------------------------------------------------

  function Without(s: seq<string>, p: string): seq<string> {
    if s == [] then []
    else
      var init := Without(s[..|s| - 1], p);
      if s[|s| - 1] == p then init else init + [s[|s| - 1]]
  }

  /** `list.remove`: drop the first occurrence. */
  function Remove(s: seq<string>, p: string): seq<string>
    requires p in s
  {
    if s[0] == p then s[1..] else [s[0]] + Remove(s[1..], p)
  }

  /** One committed operation: the new row and the `changed` flag it reports. */
  function Apply(row: Option<Row>, op: Op): (Option<Row>, bool) {
    match row
    case None =>
      if op.Activate? then (Json.Some(Row([op.pack], op.now, op.now, op.now + TTL)), true) else (Json.None, false)
    case Some(r) =>
      if op.Touch? then (Json.Some(r.(packs := Dedupe(r.packs), lastSeen := op.now)), false)
      else
        var current := Dedupe(r.packs);
        if op.Activate? then
          if op.pack in current then (Json.Some(r.(packs := current, lastSeen := op.now)), false)
          else (Json.Some(r.(packs := current + [op.pack], lastSeen := op.now, expires := op.now + TTL)), true)
        else
          if op.pack in current then (Json.Some(r.(packs := Remove(current, op.pack), lastSeen := op.now)), true)
          else (Json.Some(r.(packs := current, lastSeen := op.now)), false)
  }

  function Run(ops: seq<Op>): Option<Row> {
    if ops == [] then Json.None else Apply(Run(ops[..|ops| - 1]), ops[|ops| - 1]).0
  }

  /** The `changed` flag of the i-th operation of the serial run. */
  function Changed(ops: seq<Op>, i: nat): bool
    requires i < |ops|
  {
    Apply(Run(ops[..i]), ops[i]).1
  }

  function Packs(row: Option<Row>): seq<string> {
    match row case None => [] case Some(r) => r.packs
  }

  // ---- independent reading of the history ------------------------------------------

  ghost predicate ActivatedAt(ops: seq<Op>, p: string, i: int) {
    0 <= i < |ops| && ops[i].Activate? && ops[i].pack == p
  }

  ghost predicate DroppedIn(ops: seq<Op>, p: string, lo: int, hi: int) {
    exists k :: lo < k < hi && 0 <= k < |ops| && ops[k].Deactivate? && ops[k].pack == p
  }

  /** Operation i put its pack on the list and nothing has taken it off since. */
  ghost predicate Live(ops: seq<Op>, i: int)
    requires 0 <= i < |ops|
  {
    && ops[i].Activate?
    && !DroppedIn(ops, ops[i].pack, i, |ops|)
    && forall j :: j < i && ActivatedAt(ops, ops[i].pack, j) ==> DroppedIn(ops, ops[i].pack, j, i)
  }

  /** The packs of the live operations, oldest first. */
  ghost function LiveUpTo(ops: seq<Op>, n: nat): seq<string>
    requires n <= |ops|
  {
    if n == 0 then []
    else if Live(ops, n - 1) then LiveUpTo(ops, n - 1) + [ops[n - 1].pack]
    else LiveUpTo(ops, n - 1)
  }

  ghost function Score(ops: seq<Op>): int {
    if ops == [] then 0
    else
      var n := |ops| - 1;
      Score(ops[..n]) + (if !Changed(ops, n) then 0 else if ops[n].Activate? then 1 else -1)
  }

  /** The list is the live packs in activation order, and its length counts the changes. */
  ghost predicate Correct(ops: seq<Op>) {
    Packs(Run(ops)) == LiveUpTo(ops, |ops|) && |Packs(Run(ops))| == Score(ops)
  }

  ghost predicate Over(ops: seq<Op>, ids: set<string>) {
    forall i :: 0 <= i < |ops| ==> ops[i].Touch? || ops[i].pack in ids
  }

  lemma {:induction false} RemoveIsWithout(s: seq<string>, p: string)
    requires NoDup(s) && p in s
    ensures Remove(s, p) == Without(s, p) && |Remove(s, p)| == |s| - 1
  {
    if s[0] == p {
      WithoutAbsent(s[1..], p);
      WithoutCons(s, p);
    } else {
      RemoveIsWithout(s[1..], p);
      WithoutCons(s, p);
    }
  }

  lemma WithoutSnoc(s: seq<string>, x: string, p: string)
    ensures Without(s + [x], p) == Without(s, p) + Kept(x, p)
  {
    assert (s + [x])[..|s|] == s;
  }

  /** What is left of one id. */
  function Kept(x: string, p: string): seq<string> {
    if x == p then [] else [x]
  }

  lemma WithoutOne(x: string, p: string)
    ensures Without([], p) == [] && Without([x], p) == Kept(x, p)
  {
    assert [x][..0] == [];
  }

  lemma {:induction false} WithoutFront(x: string, t: seq<string>, p: string)
    ensures Without([x] + t, p) == Kept(x, p) + Without(t, p)
  {
    hide Without, Kept;
    if t == [] {
      assert [x] + t == [x];
      WithoutOne(x, p);
    } else {
      var init, y := t[..|t| - 1], t[|t| - 1];
      WithoutFront(x, init, p);
      assert t == init + [y];
      Concat([x], init, [y]);
      Concat(Kept(x, p), Without(init, p), Kept(y, p));
      WithoutSnoc(init, y, p);
      WithoutSnoc([x] + init, y, p);
    }
  }

  lemma WithoutCons(s: seq<string>, p: string)
    requires s != []
    ensures Without(s, p) == (if s[0] == p then [] else [s[0]]) + Without(s[1..], p)
  {
    hide Without;
    assert s == [s[0]] + s[1..];
    WithoutFront(s[0], s[1..], p);
  }

  lemma {:induction false} WithoutAbsent(s: seq<string>, p: string)
    requires p !in s
    ensures Without(s, p) == s
  {
    if s == [] {
    } else {
      WithoutAbsent(s[..|s| - 1], p);
      assert s == s[..|s| - 1] + [s[|s| - 1]];
    }
  }

  lemma {:induction false} WithoutMembers(s: seq<string>, p: string)
    ensures forall x :: x in Without(s, p) <==> x in s && x != p
  {
    if s == [] {
    } else {
      WithoutMembers(s[..|s| - 1], p);
      assert s == s[..|s| - 1] + [s[|s| - 1]];
    }
  }

  lemma {:induction false} WithoutClean(s: seq<string>, p: string)
    requires Clean(s)
    ensures Clean(Without(s, p))
  {
    WithoutMembers(s, p);
    if s == [] {
    } else {
      WithoutMembers(s[..|s| - 1], p);
      WithoutClean(s[..|s| - 1], p);
      assert s[|s| - 1] !in s[..|s| - 1];
    }
  }

  /** Rows reached with non-empty ids stay free of duplicates. */
  lemma {:induction false} RunClean(ops: seq<Op>, ids: set<string>)
    requires Over(ops, ids) && "" !in ids
    ensures Clean(Packs(Run(ops)))
  {
    if ops == [] {
    } else {
      hide Run, Apply, Clean;
      var n := |ops| - 1;
      RunClean(ops[..n], ids);
      RunSnoc(ops);
      ApplyClean(Run(ops[..n]), ops[n]);
    }
  }

  lemma ApplyClean(row: Option<Row>, op: Op)
    requires Clean(Packs(row)) && (op.Touch? || op.pack != "")
    ensures Clean(Packs(Apply(row, op).0))
  {
    var before := Packs(row);
    DedupeClean(before);
    hide Dedupe, Remove, Without;
    if op.Deactivate? && op.pack in before {
      RemoveIsWithout(before, op.pack);
      WithoutClean(before, op.pack);
    }
  }

  // ---- the list is the live packs ----------------------------------------------------

  /** Appending an operation: which earlier operations stay live. */
  lemma LiveStep(ops: seq<Op>, op: Op, i: nat)
    requires i < |ops|
    ensures Live(ops + [op], i) <==> Live(ops, i) && !(op.Deactivate? && op.pack == ops[i].pack)
  {
    var all, n := ops + [op], |ops|;
    assert all[i] == ops[i];
    if ops[i].Activate? {
      var p := ops[i].pack;
      assert DroppedIn(all, p, i, n + 1) <==> DroppedIn(ops, p, i, n) || (op.Deactivate? && op.pack == p) by {
        if op.Deactivate? && op.pack == p {
          assert all[n] == op;
        } else if DroppedIn(ops, p, i, n) {
          var k :| i < k < n && ops[k].Deactivate? && ops[k].pack == p;
          assert all[k] == ops[k];
        }
      }
      forall j | j < i
        ensures ActivatedAt(all, p, j) <==> ActivatedAt(ops, p, j)
        ensures DroppedIn(all, p, j, i) <==> DroppedIn(ops, p, j, i)
      {
        assert forall k :: 0 <= k < n ==> all[k] == ops[k];
      }
    }
  }

  lemma WithoutNone(op: Op)
    ensures op.Deactivate? ==> Without([], op.pack) == []
  {
  }

  lemma LiveUnroll(ops: seq<Op>, n: nat)
    requires 0 < n <= |ops|
    ensures Live(ops, n - 1) ==> ops[n - 1].Activate? && LiveUpTo(ops, n) == LiveUpTo(ops, n - 1) + [ops[n - 1].pack]
    ensures !Live(ops, n - 1) ==> LiveUpTo(ops, n) == LiveUpTo(ops, n - 1)
  {
    hide DroppedIn, ActivatedAt;
  }

  lemma {:induction false} LiveUpToStep(ops: seq<Op>, op: Op, n: nat)
    requires n <= |ops|
    ensures LiveUpTo(ops + [op], n) == if op.Deactivate? then Without(LiveUpTo(ops, n), op.pack) else LiveUpTo(ops, n)
  {
    if n == 0 {
      WithoutNone(op);
    } else {
      hide Live, LiveUpTo, Without;
      LiveUpToStep(ops, op, n - 1);
      assert (ops + [op])[n - 1] == ops[n - 1];
      LiveStep(ops, op, n - 1);
      LiveUnroll(ops, n);
      LiveUnroll(ops + [op], n);
      if Live(ops, n - 1) && op.Deactivate? {
        WithoutSnoc(LiveUpTo(ops, n - 1), ops[n - 1].pack, op.pack);
      }
    }
  }

  /** A pack is listed exactly when some activation of it has not been dropped. */
  lemma {:induction false} ListedIff(ops: seq<Op>, p: string, n: nat)
    requires n <= |ops|
    ensures p in LiveUpTo(ops, n) <==> exists i: nat :: i < n && Live(ops, i) && ops[i].pack == p
  {
    if n == 0 {
    } else {
      ListedIff(ops, p, n - 1);
      if Live(ops, n - 1) && ops[n - 1].pack == p {
        assert p in LiveUpTo(ops, n);
      }
    }
  }

  /** From an undropped activation, walk back to the one that is live. */
  lemma {:induction false} FindLive(ops: seq<Op>, p: string, i: nat) returns (k: nat)
    requires i < |ops| && ActivatedAt(ops, p, i) && !DroppedIn(ops, p, i, |ops|)
    ensures k <= i && Live(ops, k) && ops[k].pack == p
  {
    if Live(ops, i) {
      k := i;
    } else {
      var j :| j < i && ActivatedAt(ops, p, j) && !DroppedIn(ops, p, j, i);
      assert !DroppedIn(ops, p, j, |ops|) by {
        if DroppedIn(ops, p, j, |ops|) {
          var d :| j < d < |ops| && 0 <= d && ops[d].Deactivate? && ops[d].pack == p;
        }
      }
      k := FindLive(ops, p, j);
    }
  }

  /** A new activation is live exactly when its pack is not already listed. */
  lemma NewActivation(ops: seq<Op>, op: Op)
    requires op.Activate?
    ensures Live(ops + [op], |ops|) <==> op.pack !in LiveUpTo(ops, |ops|)
  {
    var all, n, p := ops + [op], |ops|, op.pack;
    assert all[n] == op;
    ListedIff(ops, p, n);
    assert forall k :: 0 <= k < n ==> all[k] == ops[k];
    if p in LiveUpTo(ops, n) {
      var i: nat :| i < n && Live(ops, i) && ops[i].pack == p;
      assert ActivatedAt(all, p, i) && !DroppedIn(all, p, i, n);
    } else {
      forall j | j < n && ActivatedAt(all, p, j) ensures DroppedIn(all, p, j, n) {
        if !DroppedIn(all, p, j, n) {
          assert ActivatedAt(ops, p, j) && !DroppedIn(ops, p, j, n);
          var k := FindLive(ops, p, j);
        }
      }
    }
  }

  lemma {:induction false} ListIsLivePacks(ops: seq<Op>, ids: set<string>)
    requires Over(ops, ids) && "" !in ids
    ensures Correct(ops)
  {
    if ops == [] {
    } else {
      var n := |ops| - 1;
      var init, op := ops[..n], ops[n];
      assert ops == init + [op];
      ListIsLivePacks(init, ids);
      RunClean(init, ids);
      var before := Packs(Run(init));
      DedupeClean(before);
      LiveUpToStep(init, op, n);
      if op.Activate? {
        NewActivation(init, op);
      } else if op.Deactivate? {
        if op.pack in before {
          RemoveIsWithout(before, op.pack);
        } else {
          WithoutAbsent(before, op.pack);
        }
      }
    }
  }

  /** Exact condition: the histories over a set of pack ids are all correct iff the empty id is not among them. */
  lemma CorrectIffNoEmptyId(ids: set<string>)
    ensures (forall ops :: Over(ops, ids) ==> Correct(ops)) <==> "" !in ids
  {
    if "" !in ids {
      forall ops | Over(ops, ids) ensures Correct(ops) {
        ListIsLivePacks(ops, ids);
      }
    } else {
      var a := Activate("", 0);
      EmptyIdTwice();
      hide Correct;
      assert Over([a, a], ids);
    }
  }

  /** The failing history: activating the empty id twice reports two changes of a list of one. */
  lemma EmptyIdTwice()
    ensures !Correct([Activate("", 0), Activate("", 0)])
  {
    var a := Activate("", 0);
    var once, twice := [a], [a, a];
    var none: seq<Op> := [];
    assert once[..0] == none && twice[..1] == once;
    assert Dedupe([""]) == [] by {
      assert [""][..0] == [];
    }
    assert Run(none) == Json.None;
    assert Apply(Json.None, a) == (Json.Some(Row([""], 0, 0, TTL)), true);
    assert [] + [""] == [""];
    assert Apply(Json.Some(Row([""], 0, 0, TTL)), a) == (Json.Some(Row([""], 0, 0, TTL)), true);
    hide Apply, Dedupe, Run;
    RunSnoc(once);
    RunSnoc(twice);
    assert Score(none) == 0 && Score(once) == 1;
    assert Score(twice) == 2;
    assert |Packs(Run(twice))| == 1;
  }

  /** The expiry is the time of the last changed activation plus thirty days. */
  lemma {:induction false} ExpiryFollowsLastChange(ops: seq<Op>, i: nat)
    requires i < |ops| && ops[i].Activate? && Changed(ops, i)
    requires forall j :: i < j < |ops| && ops[j].Activate? ==> !Changed(ops, j)
    ensures Run(ops).Some? && Run(ops).value.expires == ops[i].now + 2_592_000
  {
    hide Run, Apply;
    var n := |ops| - 1;
    var init := ops[..n];
    assert init[..i] == ops[..i];
    RunSnoc(ops);
    if i == n {
      ActivatedExpiry(Run(init), ops[n]);
    } else {
      forall j | i < j < n && init[j].Activate? ensures !Changed(init, j) {
        assert init[..j] == ops[..j] && !Changed(ops, j);
      }
      ExpiryFollowsLastChange(init, i);
      KeptExpiry(Run(init), ops[n]);
    }
  }

  lemma RunSnoc(ops: seq<Op>)
    requires ops != []
    ensures var n := |ops| - 1;
      Run(ops) == Apply(Run(ops[..n]), ops[n]).0 && Changed(ops, n) == Apply(Run(ops[..n]), ops[n]).1
  {
  }

  lemma ActivatedExpiry(row: Option<Row>, op: Op)
    requires op.Activate? && Apply(row, op).1
    ensures Apply(row, op).0.Some? && Apply(row, op).0.value.expires == op.now + TTL
  {
    hide Dedupe, Remove;
  }

  lemma KeptExpiry(row: Option<Row>, op: Op)
    requires row.Some? && (op.Activate? ==> !Apply(row, op).1)
    ensures Apply(row, op).0.Some? && Apply(row, op).0.value.expires == row.value.expires
  {
    hide Dedupe, Remove;
  }

  /** The row exists exactly once something was activated. It was last seen at the last operation,
      whatever that was, and activated at the first activate of the session. */
  lemma {:induction false} TimesFollow(ops: seq<Op>)
    ensures Run(ops).Some? <==> exists i :: 0 <= i < |ops| && ops[i].Activate?
    ensures Run(ops).Some? ==> Run(ops).value.lastSeen == ops[|ops| - 1].now
    ensures forall i :: FirstActivate(ops, i) ==> Run(ops).Some? && Run(ops).value.activatedAt == ops[i].now
  {
    if ops == [] {
    } else {
      var n := |ops| - 1;
      var init := ops[..n];
      TimesFollow(init);
      RunSnoc(ops);
      ApplyTimes(Run(init), ops[n]);
      hide Run, Apply;
      forall i | FirstActivate(ops, i) ensures i < n ==> FirstActivate(init, i) {
      }
      if Run(init).Some? {
        var k :| 0 <= k < n && init[k].Activate?;
        assert ops[k].Activate?;
      } else {
        assert forall k :: 0 <= k < n ==> ops[k] == init[k];
      }
    }
  }

  ghost predicate FirstActivate(ops: seq<Op>, i: int) {
    0 <= i < |ops| && ops[i].Activate? && forall k :: 0 <= k < i ==> !ops[k].Activate?
  }

  lemma ApplyTimes(row: Option<Row>, op: Op)
    ensures var after := Apply(row, op).0;
      && (after.Some? <==> row.Some? || op.Activate?)
      && (after.Some? ==> after.value.lastSeen == op.now)
      && (row.Some? ==> after.value.activatedAt == row.value.activatedAt)
      && (row.None? && op.Activate? ==> after.value.activatedAt == op.now)
  {
    hide Dedupe, Remove;
  }
}
