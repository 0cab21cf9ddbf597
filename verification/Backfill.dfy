/** The two-step schema migration of the review queue: copy the legacy keys into the canonical
    columns chunk by chunk behind an id watermark, then drop the legacy columns if nothing is left. */
module Backfill {
  import opened Json

  /** One row of hitl_item; None is SQL NULL. */
  datatype Row = Row(subject: Option<string>, payloadHash: Option<string>,
                     matter: Option<string>, docId: Option<string>)

  type Table = map<int, Row>

  datatype Schema = Schema(hasTable: bool, cols: set<string>, indexes: set<string>)

  const LEGACY_INDEX := "ix_hitl_matter_status"

  /** Neither NULL nor the empty string. */
  predicate Present(o: Option<string>) {
    o.Some? && o.value != ""
  }

  function OrNull(o: Option<string>): Option<string> {
    if Present(o) then o else None
  }

  predicate Updates(r: Row) {
    r.subject.None? && (Present(r.matter) || Present(r.docId))
  }

  /** What the scan does to one row. */
  function Filled(r: Row): Row {
    if Updates(r) then r.(subject := OrNull(r.matter), payloadHash := OrNull(r.docId)) else r
  }

  /** In plain terms: a row that is reached, has no subject and has a matter or a document id gets the
      matter as subject and the document id as payload hash, each NULL if empty, and keeps both legacy
      keys; any other row stays as it is. */
  ghost predicate Copied(before: Row, after: Row, reached: bool) {
    var hasMatter := before.matter.Some? && before.matter.value != "";
    var hasDoc := before.docId.Some? && before.docId.value != "";
    if reached && before.subject.None? && (hasMatter || hasDoc) then
      && after.subject == (if hasMatter then before.matter else None)
      && after.payloadHash == (if hasDoc then before.docId else None)
      && after.matter == before.matter && after.docId == before.docId
    else after == before
  }

  ghost predicate CopiedUpTo(before: Table, after: Table, w: int) {
    after.Keys == before.Keys && forall id :: id in before ==> Copied(before[id], after[id], 0 < id <= w)
  }

  ghost predicate CopiedAll(before: Table, after: Table) {
    after.Keys == before.Keys && forall id :: id in before ==> Copied(before[id], after[id], 0 < id)
  }

  lemma FilledIsCopied(t: Table, w: int)
    ensures CopiedUpTo(t, FilledUpTo(t, w), w) && CopiedAll(t, FilledAll(t))
  {
  }

  /** The rows counted as written. */
  lemma UpdatedAre(t: Table)
    ensures UpdatedAll(t) == set id | id in t && 0 < id && t[id].subject.None?
      && ((t[id].matter.Some? && t[id].matter.value != "") || (t[id].docId.Some? && t[id].docId.value != ""))
  {
  }

  /** The single-pass meaning: ids above zero and up to the watermark are filled. */
  function FilledUpTo(t: Table, w: int): Table {
    map id | id in t :: if 0 < id <= w then Filled(t[id]) else t[id]
  }

  function FilledAll(t: Table): Table {
    map id | id in t :: if 0 < id then Filled(t[id]) else t[id]
  }

  function UpdatedUpTo(t: Table, w: int): set<int> {
    set id | id in t && 0 < id <= w && Updates(t[id])
  }

  function UpdatedAll(t: Table): set<int> {
    set id | id in t && 0 < id && Updates(t[id])
  }

  // ---- SELECT id WHERE subject IS NULL AND id > w ORDER BY id LIMIT n -------------------

  function Eligible(t: Table, w: int): set<int> {
    set id | id in t && w < id && t[id].subject.None?
  }

  lemma Pick<T>(s: set<T>) returns (x: T)
    requires s != {}
    ensures x in s
  {
    x :| x in s;
  }

  lemma {:induction false} HasLeast(ids: set<int>, one: int) returns (m: int)
    requires one in ids
    ensures m in ids && forall x :: x in ids ==> m <= x
  {
    m := one;
    if other :| other in ids && other < one {
      m := HasLeast(ids - {one}, other);
      forall x | x in ids ensures m <= x {
        assert x == one || x in ids - {one};
      }
    } else {
      forall x | x in ids ensures one <= x {
      }
    }
  }

  function Least(ids: set<int>): (m: int)
    requires ids != {}
    ensures m in ids && forall x :: x in ids ==> m <= x
  {
    assert exists m :: m in ids && forall x :: x in ids ==> m <= x by {
      var one := Pick(ids);
      var k := HasLeast(ids, one);
    }
    var m :| m in ids && forall x :: x in ids ==> m <= x;
    m
  }

  /** The n least ids, or all of them, increasing. */
  ghost predicate IsPage(ids: set<int>, n: nat, page: seq<int>) {
    && (forall i, j :: 0 <= i < j < |page| ==> page[i] < page[j])
    && (forall x :: x in page ==> x in ids)
    && (forall i, x :: 0 <= i < |page| && x in ids && x < page[i] ==> x in page)
    && |page| == if |ids| <= n then |ids| else n
  }

  function Page(ids: set<int>, n: nat): (page: seq<int>)
    ensures IsPage(ids, n, page)
    ensures page == [] <==> ids == {} || n == 0
  {
    if ids == {} || n == 0 then []
    else
      var m := Least(ids);
      var rest := Page(ids - {m}, n - 1);
      PageCons(ids, n, m, rest);
      [m] + rest
  }

  lemma PageCons(ids: set<int>, n: nat, m: int, rest: seq<int>)
    requires n > 0 && m in ids && (forall x :: x in ids ==> m <= x) && IsPage(ids - {m}, n - 1, rest)
    ensures IsPage(ids, n, [m] + rest)
  {
    var page := [m] + rest;
    assert |ids - {m}| == |ids| - 1;
    forall i, j | 0 <= i < j < |page| ensures page[i] < page[j] {
      assert page[j] in rest && page[j] in ids - {m};
    }
    forall i, x | 0 <= i < |page| && x in ids && x < page[i] ensures x in page {
      assert page[0] == m;
      if x != m {
        assert i > 0 && page[i] == rest[i - 1] && x in ids - {m};
      }
    }
  }

  datatype BackfillResult = Count(n: nat) | NoSubjectColumn

  datatype StepName = DropIndex | DropMatter | DropDocId
  datatype StepOutcome = AlreadyApplied | WouldRun | Applied
  datatype DropResult =
    | NoTable
    | SubjectMissing
    | NullSubjects(n: nat)
    | Report(steps: map<StepName, StepOutcome>, dryRun: bool)

  /** Rows that still have no subject. */
  function Unkeyed(t: Table): set<int> {
    set id | id in t && t[id].subject.None?
  }

  function Dropped(t: Table): Table {
    map id | id in t :: t[id].(matter := None, docId := None)
  }

  /** The same rows with the legacy keys gone. */
  ghost predicate KeptCanonical(before: Table, after: Table) {
    && after.Keys == before.Keys
    && forall id :: id in before ==>
         && after[id].subject == before[id].subject && after[id].payloadHash == before[id].payloadHash
         && after[id].matter == None && after[id].docId == None
  }

  predicate Due(s: Schema, k: StepName) {
    match k
    case DropIndex => LEGACY_INDEX in s.indexes
    case DropMatter => "matter" in s.cols
    case DropDocId => "doc_id" in s.cols
  }

  function NextSteps(s: Schema, outcome: StepOutcome): map<StepName, StepOutcome> {
    map k | k in {DropIndex, DropMatter, DropDocId} :: if Due(s, k) then outcome else AlreadyApplied
  }

  /** Record one outcome for every planned step. */
  method RunPlan(plan: seq<StepName>, before: map<StepName, StepOutcome>, outcome: StepOutcome)
    returns (done: map<StepName, StepOutcome>)
    ensures forall k :: k in done <==> k in before || k in plan
    ensures forall k :: k in done ==> done[k] == if k in plan then outcome else before[k]
  {
    done := before;
    for i := 0 to |plan|
      invariant forall k :: k in done <==> k in before || k in plan[..i]
      invariant forall k :: k in done ==> done[k] == if k in plan[..i] then outcome else before[k]
    {
      done := done[plan[i] := outcome];
      assert plan[..i + 1] == plan[..i] + [plan[i]];
    }
    assert plan[..|plan|] == plan;
  }

  /** The steps still to do, in order, and the ones an earlier run has done. */
  method Plan(schema: Schema) returns (plan: seq<StepName>, done: map<StepName, StepOutcome>)
    ensures forall k :: (k in plan <==> Due(schema, k)) && (k in done <==> !Due(schema, k))
    ensures forall k :: k in done ==> done[k] == AlreadyApplied
  {
    plan, done := [], map[];
    if LEGACY_INDEX in schema.indexes {
      plan := plan + [DropIndex];
    } else {
      done := done[DropIndex := AlreadyApplied];
    }
    if "matter" in schema.cols {
      plan := plan + [DropMatter];
    } else {
      done := done[DropMatter := AlreadyApplied];
    }
    if "doc_id" in schema.cols {
      plan := plan + [DropDocId];
    } else {
      done := done[DropDocId := AlreadyApplied];
    }
  }

  class Database {
    var schema: Schema
    var rows: Table

    constructor (schema: Schema, rows: Table)
      ensures this.schema == schema && this.rows == rows
    {
      this.schema := schema;
      this.rows := rows;
    }

    /** The transaction of one chunk: the new watermark and the number of rows written. */
    method FillPage(page: seq<int>, from: int, ghost limit: nat, ghost start: Table) returns (last: int, n: nat)
      requires 0 <= from && page != [] && rows == FilledUpTo(start, from) && page == Page(Eligible(rows, from), limit)
      modifies this`rows
      ensures from < last && last in start && rows == FilledUpTo(start, last) && CopiedUpTo(start, rows, last)
      ensures n + |UpdatedUpTo(start, from)| == |UpdatedUpTo(start, last)|
    {
      last, n := from, 0;
      for i := 0 to |page|
        invariant last == (if i == 0 then from else page[i - 1])
        invariant i > 0 ==> from < last && last in start
        invariant rows == FilledUpTo(start, last) && n + |UpdatedUpTo(start, from)| == |UpdatedUpTo(start, last)|
      {
        var id := page[i];
        Advance(start, from, page, i, last);
        last := id;
        var row := rows[id];
        if !Present(row.matter) && !Present(row.docId) {
          continue;
        }
        rows := rows[id := row.(subject := OrNull(row.matter), payloadHash := OrNull(row.docId))];
        n := n + 1;
      }
      FilledIsCopied(start, last);
    }

    /** `backfill_hitl`. Whatever the chunk size, the table ends as the single-pass map. */
    method BackfillHitl(chunk: nat) returns (r: BackfillResult)
      modifies this`rows
      ensures r.NoSubjectColumn? <==> schema.hasTable && "subject" !in schema.cols
      ensures var runs := schema.hasTable && {"subject", "matter", "doc_id"} <= schema.cols && chunk > 0;
        && rows == (if runs then FilledAll(old(rows)) else old(rows))
        && (runs ==> CopiedAll(old(rows), rows))
        && (r.Count? ==> r.n == if runs then |UpdatedAll(old(rows))| else 0)
    {
      FilledIsCopied(rows, 0);
      if !schema.hasTable {
        return Count(0);
      }
      if "subject" !in schema.cols {
        return NoSubjectColumn;
      }
      if "matter" !in schema.cols || "doc_id" !in schema.cols {
        return Count(0);
      }
      var total := 0;
      var last := 0;
      ghost var start := rows;
      assert UpdatedUpTo(start, 0) == {};
      while true
        invariant last >= 0 && rows == FilledUpTo(start, last) && total == |UpdatedUpTo(start, last)|
        invariant chunk == 0 ==> last == 0
        decreases set id | id in start && last < id
      {
        var page := Page(Eligible(rows, last), chunk);
        if page == [] {
          if chunk > 0 {
            NothingAbove(start, last);
          } else {
            assert FilledUpTo(start, 0) == start;
          }
          break;
        }
        var n;
        ghost var above := set id | id in start && last < id;
        last, n := FillPage(page, last, chunk, start);
        assert last in above && last !in (set id | id in start && last < id);
        total := total + n;
      }
      r := Count(total);
    }

    /** `drop_legacy_columns`: refuse while a row has no subject, else apply the missing steps. */
    method DropLegacyColumns(dryRun: bool) returns (r: DropResult)
      modifies this
      ensures r.NoTable? <==> !schema.hasTable
      ensures r.SubjectMissing? <==> schema.hasTable && "subject" !in old(schema).cols
      ensures r.NullSubjects? <==> schema.hasTable && "subject" in old(schema).cols && Unkeyed(old(rows)) != {}
      ensures r.NullSubjects? ==> r.n == |Unkeyed(old(rows))|
      ensures r.Report? ==>
        var outcome := if dryRun then WouldRun else Applied;
        && r.steps.Keys == {DropIndex, DropMatter, DropDocId}
        && r.steps[DropIndex] == (if "ix_hitl_matter_status" in old(schema).indexes then outcome else AlreadyApplied)
        && r.steps[DropMatter] == (if "matter" in old(schema).cols then outcome else AlreadyApplied)
        && r.steps[DropDocId] == (if "doc_id" in old(schema).cols then outcome else AlreadyApplied)
      ensures r.Report? ==> r == Report(NextSteps(old(schema), if dryRun then WouldRun else Applied), dryRun)
      ensures if r.Report? && !dryRun
        then schema == old(schema).(cols := old(schema).cols - {"matter", "doc_id"},
                                    indexes := old(schema).indexes - {LEGACY_INDEX})
             && rows == Dropped(old(rows)) && KeptCanonical(old(rows), rows)
        else schema == old(schema) && rows == old(rows)
    {
      if !schema.hasTable {
        return NoTable;
      }
      if "subject" !in schema.cols {
        return SubjectMissing;
      }
      var unkeyed := set id | id in rows && rows[id].subject.None?;
      if |unkeyed| > 0 {
        return NullSubjects(|unkeyed|);
      }
      var plan, done := Plan(schema);
      done := RunPlan(plan, done, if dryRun then WouldRun else Applied);
      assert done == NextSteps(schema, if dryRun then WouldRun else Applied);
      if !dryRun {
        schema := schema.(cols := schema.cols - {"matter", "doc_id"}, indexes := schema.indexes - {LEGACY_INDEX});
        rows := Dropped(rows);
      }
      return Report(done, dryRun);
    }
  }

  // ---- one row of the scan ---------------------------------------------------------------

  lemma NothingAbove(t: Table, w: int)
    requires w >= 0 && Eligible(FilledUpTo(t, w), w) == {}
    ensures FilledAll(t) == FilledUpTo(t, w) && UpdatedAll(t) == UpdatedUpTo(t, w)
  {
    forall id | id in t && w < id ensures t[id].subject.Some? {
      assert id !in Eligible(FilledUpTo(t, w), w);
    }
  }

  /** Moving the watermark to the next page row fills exactly that row. */
  lemma Advance(t: Table, from: int, page: seq<int>, i: nat, last: int)
    requires 0 <= from && i < |page| && last == (if i == 0 then from else page[i - 1])
    requires exists n: nat :: page == Page(Eligible(FilledUpTo(t, from), from), n)
    ensures var id := page[i];
      && id in t && last < id && t[id].subject.None? && FilledUpTo(t, last)[id] == t[id]
      && FilledUpTo(t, id) == FilledUpTo(t, last)[id := Filled(t[id])]
      && UpdatedUpTo(t, id) == UpdatedUpTo(t, last) + (if Updates(t[id]) then {id} else {})
      && id !in UpdatedUpTo(t, last)
  {
    var n: nat :| page == Page(Eligible(FilledUpTo(t, from), from), n);
    NextOnPage(t, from, page, i, last, n);
    FillOne(t, last, page[i]);
  }

  /** The page row and the watermark before it: nothing in between is missing its subject. */
  lemma NextOnPage(t: Table, from: int, page: seq<int>, i: nat, last: int, n: nat)
    requires 0 <= from && i < |page| && last == (if i == 0 then from else page[i - 1])
    requires page == Page(Eligible(FilledUpTo(t, from), from), n)
    ensures var id := page[i];
      && 0 <= last < id && id in t && t[id].subject.None?
      && forall x :: x in t && last < x < id ==> t[x].subject.Some?
  {
    hide Page, Filled;
    var ids := Eligible(FilledUpTo(t, from), from);
    assert page[i] in page && page[i] in ids;
    assert i > 0 ==> page[i - 1] in page && page[i - 1] in ids;
    forall x | x in t && last < x < page[i] ensures t[x].subject.Some? {
      assert x in ids <==> t[x].subject.None?;
      assert x !in page;
    }
  }

  lemma FillOne(t: Table, last: int, id: int)
    requires 0 <= last < id && id in t && t[id].subject.None?
    requires forall x :: x in t && last < x < id ==> t[x].subject.Some?
    ensures FilledUpTo(t, last)[id] == t[id]
    ensures FilledUpTo(t, id) == FilledUpTo(t, last)[id := Filled(t[id])]
    ensures UpdatedUpTo(t, id) == UpdatedUpTo(t, last) + (if Updates(t[id]) then {id} else {})
    ensures id !in UpdatedUpTo(t, last)
  {
  }

  // ---- what the migration guarantees ---------------------------------------------------

  /** Filling a row twice is filling it once. */
  lemma FilledTwice(r: Row)
    ensures Filled(Filled(r)) == Filled(r)
    ensures Updates(Filled(r)) <==> r.subject.None? && !Present(r.matter) && Present(r.docId)
  {
  }

  /** A crash between chunks loses nothing: a rerun ends where one uninterrupted run does. */
  lemma RerunAfterCrash(t: Table, w: int)
    ensures FilledAll(FilledUpTo(t, w)) == FilledAll(t)
    ensures FilledAll(FilledAll(t)) == FilledAll(t)
  {
    forall id | id in t ensures Filled(Filled(t[id])) == Filled(t[id]) {
      FilledTwice(t[id]);
    }
  }

  /** A second run writes the same values again for rows that have a document id but no matter, and
      counts them: it reports zero exactly when there is no such row. */
  lemma SecondRunCounts(t: Table)
    ensures |UpdatedAll(FilledAll(t))| == 0 <==>
      forall id :: id in t && 0 < id ==> !(t[id].subject.None? && !Present(t[id].matter) && Present(t[id].docId))
  {
    var u := FilledAll(t);
    forall id | id in t && 0 < id
      ensures id in UpdatedAll(u) <==> t[id].subject.None? && !Present(t[id].matter) && Present(t[id].docId)
    {
      FilledTwice(t[id]);
    }
    if |UpdatedAll(u)| == 0 {
      assert UpdatedAll(u) == {};
    } else if UpdatedAll(u) != {} {
      var id :| id in UpdatedAll(u);
      assert id in t && 0 < id;
    }
  }

  /** The instance: a row with a document id and an empty matter is counted by every pass. */
  lemma CountedAgain(doc: string)
    requires doc != ""
    ensures var t: Table := map[1 := Row(None, None, Some(""), Some(doc))];
      |UpdatedAll(t)| == 1 && |UpdatedAll(FilledAll(t))| == 1
  {
    var t: Table := map[1 := Row(None, None, Some(""), Some(doc))];
    assert UpdatedAll(t) == {1} && UpdatedAll(FilledAll(t)) == {1};
  }

  /** After the backfill the drop proceeds exactly when every row already had a subject or had a
      non-empty matter, and then no subject is NULL. */
  lemma DropAllowedIff(t: Table)
    requires forall id :: id in t ==> 0 < id
    ensures Unkeyed(FilledAll(t)) == {} <==> forall id :: id in t ==> t[id].subject.Some? || Present(t[id].matter)
    ensures forall id :: id in t ==> t[id].subject.Some? ==> FilledAll(t)[id] == t[id]
  {
    var u := FilledAll(t);
    forall id | id in t ensures id in Unkeyed(u) <==> !(t[id].subject.Some? || Present(t[id].matter)) {
    }
    if Unkeyed(u) == {} {
      forall id | id in t ensures t[id].subject.Some? || Present(t[id].matter) {
        assert id !in Unkeyed(u);
      }
    }
  }

  /** No key is lost on the way: after backfill and drop, a row that had no subject carries its
      non-empty matter as subject and its non-empty document id as payload hash, and a row that had a
      subject keeps both canonical keys. */
  lemma KeysSurvive(t: Table, id: int)
    requires id in t && 0 < id
    ensures var r, last := t[id], Dropped(FilledAll(t))[id];
      && (r.subject.None? && r.matter.Some? && r.matter.value != "" ==> last.subject == r.matter)
      && (r.subject.None? && r.docId.Some? && r.docId.value != "" ==> last.payloadHash == r.docId)
      && (r.subject.Some? ==> last.subject == r.subject && last.payloadHash == r.payloadHash)
  {
    FilledIsCopied(t, id);
  }

  /** Dropping keeps every canonical key, and a second drop finds every step applied. */
  lemma DropIsIdempotent(s: Schema, t: Table)
    ensures var s' := s.(cols := s.cols - {"matter", "doc_id"}, indexes := s.indexes - {LEGACY_INDEX});
      && (forall k :: k in NextSteps(s', Applied) ==> NextSteps(s', Applied)[k] == AlreadyApplied)
      && ("subject" in s.cols ==> "subject" in s'.cols)
    ensures Dropped(Dropped(t)) == Dropped(t) && Unkeyed(Dropped(t)) == Unkeyed(t)
    ensures forall id :: id in t ==> Dropped(t)[id].subject == t[id].subject
    ensures forall id :: id in t ==> Dropped(t)[id].payloadHash == t[id].payloadHash
  {
    assert "subject" != "matter" && "subject" != "doc_id";
  }
}
