/** The calendar-aligned ledger histogram of the dashboard. */
module Metrics {
  import opened Json

  datatype Row = Row(tenant: string, ts: int, body: Value)

  const DEFAULT_SINCE_SECS := 86_400
  const DEFAULT_BUCKET_SECS := 3_600
  const MAX_SINCE_SECS := 30 * 86_400
  const MAX_BUCKETS := 24 * 31
  const MIN_BUCKET_SECS := 60

  const ACTIONS: set<string> := {"block", "ask", "audit", "inject_context", "run_command", "input_rewrite"}
  const VERDICTS: set<string> := {"pass", "fail", "needs_review", "not_applicable"}

  datatype LedgerBucket = LedgerBucket(tsStart: int, count: nat,
                                       byAction: map<string, nat>, byVerdict: map<string, nat>)

  datatype Params = Params(since: int, bucket: int) | BucketWiderThanWindow | TooManyBuckets

  /** Ceiling division by a positive number. */
  function CeilDiv(x: int, d: int): int
    requires d > 0
  {
    (x + d - 1) / d
  }

  function Normalize(sinceSecs: Option<int>, bucketSecs: Option<int>): Params {
    var since0 := if sinceSecs.Some? && sinceSecs.value > 0 then sinceSecs.value else DEFAULT_SINCE_SECS;
    var bucket0 := if bucketSecs.Some? && bucketSecs.value > 0 then bucketSecs.value else DEFAULT_BUCKET_SECS;
    var since := if since0 < MAX_SINCE_SECS then since0 else MAX_SINCE_SECS;
    var bucket := if bucket0 > MIN_BUCKET_SECS then bucket0 else MIN_BUCKET_SECS;
    if bucket > since then BucketWiderThanWindow
    else if CeilDiv(since, bucket) > MAX_BUCKETS then TooManyBuckets
    else Params(since, bucket)
  }

  function ProjectVerdict(v: Option<Value>): Option<string> {
    match v
    case Some(Str(s)) =>
      if s == "pass" then Some("pass")
      else if s == "fail" || s == "deny" then Some("fail")
      else if s == "review" || s == "needs_review" then Some("needs_review")
      else if s == "not_applicable" then Some("not_applicable")
      else None
    case _ => None
  }

  function ProjectAction(v: Option<Value>): Option<string> {
    match v
    case Some(Str(s)) => if s in ACTIONS then Some(s) else None
    case _ => None
  }

  function Field(r: Row, key: string): Option<Value> {
    match r.body case Object(fields) => Get(fields, key) case _ => None
  }

  // ---- the grid and what a bucket should hold ------------------------------------------

  /** One request: whose rows, the window parameters and the clock. */
  datatype Window = Window(tenant: string, since: int, bucket: int, now: int)

  predicate Sane(w: Window) {
    MIN_BUCKET_SECS <= w.bucket <= w.since <= MAX_SINCE_SECS && CeilDiv(w.since, w.bucket) <= MAX_BUCKETS
  }

  function Buckets(w: Window): int
    requires w.bucket > 0
  {
    CeilDiv(w.since, w.bucket)
  }

  function GridEnd(w: Window): int
    requires w.bucket > 0
  {
    CeilDiv(w.now, w.bucket) * w.bucket
  }

  function Start(w: Window, i: int): int
    requires w.bucket > 0
  {
    GridEnd(w) - Buckets(w) * w.bucket + i * w.bucket
  }

  /** What is counted: every row, or the rows with one action or verdict. */
  datatype What = Any | Action(a: string) | Verdict(v: string)

  predicate Shows(r: Row, what: What) {
    match what
    case Any => true
    case Action(a) => ProjectAction(Field(r, "action")) == Some(a)
    case Verdict(v) => ProjectVerdict(Field(r, "verdict")) == Some(v)
  }

  /** The tenant's row is not in the future and its time lies in bucket i. */
  predicate InBucket(w: Window, r: Row, i: int)
    requires w.bucket > 0
  {
    r.tenant == w.tenant && r.ts <= w.now && Start(w, i) <= r.ts < Start(w, i + 1)
  }

  function Count(w: Window, rows: seq<Row>, i: int, what: What): nat
    requires w.bucket > 0
  {
    if rows == [] then 0
    else
      var r := rows[|rows| - 1];
      Count(w, rows[..|rows| - 1], i, what) + (if InBucket(w, r, i) && Shows(r, what) then 1 else 0)
  }

  function Expected(w: Window, rows: seq<Row>, i: int): LedgerBucket
    requires w.bucket > 0
  {
    LedgerBucket(Start(w, i), Count(w, rows, i, Any),
                 map a | a in ACTIONS :: Count(w, rows, i, Action(a)),
                 map v | v in VERDICTS :: Count(w, rows, i, Verdict(v)))
  }

  // ---- ledger_aggregate -----------------------------------------------------------------

  function Bump(m: map<string, nat>, key: Option<string>): map<string, nat> {
    if key.Some? && key.value in m then m[key.value := m[key.value] + 1] else m
  }

  function EmptyBucket(tsStart: int): LedgerBucket {
    LedgerBucket(tsStart, 0, map a | a in ACTIONS :: 0, map v | v in VERDICTS :: 0)
  }

  /** A bucket after counting one more row. */
  function Tally(b: LedgerBucket, r: Row): LedgerBucket {
    LedgerBucket(b.tsStart, b.count + 1,
                 Bump(b.byAction, ProjectAction(Field(r, "action"))),
                 Bump(b.byVerdict, ProjectVerdict(Field(r, "verdict"))))
  }

  /** Every bucket holds exactly the counts of the rows in its interval, in total, by action and by verdict. */
  method Aggregate(w: Window, rows: seq<Row>) returns (out: seq<LedgerBucket>)
    requires Sane(w)
    ensures |out| == Buckets(w)
    ensures forall i :: 0 <= i < |out| ==> out[i] == Expected(w, rows, i)
  {
    hide Expected, Tally, Start, GridEnd, Buckets, Queried;
    BucketCount(w);
    var n := Buckets(w);
    var cutoff := GridEnd(w) - n * w.bucket;
    GridStart(w);
    var buckets := new LedgerBucket[n](i => EmptyBucket(cutoff + i * w.bucket));
    forall i | 0 <= i < n ensures buckets[i] == Expected(w, [], i) {
      ExpectedEmpty(w, i);
    }
    for k := 0 to |rows|
      invariant forall i :: 0 <= i < n ==> buckets[i] == Expected(w, rows[..k], i)
    {
      var r := rows[k];
      assert rows[..k + 1] == rows[..k] + [r];
      ghost var before := buckets[..];
      QueriedMeans(w, r);
      forall i | 0 <= i < n
        ensures Expected(w, rows[..k + 1], i) == if Hits(w, r, i) then Tally(before[i], r) else before[i]
      {
        RowEffect(w, rows[..k], r, i);
      }
      if r.tenant == w.tenant && cutoff <= r.ts <= w.now {
        var idx := (r.ts - cutoff) / w.bucket;
        if 0 <= idx < n {
          buckets[idx] := Tally(buckets[idx], r);
        }
      }
    }
    assert rows[..|rows|] == rows;
    out := buckets[..];
  }

  /** The query returns the row and its offset divides into bucket i. */
  predicate Hits(w: Window, r: Row, i: int)
    requires w.bucket > 0
  {
    Queried(w, r) && i == (r.ts - Start(w, 0)) / w.bucket
  }

  lemma GridStart(w: Window)
    requires w.bucket > 0
    ensures Start(w, 0) == GridEnd(w) - Buckets(w) * w.bucket
  {
  }

  lemma QueriedMeans(w: Window, r: Row)
    requires w.bucket > 0
    ensures Queried(w, r) <==> r.tenant == w.tenant && Start(w, 0) <= r.ts <= w.now
  {
  }

  lemma ExpectedEmpty(w: Window, i: int)
    requires w.bucket > 0
    ensures Expected(w, [], i) == EmptyBucket(Start(w, 0) + i * w.bucket)
  {
  }

  lemma RowEffect(w: Window, rows: seq<Row>, r: Row, i: int)
    requires w.bucket > 0 && i >= 0
    ensures Expected(w, rows + [r], i) == if Hits(w, r, i) then Tally(Expected(w, rows, i), r) else Expected(w, rows, i)
  {
    hide Expected, Tally, Start, InBucket;
    if Queried(w, r) {
      RowBucket(w, r);
    } else {
      BeforeGrid(w, r, i);
    }
    if InBucket(w, r, i) {
      ExpectedHit(w, rows, r, i);
    } else {
      ExpectedMiss(w, rows, r, i);
    }
  }

  // ---- arithmetic of the grid ---------------------------------------------------------------

  lemma CeilBounds(x: int, d: int)
    requires d > 0
    ensures x <= CeilDiv(x, d) * d < x + d
  {
  }

  lemma DivUnique(x: int, d: int, i: int)
    requires d > 0
    ensures i * d <= x < (i + 1) * d <==> i == x / d
  {
    var q := x / d;
    assert q * d <= x < q * d + d;
    Next(q, d);
    if i < q {
      Scale(i + 1, q, d);
    } else if i > q {
      Scale(q + 1, i, d);
    }
  }

  lemma AtLeastOne(x: int, d: int)
    requires 0 < d <= x
    ensures x / d >= 1
  {
    DivUnique(x, d, x / d);
  }

  lemma BucketCount(w: Window)
    requires Sane(w)
    ensures 1 <= Buckets(w) <= MAX_BUCKETS
  {
    AtLeastOne(w.since + w.bucket - 1, w.bucket);
  }

  /** A row at or after the grid start lies in exactly the bucket its offset divides into. */
  lemma RowBucket(w: Window, r: Row)
    requires w.bucket > 0 && r.tenant == w.tenant && r.ts <= w.now
    ensures forall i :: InBucket(w, r, i) <==> i == (r.ts - Start(w, 0)) / w.bucket
  {
    forall i ensures InBucket(w, r, i) <==> i == (r.ts - Start(w, 0)) / w.bucket {
      DivUnique(r.ts - Start(w, 0), w.bucket, i);
      assert (i + 1) * w.bucket == i * w.bucket + w.bucket;
    }
  }

  lemma BeforeGrid(w: Window, r: Row, i: int)
    requires w.bucket > 0 && i >= 0 && !(r.tenant == w.tenant && Start(w, 0) <= r.ts <= w.now)
    ensures !InBucket(w, r, i)
  {
    assert i * w.bucket >= 0;
  }

  lemma CountSnoc(w: Window, rows: seq<Row>, r: Row, i: int, what: What)
    requires w.bucket > 0
    ensures Count(w, rows + [r], i, what)
      == Count(w, rows, i, what) + if InBucket(w, r, i) && Shows(r, what) then 1 else 0
  {
    assert (rows + [r])[..|rows|] == rows;
  }

  lemma ExpectedMiss(w: Window, rows: seq<Row>, r: Row, i: int)
    requires w.bucket > 0 && !InBucket(w, r, i)
    ensures Expected(w, rows + [r], i) == Expected(w, rows, i)
  {
    hide Count, InBucket, Start, Shows;
    forall what: What ensures Count(w, rows + [r], i, what) == Count(w, rows, i, what) {
      CountSnoc(w, rows, r, i, what);
    }
  }

  lemma ActionsHit(w: Window, rows: seq<Row>, r: Row, i: int)
    requires w.bucket > 0 && InBucket(w, r, i)
    ensures Expected(w, rows + [r], i).byAction
      == Bump(Expected(w, rows, i).byAction, ProjectAction(Field(r, "action")))
  {
    hide InBucket, Count, ProjectAction, Field, Start;
    forall a | a in ACTIONS
      ensures Count(w, rows + [r], i, Action(a))
        == Count(w, rows, i, Action(a)) + if ProjectAction(Field(r, "action")) == Some(a) then 1 else 0
    {
      CountSnoc(w, rows, r, i, Action(a));
    }
  }

  lemma VerdictsHit(w: Window, rows: seq<Row>, r: Row, i: int)
    requires w.bucket > 0 && InBucket(w, r, i)
    ensures Expected(w, rows + [r], i).byVerdict
      == Bump(Expected(w, rows, i).byVerdict, ProjectVerdict(Field(r, "verdict")))
  {
    hide InBucket, Count, ProjectVerdict, Field, Start;
    forall v | v in VERDICTS
      ensures Count(w, rows + [r], i, Verdict(v))
        == Count(w, rows, i, Verdict(v)) + if ProjectVerdict(Field(r, "verdict")) == Some(v) then 1 else 0
    {
      CountSnoc(w, rows, r, i, Verdict(v));
    }
  }

  lemma TotalHit(w: Window, rows: seq<Row>, r: Row, i: int)
    requires w.bucket > 0 && InBucket(w, r, i)
    ensures Expected(w, rows + [r], i).count == Expected(w, rows, i).count + 1
    ensures Expected(w, rows + [r], i).tsStart == Expected(w, rows, i).tsStart
  {
    hide InBucket, Count, Start;
    CountSnoc(w, rows, r, i, Any);
  }

  lemma ExpectedHit(w: Window, rows: seq<Row>, r: Row, i: int)
    requires w.bucket > 0 && InBucket(w, r, i)
    ensures Expected(w, rows + [r], i) == Tally(Expected(w, rows, i), r)
  {
    hide InBucket, Expected, Bump, ProjectVerdict, ProjectAction, Field;
    TotalHit(w, rows, r, i);
    ActionsHit(w, rows, r, i);
    VerdictsHit(w, rows, r, i);
  }

  // ---- a bucket in plain terms --------------------------------------------------------------

  /** The dashboard's words for the stored ones. */
  lemma Vocabulary(s: string)
    ensures ProjectVerdict(Some(Str(s))) ==
      if s == "pass" then Some("pass")
      else if s in {"fail", "deny"} then Some("fail")
      else if s in {"review", "needs_review"} then Some("needs_review")
      else if s == "not_applicable" then Some("not_applicable")
      else None
    ensures ProjectAction(Some(Str(s))) ==
      if s in {"block", "ask", "audit", "inject_context", "run_command", "input_rewrite"} then Some(s) else None
    ensures forall v: Option<Value> :: (v.None? || !v.value.Str?) ==> ProjectVerdict(v).None? && ProjectAction(v).None?
  {
  }

  /** The row's body is an object with this text under the key. */
  predicate Says(r: Row, key: string, text: string) {
    r.body.Object? && key in r.body.fields && r.body.fields[key] == Str(text)
  }

  /** The tenant's row, not in the future, within the width of the bucket that starts there. */
  predicate Within(w: Window, r: Row, start: int) {
    r.tenant == w.tenant && r.ts <= w.now && start <= r.ts < start + w.bucket
  }

  /** Positions of the rows counted. */
  function Counted(w: Window, rows: seq<Row>, i: int, what: What): set<int>
    requires w.bucket > 0
  {
    set k | 0 <= k < |rows| && InBucket(w, rows[k], i) && Shows(rows[k], what)
  }

  lemma {:induction false} CountIs(w: Window, rows: seq<Row>, i: int, what: What)
    requires w.bucket > 0
    ensures Count(w, rows, i, what) == |Counted(w, rows, i, what)|
  {
    hide Count;
    if rows == [] {
      NoneCounted(w, i, what);
    } else {
      hide InBucket, Shows, Counted;
      var n := |rows| - 1;
      CountIs(w, rows[..n], i, what);
      CountedSnoc(w, rows, i, what);
      CountUnroll(w, rows, i, what);
    }
  }

  lemma NoneCounted(w: Window, i: int, what: What)
    requires w.bucket > 0
    ensures Count(w, [], i, what) == 0 && Counted(w, [], i, what) == {}
  {
  }

  lemma CountUnroll(w: Window, rows: seq<Row>, i: int, what: What)
    requires w.bucket > 0 && rows != []
    ensures var n := |rows| - 1;
      Count(w, rows, i, what)
      == Count(w, rows[..n], i, what) + if InBucket(w, rows[n], i) && Shows(rows[n], what) then 1 else 0
  {
    hide InBucket, Shows;
  }

  lemma CountedSnoc(w: Window, rows: seq<Row>, i: int, what: What)
    requires w.bucket > 0 && rows != []
    ensures var n := |rows| - 1;
      |Counted(w, rows, i, what)|
      == |Counted(w, rows[..n], i, what)| + if InBucket(w, rows[n], i) && Shows(rows[n], what) then 1 else 0
  {
    hide InBucket, Shows;
    var n := |rows| - 1;
    var before := Counted(w, rows[..n], i, what);
    assert n !in before;
    if InBucket(w, rows[n], i) && Shows(rows[n], what) {
      assert Counted(w, rows, i, what) == before + {n};
    } else {
      assert Counted(w, rows, i, what) == before;
    }
  }

  /** What each bucket holds: the number of the tenant's rows in its interval, in total, per action, and
      per verdict, where "deny" counts as "fail" and "review" as "needs_review". */
  lemma BucketMeans(w: Window, rows: seq<Row>, i: int)
    requires w.bucket > 0
    ensures var b, start := Expected(w, rows, i), Start(w, i);
      && b.tsStart == start
      && b.count == |set k | 0 <= k < |rows| && Within(w, rows[k], start)|
      && b.byAction.Keys == {"block", "ask", "audit", "inject_context", "run_command", "input_rewrite"}
      && (forall a :: a in b.byAction ==>
            b.byAction[a] == |set k | 0 <= k < |rows| && Within(w, rows[k], start) && Says(rows[k], "action", a)|)
      && b.byVerdict.Keys == {"pass", "fail", "needs_review", "not_applicable"}
      && b.byVerdict["pass"] == |set k | 0 <= k < |rows| && Within(w, rows[k], start)
           && Says(rows[k], "verdict", "pass")|
      && b.byVerdict["fail"] == |set k | 0 <= k < |rows| && Within(w, rows[k], start)
           && (Says(rows[k], "verdict", "fail") || Says(rows[k], "verdict", "deny"))|
      && b.byVerdict["needs_review"] == |set k | 0 <= k < |rows| && Within(w, rows[k], start)
           && (Says(rows[k], "verdict", "needs_review") || Says(rows[k], "verdict", "review"))|
      && b.byVerdict["not_applicable"] == |set k | 0 <= k < |rows| && Within(w, rows[k], start)
           && Says(rows[k], "verdict", "not_applicable")|
  {
    var start := Start(w, i);
    forall what: What ensures Count(w, rows, i, what) == |Counted(w, rows, i, what)| {
      CountIs(w, rows, i, what);
    }
    NextStart(w, i);
    hide Count, Start, GridEnd, Buckets;
    forall r ensures InBucket(w, r, i) <==> Within(w, r, start) {
    }
    hide InBucket, Within;
    forall r ensures Shows(r, Any) {
    }
    forall r, a | a in ACTIONS ensures Shows(r, Action(a)) <==> Says(r, "action", a) {
      ShowsAction(r, a);
    }
    forall r
      ensures Shows(r, Verdict("pass")) <==> Says(r, "verdict", "pass")
      ensures Shows(r, Verdict("fail")) <==> Says(r, "verdict", "fail") || Says(r, "verdict", "deny")
      ensures Shows(r, Verdict("needs_review")) <==> Says(r, "verdict", "needs_review") || Says(r, "verdict", "review")
      ensures Shows(r, Verdict("not_applicable")) <==> Says(r, "verdict", "not_applicable")
    {
      ShowsVerdict(r);
    }
    hide Shows, Says;
    assert Counted(w, rows, i, Any) == set k | 0 <= k < |rows| && Within(w, rows[k], start);
    forall a | a in ACTIONS
      ensures Counted(w, rows, i, Action(a))
        == set k | 0 <= k < |rows| && Within(w, rows[k], start) && Says(rows[k], "action", a)
    {
    }
    assert Counted(w, rows, i, Verdict("pass"))
      == set k | 0 <= k < |rows| && Within(w, rows[k], start) && Says(rows[k], "verdict", "pass");
    assert Counted(w, rows, i, Verdict("fail")) == set k | 0 <= k < |rows| && Within(w, rows[k], start)
      && (Says(rows[k], "verdict", "fail") || Says(rows[k], "verdict", "deny"));
    assert Counted(w, rows, i, Verdict("needs_review")) == set k | 0 <= k < |rows| && Within(w, rows[k], start)
      && (Says(rows[k], "verdict", "needs_review") || Says(rows[k], "verdict", "review"));
    assert Counted(w, rows, i, Verdict("not_applicable"))
      == set k | 0 <= k < |rows| && Within(w, rows[k], start) && Says(rows[k], "verdict", "not_applicable");
  }

  lemma NextStart(w: Window, i: int)
    requires w.bucket > 0
    ensures Start(w, i + 1) == Start(w, i) + w.bucket
  {
    Next(i, w.bucket);
  }

  lemma ShowsAction(r: Row, a: string)
    requires a in ACTIONS
    ensures Shows(r, Action(a)) <==> Says(r, "action", a)
  {
  }

  lemma ShowsVerdict(r: Row)
    ensures Shows(r, Verdict("pass")) <==> Says(r, "verdict", "pass")
    ensures Shows(r, Verdict("fail")) <==> Says(r, "verdict", "fail") || Says(r, "verdict", "deny")
    ensures Shows(r, Verdict("needs_review")) <==> Says(r, "verdict", "needs_review") || Says(r, "verdict", "review")
    ensures Shows(r, Verdict("not_applicable")) <==> Says(r, "verdict", "not_applicable")
  {
  }

  // ---- what the chart shows -----------------------------------------------------------------

  /** Whatever is accepted gives a sane window, sane parameters (and only those) are accepted
      unchanged, a request is otherwise only ever narrowed to the longest window or widened to the
      smallest bucket, and a non-positive number counts as absent. */
  lemma NormalizeMeaning(sinceSecs: Option<int>, bucketSecs: Option<int>, tenant: string, now: int)
    ensures var p := Normalize(sinceSecs, bucketSecs);
      p.Params? ==> Sane(Window(tenant, p.since, p.bucket, now))
    ensures forall s, b :: Normalize(Some(s), Some(b)) == Params(s, b) <==> Sane(Window(tenant, s, b, now))
    ensures forall s, b :: Sane(Window(tenant, s, b, now)) <==> 60 <= b <= s <= 2_592_000 && (s + b - 1) / b <= 744
    ensures var p := Normalize(sinceSecs, bucketSecs);
      p.Params? && sinceSecs.Some? && sinceSecs.value > 0 && p.since != sinceSecs.value ==>
        p.since == 2_592_000 < sinceSecs.value
    ensures var p := Normalize(sinceSecs, bucketSecs);
      p.Params? && bucketSecs.Some? && bucketSecs.value > 0 && p.bucket != bucketSecs.value ==>
        bucketSecs.value < 60 == p.bucket
    ensures sinceSecs.Some? && sinceSecs.value <= 0 ==> Normalize(sinceSecs, bucketSecs) == Normalize(None, bucketSecs)
    ensures bucketSecs.Some? && bucketSecs.value <= 0 ==> Normalize(sinceSecs, bucketSecs) == Normalize(sinceSecs, None)
    ensures Normalize(None, None) == Params(86_400, 3_600)
  {
    DivUnique(89_999, 3_600, 24);
    hide CeilDiv;
  }

  /** One to 744 adjoining buckets on multiples of the bucket width, ending at the first boundary
      at or after now, and starting less than one bucket away from now - since. */
  lemma GridShape(w: Window)
    requires Sane(w)
    ensures 1 <= Buckets(w) <= 744
    ensures forall i :: Start(w, i) % w.bucket == 0 && Start(w, i + 1) == Start(w, i) + w.bucket
    ensures Start(w, Buckets(w)) == GridEnd(w) && w.now <= GridEnd(w) < w.now + w.bucket
    ensures -w.bucket < Start(w, 0) - (w.now - w.since) < w.bucket
  {
    BucketCount(w);
    CeilBounds(w.now, w.bucket);
    CeilBounds(w.since, w.bucket);
    forall i ensures Start(w, i) % w.bucket == 0 && Start(w, i + 1) == Start(w, i) + w.bucket {
      var q := CeilDiv(w.now, w.bucket) - Buckets(w) + i;
      assert Start(w, i) == q * w.bucket;
      Multiple(q, w.bucket);
      assert (i + 1) * w.bucket == i * w.bucket + w.bucket;
    }
  }

  /** How far x is from the first multiple of d at or after it. */
  function Ahead(x: int, d: int): int
    requires d > 0
  {
    (d - x % d) % d
  }

  lemma CeilGap(x: int, d: int)
    requires d > 0
    ensures CeilDiv(x, d) * d == x + Ahead(x, d)
  {
    var q, r := x / d, x % d;
    assert x == q * d + r;
    AheadIs(r, d);
    CeilFrom(q, r, d);
    hide CeilDiv;
    Next(q, d);
  }

  lemma Next(q: int, d: int)
    ensures (q + 1) * d == q * d + d
  {
  }

  lemma AheadIs(r: int, d: int)
    requires 0 <= r < d
    ensures (d - r) % d == if r == 0 then 0 else d - r
  {
    if r != 0 {
      DivUnique(d - r, d, 0);
    }
  }

  lemma CeilFrom(q: int, r: int, d: int)
    requires 0 <= r < d
    ensures CeilDiv(q * d + r, d) == if r == 0 then q else q + 1
  {
    if r == 0 {
      DivUnique(q * d + r + d - 1, d, q);
    } else {
      DivUnique(q * d + r + d - 1, d, q + 1);
    }
  }

  /** Every row of the requested window is queried. */
  ghost predicate ChartsWholeWindow(w: Window)
    requires w.bucket > 0
  {
    forall r: Row :: r.tenant == w.tenant && w.now - w.since <= r.ts <= w.now ==> Queried(w, r)
  }

  /** The whole requested window is charted if and only if now is no further from the next boundary
      than the window length is from the next multiple of the bucket. */
  lemma WholeWindowIff(w: Window)
    requires Sane(w)
    ensures ChartsWholeWindow(w) <==> Ahead(w.now, w.bucket) <= Ahead(w.since, w.bucket)
    ensures w.since % w.bucket == 0 ==> (ChartsWholeWindow(w) <==> w.now % w.bucket == 0)
  {
    GapIsAhead(w);
    hide Start, Ahead, Sane;
    var oldest := Row(w.tenant, w.now - w.since, Null);
    assert ChartsWholeWindow(w) ==> Queried(w, oldest);
    AheadZero(w.now, w.bucket);
    AheadZero(w.since, w.bucket);
  }

  lemma GapIsAhead(w: Window)
    requires w.bucket > 0
    ensures Start(w, 0) - (w.now - w.since) == Ahead(w.now, w.bucket) - Ahead(w.since, w.bucket)
  {
    hide CeilDiv, Ahead;
    CeilGap(w.now, w.bucket);
    CeilGap(w.since, w.bucket);
  }

  lemma AheadZero(x: int, d: int)
    requires d > 0
    ensures Ahead(x, d) >= 0 && (Ahead(x, d) == 0 <==> x % d == 0)
  {
    AheadIs(x % d, d);
  }

  /** The default chart, 24 hours in hourly buckets, opened at 14:23 on the second day of the epoch:
      a row of half an hour past the window's start is not in it. */
  lemma OldRowsDropOut(tenant: string)
    ensures var w, r := Window(tenant, 86_400, 3_600, 138_180), Row(tenant, 53_580, Null);
      && Sane(w) && w.now - w.since <= r.ts <= w.now && !Queried(w, r)
  {
    var w := Window(tenant, 86_400, 3_600, 138_180);
    DivUnique(89_999, 3_600, 24);
    DivUnique(141_779, 3_600, 39);
    assert Start(w, 0) == 54_000;
  }

  lemma Multiple(q: int, d: int)
    requires d > 0
    ensures q * d % d == 0
  {
    DivUnique(q * d, d, q);
  }

  /** The window of the query. */
  predicate Queried(w: Window, r: Row)
    requires w.bucket > 0
  {
    r.tenant == w.tenant && Start(w, 0) <= r.ts <= w.now
  }

  /** A row stamped exactly now on a bucket boundary falls behind the last bucket. */
  predicate OnEdge(w: Window, r: Row)
    requires w.bucket > 0
  {
    r.ts == w.now && w.now % w.bucket == 0
  }

  /** Every queried row is in exactly one bucket of the grid, except the ones on the edge, which are in none. */
  lemma {:induction false} ExactlyOneBucket(w: Window, r: Row)
    requires Sane(w) && Queried(w, r)
    ensures var idx := (r.ts - Start(w, 0)) / w.bucket;
      && 0 <= idx && (idx < Buckets(w) <==> !OnEdge(w, r))
      && forall i :: InBucket(w, r, i) <==> i == idx
  {
    hide Start, GridEnd, Buckets, InBucket;
    RowBucket(w, r);
    GridStart(w);
    CeilBounds(w.now, w.bucket);
    EndBounds(w);
    EdgeIff(w);
    DivBelow(r.ts - Start(w, 0), w.bucket, Buckets(w));
  }

  lemma EndBounds(w: Window)
    requires w.bucket > 0
    ensures w.now <= GridEnd(w)
  {
    CeilBounds(w.now, w.bucket);
  }

  lemma DivBelow(x: int, d: int, n: int)
    requires d > 0
    ensures x / d < n <==> x < n * d
    ensures x >= 0 ==> x / d >= 0
  {
    DivUnique(x, d, x / d);
    if x / d < n {
      Scale(x / d + 1, n, d);
    } else {
      Scale(n, x / d, d);
    }
  }

  lemma Scale(a: int, b: int, d: int)
    requires a <= b && d > 0
    ensures a * d <= b * d
  {
  }

  lemma EdgeIff(w: Window)
    requires w.bucket > 0
    ensures GridEnd(w) == w.now <==> w.now % w.bucket == 0
  {
    var q, d := w.now / w.bucket, w.bucket;
    assert w.now == q * d + w.now % d;
    if w.now % d == 0 {
      DivUnique(w.now + d - 1, d, q);
    } else {
      Multiple(CeilDiv(w.now, d), d);
    }
  }

  function Sum(w: Window, rows: seq<Row>, n: nat): nat
    requires w.bucket > 0
  {
    if n == 0 then 0 else Sum(w, rows, n - 1) + Count(w, rows, n - 1, Any)
  }

  function Charted(w: Window, rows: seq<Row>): nat
    requires w.bucket > 0
  {
    if rows == [] then 0
    else
      var r := rows[|rows| - 1];
      Charted(w, rows[..|rows| - 1]) + (if Queried(w, r) && !OnEdge(w, r) then 1 else 0)
  }

  /** Bucket totals add up to the queried rows off the edge: none lost, none counted twice. */
  lemma {:induction false} TotalsAddUp(w: Window, rows: seq<Row>)
    requires Sane(w)
    ensures BucketCountNat(w) && Sum(w, rows, Buckets(w)) == Charted(w, rows)
  {
    BucketCount(w);
    if rows == [] {
      SumEmpty(w, Buckets(w));
    } else {
      var r, init := rows[|rows| - 1], rows[..|rows| - 1];
      TotalsAddUp(w, init);
      assert rows == init + [r];
      if Queried(w, r) {
        ExactlyOneBucket(w, r);
      } else {
        forall i | 0 <= i < Buckets(w) ensures !InBucket(w, r, i) {
          BeforeGrid(w, r, i);
        }
      }
      SumSnoc(w, init, r, Buckets(w), (r.ts - Start(w, 0)) / w.bucket);
    }
  }

  predicate BucketCountNat(w: Window)
    requires w.bucket > 0
  {
    Buckets(w) >= 0
  }

  lemma {:induction false} SumEmpty(w: Window, n: nat)
    requires w.bucket > 0
    ensures Sum(w, [], n) == 0
  {
    if n == 0 {
    } else {
      SumEmpty(w, n - 1);
    }
  }

  lemma {:induction false} SumSnoc(w: Window, rows: seq<Row>, r: Row, n: nat, idx: int)
    requires w.bucket > 0 && forall i :: 0 <= i < n && InBucket(w, r, i) ==> i == idx
    ensures Sum(w, rows + [r], n) == Sum(w, rows, n) + (if 0 <= idx < n && InBucket(w, r, idx) then 1 else 0)
  {
    if n == 0 {
    } else {
      SumSnoc(w, rows, r, n - 1, idx);
      CountSnoc(w, rows, r, n - 1, Any);
    }
  }
}
