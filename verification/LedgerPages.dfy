/** Cursor pagination of one tenant's ledger view while other workers keep appending. */
module LedgerPages {
  import opened Json
  import opened Chain
  import opened LedgerProtocol

  /** What the caller asks for: the tenant, and verifier names. Empty names do not count; no name
      left means every verifier. */
  datatype Query = Query(tenant: string, verifier: seq<string>)

  function Wanted(q: Query): set<string> {
    set v | v in q.verifier && v != ""
  }

  predicate Matches(q: Query, r: Row) {
    && r.tenant == q.tenant
    && (Wanted(q) == {} || match Get(r.body, "step") case Some(Str(step)) => step in Wanted(q) case _ => false)
  }

  /** In plain terms: the tenant's row, and, if a name is asked for, its step is one of the names. */
  lemma MatchesMeans(q: Query, r: Row)
    ensures Matches(q, r) <==>
      && r.tenant == q.tenant
      && ((exists v :: v in q.verifier && v != "") ==>
            "step" in r.body && r.body["step"].Str? && r.body["step"].s in q.verifier && r.body["step"].s != "")
  {
    if v :| v in q.verifier && v != "" {
      assert v in Wanted(q);
    } else {
      assert Wanted(q) == {};
    }
  }

  function Matching(q: Query, rows: seq<Row>): seq<Row> {
    if rows == [] then []
    else
      var init, last := Matching(q, rows[..|rows| - 1]), rows[|rows| - 1];
      if Matches(q, last) then init + [last] else init
  }

  function Above(since: int, rows: seq<Row>): seq<Row> {
    if rows == [] then []
    else
      var init, last := Above(since, rows[..|rows| - 1]), rows[|rows| - 1];
      if since < last.id then init + [last] else init
  }

  function Take(rows: seq<Row>, n: nat): seq<Row> {
    if n <= |rows| then rows[..n] else rows
  }

  /** WHERE tenant AND id > since AND step IN wanted ORDER BY id LIMIT n. */
  function Page(q: Query, table: seq<Row>, since: int, limit: nat): seq<Row> {
    Take(Above(since, Matching(q, OrderById(table))), limit)
  }

  datatype Cursor = Cursor(since: int, seen: seq<Row>)

  /** One request: the next page, and the cursor moved to the last id it returned. */
  function Advance(q: Query, table: seq<Row>, c: Cursor, limit: nat): Cursor {
    var page := Page(q, table, c.since, limit);
    Cursor(if page == [] then c.since else page[|page| - 1].id, c.seen + page)
  }

  /** The reader's loop: request k sees table tables[k]. */
  function Walk(q: Query, tables: seq<seq<Row>>, limit: nat): Cursor {
    if tables == [] then Cursor(0, [])
    else
      var n := |tables| - 1;
      Advance(q, tables[n], Walk(q, tables[..n], limit), limit)
  }

  lemma {:induction false} MatchingPrefix(q: Query, xs: seq<Row>, ys: seq<Row>)
    requires xs <= ys
    ensures Matching(q, xs) <= Matching(q, ys)
  {
    if |xs| < |ys| {
      MatchingPrefix(q, xs, ys[..|ys| - 1]);
    } else {
      assert xs == ys;
    }
  }

  /** Positive ids, strictly increasing: what every reachable table satisfies. */
  ghost predicate Ids(rows: seq<Row>) {
    Increasing(rows) && forall i :: 0 <= i < |rows| ==> 0 < rows[i].id
  }

  /** Selecting keeps the id order; every result is a matching row of the table. */
  lemma {:induction false} MatchingIds(q: Query, rows: seq<Row>)
    requires Ids(rows)
    ensures Ids(Matching(q, rows))
    ensures forall i :: 0 <= i < |Matching(q, rows)| ==>
      Matching(q, rows)[i] in rows && Matches(q, Matching(q, rows)[i])
  {
    if rows == [] {
    } else {
      hide Matches;
      MatchingIds(q, rows[..|rows| - 1]);
    }
  }

  lemma {:induction false} MatchingComplete(q: Query, rows: seq<Row>, r: Row)
    requires r in rows && Matches(q, r)
    ensures r in Matching(q, rows)
  {
    if r != rows[|rows| - 1] {
      MatchingComplete(q, rows[..|rows| - 1], r);
    }
  }

  /** In an increasing list, the rows above the k-th id are the tail from k. */
  lemma {:induction false} AboveIsTail(since: int, rows: seq<Row>, k: nat)
    requires Increasing(rows) && k <= |rows|
    requires forall i :: 0 <= i < |rows| ==> (since < rows[i].id <==> k <= i)
    ensures Above(since, rows) == rows[k..]
  {
    if rows == [] {
    } else {
      var n := |rows| - 1;
      if k <= n {
        AboveIsTail(since, rows[..n], k);
        assert rows[k..] == rows[..n][k..] + [rows[n]];
      } else {
        AboveIsTail(since, rows[..n], n);
      }
    }
  }

  /** The tables a reader meets over time, each extending the one before. */
  ghost predicate Growing(tables: seq<seq<Row>>) {
    && (forall i :: 0 <= i < |tables| ==> Ids(tables[i]))
    && (forall i, j :: 0 <= i <= j < |tables| ==> tables[i] <= tables[j])
  }

  /** The cursor stands behind a prefix of `all`. */
  ghost predicate Stands(c: Cursor, all: seq<Row>) {
    && c.seen <= all
    && c.since == (if c.seen == [] then 0 else c.seen[|c.seen| - 1].id)
  }

  lemma AboveCursor(c: Cursor, all: seq<Row>)
    requires Ids(all) && Stands(c, all)
    ensures Above(c.since, all) == all[|c.seen|..]
  {
    AboveIsTail(c.since, all, |c.seen|);
  }

  lemma TakeNext(c: Cursor, all: seq<Row>, limit: nat)
    requires Stands(c, all)
    ensures var page := Take(all[|c.seen|..], limit);
      && Stands(Cursor(if page == [] then c.since else page[|page| - 1].id, c.seen + page), all)
      && |page| <= limit && (|page| < limit ==> c.seen + page == all)
  {
    var page := Take(all[|c.seen|..], limit);
    assert c.seen == all[..|c.seen|];
    assert c.seen + page == all[..|c.seen| + |page|];
  }

  /** A request appends exactly the next `limit` matching entries, or all that are left. */
  lemma AdvanceFrom(q: Query, table: seq<Row>, c: Cursor, limit: nat)
    requires Ids(table) && Stands(c, Matching(q, table))
    ensures var c', all := Advance(q, table, c, limit), Matching(q, table);
      && Stands(c', all)
      && |c.seen| <= |c'.seen| <= |c.seen| + limit
      && (|c'.seen| - |c.seen| < limit ==> c'.seen == all)
  {
    hide Matching, Above, OrderById, Increasing;
    var all := Matching(q, table);
    OrderedAlready(table);
    MatchingIds(q, table);
    AboveCursor(c, all);
    TakeNext(c, all, limit);
  }

  lemma {:induction false} WalkStands(q: Query, tables: seq<seq<Row>>, limit: nat)
    requires Growing(tables) && tables != []
    ensures Stands(Walk(q, tables[..|tables| - 1], limit), Matching(q, tables[|tables| - 1]))
    ensures Stands(Walk(q, tables, limit), Matching(q, tables[|tables| - 1]))
  {
    hide Matching, Advance;
    var n := |tables| - 1;
    if n == 0 {
    } else {
      var shorter := tables[..n];
      assert Growing(shorter);
      WalkStands(q, shorter, limit);
      MatchingPrefix(q, shorter[n - 1], tables[n]);
    }
    AdvanceFrom(q, tables[n], Walk(q, tables[..n], limit), limit);
  }

  /** Positions of a run at which the reader queries, in order. */
  ghost predicate ReadTimes(b: seq<State>, times: seq<nat>) {
    && (forall i :: 0 <= i < |times| ==> times[i] < |b|)
    && (forall i, j :: 0 <= i <= j < |times| ==> times[i] <= times[j])
  }

  function Tables(b: seq<State>, times: seq<nat>): seq<seq<Row>>
    requires forall i :: 0 <= i < |times| ==> times[i] < |b|
  {
    seq(|times|, i requires 0 <= i < |times| => b[times[i]].log)
  }

  /** The walk has each matching entry up to its cursor exactly once, in id order, and nothing else. */
  ghost predicate Exact(q: Query, table: seq<Row>, c: Cursor) {
    && Increasing(c.seen)
    && (forall r :: r in c.seen <==> r in table && Matches(q, r) && r.id <= c.since)
  }

  /** In every run, whatever commits between the pages: the rows seen are, in id order and once each,
      exactly the tenant's rows up to the cursor, restricted to the names asked for; none of another
      tenant is ever among them. A page shorter than the limit means that nothing of the kind was
      left to read at that moment. */
  lemma PaginationIsExact(p: Primitives, b: seq<State>, q: Query, times: seq<nat>, limit: nat)
    requires HexDigest(p) && Behaviour(p, b) && ReadTimes(b, times) && times != []
    ensures var tables, n := Tables(b, times), |times| - 1;
      var before, after := Walk(q, tables[..n], limit), Walk(q, tables, limit);
      && Increasing(after.seen)
      && |before.seen| <= |after.seen| <= |before.seen| + limit
      && (forall r :: r in after.seen ==> r.tenant == q.tenant)
      && (forall r :: r in after.seen <==>
            && r in tables[n] && r.tenant == q.tenant && r.id <= after.since
            && ((exists v :: v in q.verifier && v != "") ==>
                  "step" in r.body && r.body["step"].Str? && r.body["step"].s in q.verifier && r.body["step"].s != ""))
      && (|after.seen| < |before.seen| + limit ==>
            forall r :: r in tables[n] && r.tenant == q.tenant
              && ((exists v :: v in q.verifier && v != "") ==>
                    "step" in r.body && r.body["step"].Str? && r.body["step"].s in q.verifier && r.body["step"].s != "")
              ==> r in after.seen)
  {
    var tables, n := Tables(b, times), |times| - 1;
    var before, after := Walk(q, tables[..n], limit), Walk(q, tables, limit);
    WalkIsExact(p, b, q, times, limit);
    forall r ensures Matches(q, r) <==>
      && r.tenant == q.tenant
      && ((exists v :: v in q.verifier && v != "") ==>
            "step" in r.body && r.body["step"].Str? && r.body["step"].s in q.verifier && r.body["step"].s != "")
    {
      MatchesMeans(q, r);
    }
    hide Matching, Walk, Matches, Tables, Behaviour;
    if |after.seen| < |before.seen| + limit {
      forall r | r in tables[n] && Matches(q, r) ensures r in after.seen {
        MatchingComplete(q, tables[n], r);
      }
    }
  }

  lemma WalkIsExact(p: Primitives, b: seq<State>, q: Query, times: seq<nat>, limit: nat)
    requires HexDigest(p) && Behaviour(p, b) && ReadTimes(b, times) && times != []
    ensures var tables, n := Tables(b, times), |times| - 1;
      var before, after := Walk(q, tables[..n], limit), Walk(q, tables, limit);
      && Exact(q, tables[n], after)
      && |before.seen| <= |after.seen| <= |before.seen| + limit
      && (|after.seen| < |before.seen| + limit ==> after.seen == Matching(q, tables[n]))
  {
    hide Matching, Advance, Matches;
    var tables, n := Tables(b, times), |times| - 1;
    GrowingRun(p, b, times);
    WalkStands(q, tables, limit);
    AdvanceFrom(q, tables[n], Walk(q, tables[..n], limit), limit);
    StandsIsExact(q, tables[n], Walk(q, tables, limit));
  }

  lemma StandsIsExact(q: Query, table: seq<Row>, c: Cursor)
    requires Ids(table) && Stands(c, Matching(q, table))
    ensures Exact(q, table, c)
  {
    hide Matching, Matches;
    var all := Matching(q, table);
    MatchingIds(q, table);
    forall r ensures r in c.seen <==> r in table && Matches(q, r) && r.id <= c.since {
      if r in c.seen {
        var i :| 0 <= i < |c.seen| && c.seen[i] == r;
        assert all[i] == r;
      } else if r in table && Matches(q, r) {
        MatchingComplete(q, table, r);
        var i :| 0 <= i < |all| && all[i] == r;
        assert i < |c.seen| ==> c.seen[i] == r;
      }
    }
  }

  lemma GrowingRun(p: Primitives, b: seq<State>, times: seq<nat>)
    requires HexDigest(p) && Behaviour(p, b) && ReadTimes(b, times)
    ensures Growing(Tables(b, times))
  {
    hide Behaviour, HexDigest;
    forall i | 0 <= i < |times| ensures Ids(b[times[i]].log) {
      ChainAlwaysVerifies(p, b, times[i]);
    }
    forall i, j | 0 <= i <= j < |times| ensures b[times[i]].log <= b[times[j]].log {
      AppendOnly(p, b, times[i], times[j]);
    }
  }
}
