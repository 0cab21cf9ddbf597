/** The hash chain of the evidence ledger. The digest and the canonical JSON text are
    parameters; nothing is assumed about collisions, so results name the collision instead. */
module Chain {
  import opened Json
  import opened Lists

  datatype Row = Row(id: int, ts: int, tenant: string, matter: string,
                     prev: string, body: Body, token: string, h: string)

  datatype Primitives = Primitives(sha: string -> string, canon: Body -> string)

  /** sha256 hexdigest: 64 characters, none of them the separator. */
  ghost predicate HexDigest(p: Primitives) {
    forall x :: |p.sha(x)| == 64 && '|' !in p.sha(x)
  }

  function Joined(prev: string, text: string, token: string): string {
    prev + "|" + text + "|" + token
  }

  function Preimage(p: Primitives, prev: string, body: Body, token: string): string {
    Joined(prev, p.canon(body), token)
  }

  function ChainHash(p: Primitives, prev: string, body: Body, token: string): string {
    p.sha(Preimage(p, prev, body, token))
  }

  function HashBefore(rows: seq<Row>, i: nat): string
    requires i <= |rows|
  {
    if i == 0 then "" else rows[i - 1].h
  }

  ghost predicate LinkedAt(p: Primitives, rows: seq<Row>, i: nat)
    requires i < |rows|
  {
    && rows[i].prev == HashBefore(rows, i)
    && rows[i].h == ChainHash(p, rows[i].prev, rows[i].body, rows[i].token)
  }

  /** One linear chain from the genesis row, every digest recomputable. */
  ghost predicate Linked(p: Primitives, rows: seq<Row>) {
    forall i :: 0 <= i < |rows| ==> LinkedAt(p, rows, i)
  }

  lemma PlainLinks(p: Primitives, rows: seq<Row>)
    ensures Linked(p, rows) <==> forall i :: 0 <= i < |rows| ==>
      && rows[i].prev == (if i == 0 then "" else rows[i - 1].h)
      && rows[i].h == p.sha(rows[i].prev + "|" + p.canon(rows[i].body) + "|" + rows[i].token)
  {
    if Linked(p, rows) {
      forall i | 0 <= i < |rows|
        ensures rows[i].prev == (if i == 0 then "" else rows[i - 1].h)
        ensures rows[i].h == p.sha(rows[i].prev + "|" + p.canon(rows[i].body) + "|" + rows[i].token)
      {
        assert LinkedAt(p, rows, i);
      }
    }
  }

  /** `verify_chain` over the rows in primary-key order. */
  method VerifyChain(p: Primitives, rows: seq<Row>) returns (ok: bool)
    ensures ok <==> Linked(p, rows)
    ensures ok <==> forall i :: 0 <= i < |rows| ==>
      && rows[i].prev == (if i == 0 then "" else rows[i - 1].h)
      && rows[i].h == p.sha(rows[i].prev + "|" + p.canon(rows[i].body) + "|" + rows[i].token)
  {
    PlainLinks(p, rows);
    var prev := "";
    for i := 0 to |rows|
      invariant prev == HashBefore(rows, i)
      invariant forall j :: 0 <= j < i ==> LinkedAt(p, rows, j)
    {
      var entry := rows[i];
      if entry.prev != prev {
        assert !LinkedAt(p, rows, i);
        return false;
      }
      if entry.h != ChainHash(p, entry.prev, entry.body, entry.token) {
        assert !LinkedAt(p, rows, i);
        return false;
      }
      prev := entry.h;
    }
    return true;
  }

  // ---- what the head commits to ------------------------------------------------

  /** The separator cannot be shifted when the outer fields do not contain it; the text may. */
  lemma JoinInjective(a: string, b: string, c: string, a': string, b': string, c': string)
    requires '|' !in a && '|' !in a' && '|' !in c && '|' !in c'
    requires Joined(a, b, c) == Joined(a', b', c')
    ensures a == a' && b == b' && c == c'
  {
    var s, s' := Joined(a, b, c), Joined(a', b', c');
    FirstSeparator(a, b + "|" + c, a', b' + "|" + c') by {
      assert s == a + "|" + (b + "|" + c);
      assert s' == a' + "|" + (b' + "|" + c');
    }
    LastSeparator(b, c, b', c');
  }

  lemma FirstSeparator(a: string, x: string, a': string, x': string)
    requires '|' !in a && '|' !in a' && a + "|" + x == a' + "|" + x'
    ensures a == a' && x == x'
  {
    var s, s' := a + "|" + x, a' + "|" + x';
    assert s[|a|] == '|' && s'[|a'|] == '|';
    assert a == s[..|a|] && a' == s'[..|a'|];
    assert x == s[|a| + 1..] && x' == s'[|a'| + 1..];
  }

  lemma LastSeparator(x: string, c: string, x': string, c': string)
    requires '|' !in c && '|' !in c' && x + "|" + c == x' + "|" + c'
    ensures x == x' && c == c'
  {
    var s, s' := x + "|" + c, x' + "|" + c';
    assert s[|x|] == '|' && s'[|x'|] == '|';
    assert x == s[..|x|] && x' == s'[..|x'|];
    assert c == s[|x| + 1..] && c' == s'[|x'| + 1..];
  }

  ghost predicate ShaCollision(p: Primitives, x: string, y: string) {
    x != y && p.sha(x) == p.sha(y)
  }

  ghost predicate CanonCollision(p: Primitives, x: Body, y: Body) {
    x != y && p.canon(x) == p.canon(y)
  }

  /** The two rows hand over a concrete collision of the digest or of the encoding. */
  ghost predicate Collide(p: Primitives, x: Row, y: Row) {
    || ShaCollision(p, Preimage(p, x.prev, x.body, x.token), Preimage(p, y.prev, y.body, y.token))
    || CanonCollision(p, x.body, y.body)
  }

  ghost predicate SameContent(xs: seq<Row>, ys: seq<Row>) {
    && |xs| == |ys|
    && forall i :: 0 <= i < |xs| ==>
         xs[i].prev == ys[i].prev && xs[i].body == ys[i].body && xs[i].token == ys[i].token && xs[i].h == ys[i].h
  }

  ghost predicate PlainTokens(rows: seq<Row>) {
    forall i :: 0 <= i < |rows| ==> '|' !in rows[i].token
  }

  /** Two verified chains with one head hold the same evidence, or exhibit a collision. */
  lemma {:induction false} HeadDeterminesChain(p: Primitives, xs: seq<Row>, ys: seq<Row>)
    requires HexDigest(p) && Linked(p, xs) && Linked(p, ys) && PlainTokens(xs) && PlainTokens(ys)
    requires HashBefore(xs, |xs|) == HashBefore(ys, |ys|)
    ensures SameContent(xs, ys) || exists i, j :: 0 <= i < |xs| && 0 <= j < |ys| && Collide(p, xs[i], ys[j])
  {
    HeadIsDigest(p, xs);
    HeadIsDigest(p, ys);
    if xs != [] && ys != [] {
      var m, n := |xs| - 1, |ys| - 1;
      var x, y := xs[m], ys[n];
      assert LinkedAt(p, xs, m) && LinkedAt(p, ys, n);
      if !Collide(p, x, y) {
        PrevIsPlain(p, xs, m);
        PrevIsPlain(p, ys, n);
        JoinInjective(x.prev, p.canon(x.body), x.token, y.prev, p.canon(y.body), y.token);
        Shorter(p, xs);
        Shorter(p, ys);
        HeadDeterminesChain(p, xs[..m], ys[..n]);
        if !SameContent(xs[..m], ys[..n]) {
          var i, j :| 0 <= i < m && 0 <= j < n && Collide(p, xs[..m][i], ys[..n][j]);
          assert Collide(p, xs[i], ys[j]);
        }
      }
    }
  }

  lemma HeadIsDigest(p: Primitives, rows: seq<Row>)
    requires HexDigest(p) && Linked(p, rows)
    ensures HashBefore(rows, |rows|) == "" <==> rows == []
  {
    if rows != [] {
      assert LinkedAt(p, rows, |rows| - 1);
    }
  }

  lemma PrevIsPlain(p: Primitives, rows: seq<Row>, i: nat)
    requires HexDigest(p) && Linked(p, rows) && i < |rows|
    ensures '|' !in rows[i].prev
  {
    assert LinkedAt(p, rows, i);
    if i > 0 {
      assert LinkedAt(p, rows, i - 1);
    }
  }

  lemma Shorter(p: Primitives, rows: seq<Row>)
    requires Linked(p, rows) && rows != []
    ensures Linked(p, rows[..|rows| - 1])
    ensures HashBefore(rows[..|rows| - 1], |rows| - 1) == rows[|rows| - 1].prev
  {
    var n := |rows| - 1;
    assert LinkedAt(p, rows, n);
    forall i | 0 <= i < n ensures LinkedAt(p, rows[..n], i) {
      assert LinkedAt(p, rows, i);
    }
  }

  // ---- ORDER BY id ---------------------------------------------------------------

  function Insert(rows: seq<Row>, r: Row): seq<Row> {
    if rows == [] || rows[|rows| - 1].id <= r.id then rows + [r]
    else Insert(rows[..|rows| - 1], r) + [rows[|rows| - 1]]
  }

  function OrderById(rows: seq<Row>): seq<Row> {
    if rows == [] then [] else Insert(OrderById(rows[..|rows| - 1]), rows[|rows| - 1])
  }

  ghost predicate Sorted(rows: seq<Row>) {
    forall i, j :: 0 <= i < j < |rows| ==> rows[i].id <= rows[j].id
  }

  ghost predicate Increasing(rows: seq<Row>) {
    forall i, j :: 0 <= i < j < |rows| ==> rows[i].id < rows[j].id
  }

  lemma {:induction false} InsertBelow(rows: seq<Row>, r: Row, hi: int)
    requires r.id <= hi && forall i :: 0 <= i < |rows| ==> rows[i].id <= hi
    ensures forall i :: 0 <= i < |Insert(rows, r)| ==> Insert(rows, r)[i].id <= hi
  {
    if rows == [] {
    } else {
      InsertBelow(rows[..|rows| - 1], r, hi);
    }
  }

  lemma {:induction false} InsertSorts(rows: seq<Row>, r: Row)
    requires Sorted(rows)
    ensures Sorted(Insert(rows, r))
  {
    if rows != [] && r.id < rows[|rows| - 1].id {
      InsertSorts(rows[..|rows| - 1], r);
      InsertBelow(rows[..|rows| - 1], r, rows[|rows| - 1].id);
    }
  }

  lemma {:induction false} InsertPermutes(rows: seq<Row>, r: Row)
    ensures multiset(Insert(rows, r)) == multiset(rows) + multiset{r}
  {
    if rows == [] {
    } else {
      InsertPermutes(rows[..|rows| - 1], r);
      assert rows == rows[..|rows| - 1] + [rows[|rows| - 1]];
    }
  }

  lemma OrderByUnroll(rows: seq<Row>)
    requires rows != []
    ensures OrderById(rows) == Insert(OrderById(rows[..|rows| - 1]), rows[|rows| - 1])
  {
    hide Insert;
  }

  lemma OrderBySnoc(rows: seq<Row>, r: Row)
    ensures OrderById(rows + [r]) == Insert(OrderById(rows), r)
  {
    hide Insert;
    assert (rows + [r])[..|rows|] == rows;
  }

  lemma {:induction false} OrderByIdOrders(rows: seq<Row>)
    ensures Sorted(OrderById(rows))
  {
    if rows == [] {
    } else {
      hide OrderById, Insert, Sorted;
      var init, r := rows[..|rows| - 1], rows[|rows| - 1];
      OrderByIdOrders(init);
      InsertSorts(OrderById(init), r);
      assert rows == init + [r];
      OrderBySnoc(init, r);
    }
  }

  lemma {:induction false} OrderByIdPermutes(rows: seq<Row>)
    ensures multiset(OrderById(rows)) == multiset(rows)
  {
    if rows == [] {
    } else {
      hide OrderById, Insert;
      var init, r := rows[..|rows| - 1], rows[|rows| - 1];
      OrderByIdPermutes(init);
      InsertPermutes(OrderById(init), r);
      OrderByUnroll(rows);
      SplitLast(rows);
    }
  }

  /** ORDER BY id returns the rows of the table, each as often as it is there, by increasing id. */
  lemma OrderByIdSorts(rows: seq<Row>)
    ensures Sorted(OrderById(rows)) && multiset(OrderById(rows)) == multiset(rows)
  {
    hide OrderById, Sorted;
    OrderByIdOrders(rows);
    OrderByIdPermutes(rows);
  }

  lemma InsertLast(rows: seq<Row>, r: Row)
    requires rows == [] || rows[|rows| - 1].id <= r.id
    ensures Insert(rows, r) == rows + [r]
  {
  }

  lemma {:induction false} OrderedAlready(rows: seq<Row>)
    requires Increasing(rows)
    ensures OrderById(rows) == rows
  {
    if rows == [] {
    } else {
      hide OrderById, Insert;
      var init, r := rows[..|rows| - 1], rows[|rows| - 1];
      OrderedAlready(init);
      InsertLast(init, r);
      assert rows == init + [r];
      OrderBySnoc(init, r);
    }
  }

  // ---- what the chain does not cover ---------------------------------------------

  /** The table with every row rewritten. */
  function Rewritten(rows: seq<Row>, f: Row -> Row): seq<Row> {
    if rows == [] then [] else Rewritten(rows[..|rows| - 1], f) + [f(rows[|rows| - 1])]
  }

  /** The rewriting keeps prev, body, token and digest of the table's rows. */
  ghost predicate KeepsContent(rows: seq<Row>, f: Row -> Row) {
    forall r :: r in rows ==> f(r).prev == r.prev && f(r).body == r.body && f(r).token == r.token && f(r).h == r.h
  }

  ghost predicate KeepsOrder(rows: seq<Row>, f: Row -> Row) {
    forall r, q :: r in rows && q in rows ==> (r.id <= q.id <==> f(r).id <= f(q).id)
  }

  lemma {:induction false} RewrittenAt(rows: seq<Row>, f: Row -> Row)
    ensures |Rewritten(rows, f)| == |rows| && forall i :: 0 <= i < |rows| ==> Rewritten(rows, f)[i] == f(rows[i])
  {
    if rows == [] {
    } else {
      RewrittenAt(rows[..|rows| - 1], f);
    }
  }

  lemma RewrittenSnoc(rows: seq<Row>, r: Row, f: Row -> Row)
    ensures Rewritten(rows + [r], f) == Rewritten(rows, f) + [f(r)]
  {
    assert (rows + [r])[..|rows|] == rows;
  }

  lemma {:induction false} InsertRewritten(rows: seq<Row>, r: Row, f: Row -> Row)
    requires forall q :: q in rows ==> (q.id <= r.id <==> f(q).id <= f(r).id)
    ensures Insert(Rewritten(rows, f), f(r)) == Rewritten(Insert(rows, r), f)
  {
    RewrittenAt(rows, f);
    hide Rewritten, Insert;
    if rows == [] || rows[|rows| - 1].id <= r.id {
      RewrittenSnoc(rows, r, f);
      InsertLast(rows, r);
      InsertLast(Rewritten(rows, f), f(r));
    } else {
      var init, last := rows[..|rows| - 1], rows[|rows| - 1];
      InsertRewritten(init, r, f);
      assert rows == init + [last];
      RewrittenSnoc(init, last, f);
      RewrittenSnoc(Insert(init, r), last, f);
      InsertEarlier(init, last, r);
      InsertEarlier(Rewritten(init, f), f(last), f(r));
    }
  }

  lemma InsertEarlier(init: seq<Row>, last: Row, r: Row)
    requires r.id < last.id
    ensures Insert(init + [last], r) == Insert(init, r) + [last]
  {
    assert (init + [last])[..|init|] == init;
  }

  /** Rewriting and ordering commute. */
  lemma {:induction false} OrderRewritten(rows: seq<Row>, f: Row -> Row)
    requires KeepsOrder(rows, f)
    ensures OrderById(Rewritten(rows, f)) == Rewritten(OrderById(rows), f)
  {
    if rows == [] {
    } else {
      hide OrderById, Insert, Rewritten;
      var init, r := rows[..|rows| - 1], rows[|rows| - 1];
      assert rows == init + [r];
      OrderRewritten(init, f);
      RewrittenSnoc(init, r, f);
      OrderBySnoc(init, r);
      OrderBySnoc(Rewritten(init, f), f(r));
      OrderByIdPermutes(init);
      forall q | q in OrderById(init) ensures q in rows {
        assert q in multiset(OrderById(init));
      }
      InsertRewritten(OrderById(init), r, f);
    }
  }

  /** The digest covers prev, body and token only: rewriting tenants, subjects and timestamps of any
      rows, and their ids as long as the order stays, goes unnoticed by the check over the table. */
  lemma MetadataIsNotChained(p: Primitives, table: seq<Row>, f: Row -> Row)
    requires KeepsContent(table, f) && KeepsOrder(table, f)
    ensures Linked(p, OrderById(Rewritten(table, f))) <==> Linked(p, OrderById(table))
  {
    hide OrderById, Rewritten, LinkedAt;
    var xs := OrderById(table);
    OrderRewritten(table, f);
    RewrittenAt(xs, f);
    OrderByIdPermutes(table);
    forall i | 0 <= i < |xs| ensures LinkedAt(p, Rewritten(xs, f), i) <==> LinkedAt(p, xs, i) {
      assert xs[i] in multiset(xs);
      if i > 0 {
        assert xs[i - 1] in multiset(xs);
      }
      SameLink(p, xs, Rewritten(xs, f), i);
    }
  }

  lemma SameLink(p: Primitives, xs: seq<Row>, ys: seq<Row>, i: nat)
    requires i < |xs| && i < |ys| && xs[i].prev == ys[i].prev && xs[i].body == ys[i].body
    requires xs[i].token == ys[i].token && xs[i].h == ys[i].h && (i > 0 ==> xs[i - 1].h == ys[i - 1].h)
    ensures LinkedAt(p, xs, i) <==> LinkedAt(p, ys, i)
  {
  }

  // ---- which rewritings are noticed -----------------------------------------------

  /** The primary key and UNIQUE(h). */
  ghost predicate Keyed(rows: seq<Row>) {
    forall i, j :: 0 <= i < j < |rows| ==> rows[i].id != rows[j].id && rows[i].h != rows[j].h
  }

  lemma KeyedOrder(rows: seq<Row>)
    requires Keyed(rows)
    ensures Keyed(OrderById(rows)) && Increasing(OrderById(rows))
  {
    OrderByIdSorts(rows);
    hide OrderById;
    var xs := OrderById(rows);
    assert NoDup(rows);
    NoDupPermutes(rows, xs);
    forall i, j | 0 <= i < j < |xs| ensures xs[i].id != xs[j].id && xs[i].h != xs[j].h {
      assert xs[i] in multiset(rows) && xs[j] in multiset(rows) && xs[i] != xs[j];
      var k :| 0 <= k < |rows| && rows[k] == xs[i];
      var l :| 0 <= l < |rows| && rows[l] == xs[j];
      assert k < l || l < k;
    }
  }

  /** In a chain with distinct digests, prev tells the position. */
  lemma PrevIsPlace(p: Primitives, xs: seq<Row>, i: nat, j: nat)
    requires HexDigest(p) && Linked(p, xs) && Keyed(xs) && i < |xs| && j < |xs| && xs[j].prev == HashBefore(xs, i)
    ensures i == j
  {
    assert LinkedAt(p, xs, j);
    if i > 0 {
      assert LinkedAt(p, xs, i - 1);
    }
    if j > 0 {
      assert LinkedAt(p, xs, j - 1);
    }
  }

  /** A rewritten chain that still verifies holds the rewritten rows in the old order. */
  lemma {:induction false} SameOrder(p: Primitives, xs: seq<Row>, ys: seq<Row>, f: Row -> Row, i: nat)
    requires HexDigest(p) && Linked(p, xs) && Keyed(xs) && KeepsContent(xs, f) && Linked(p, ys)
    requires |ys| == |xs| && (forall k :: 0 <= k < |ys| ==> exists q :: q in xs && f(q) == ys[k]) && i < |xs|
    ensures ys[i] == f(xs[i])
  {
    if i > 0 {
      SameOrder(p, xs, ys, f, i - 1);
      assert xs[i - 1] in xs;
    }
    assert LinkedAt(p, ys, i);
    var q :| q in xs && f(q) == ys[i];
    var j :| 0 <= j < |xs| && xs[j] == q;
    assert xs[j].prev == HashBefore(xs, i);
    PrevIsPlace(p, xs, i, j);
  }

  lemma FromTable(table: seq<Row>, f: Row -> Row)
    ensures |OrderById(table)| == |OrderById(Rewritten(table, f))| == |table|
    ensures forall r :: r in OrderById(table) <==> r in table
    ensures forall y :: y in OrderById(Rewritten(table, f)) ==> exists q :: q in table && f(q) == y
  {
    hide OrderById, Rewritten;
    OrderByIdPermutes(table);
    OrderByIdPermutes(Rewritten(table, f));
    RewrittenAt(table, f);
    Members(OrderById(table), table);
    Members(OrderById(Rewritten(table, f)), Rewritten(table, f));
    forall y | y in OrderById(Rewritten(table, f)) ensures exists q :: q in table && f(q) == y {
      var k :| 0 <= k < |table| && Rewritten(table, f)[k] == y;
      assert table[k] in table;
    }
  }

  lemma Members(xs: seq<Row>, ys: seq<Row>)
    requires multiset(xs) == multiset(ys)
    ensures |xs| == |ys| && forall r :: r in xs <==> r in ys
  {
    assert |multiset(xs)| == |multiset(ys)|;
    forall r ensures r in xs <==> r in ys {
      assert r in xs <==> r in multiset(xs);
      assert r in ys <==> r in multiset(ys);
    }
  }

  /** Of the rewritings of a verified table that leave prev, body, token and digests, and keep the
      keys unique, exactly the ones that keep the order of ids go unnoticed. */
  lemma UnnoticedIff(p: Primitives, table: seq<Row>, f: Row -> Row)
    requires HexDigest(p) && Linked(p, OrderById(table)) && Keyed(table)
    requires KeepsContent(table, f) && Keyed(Rewritten(table, f))
    ensures Linked(p, OrderById(Rewritten(table, f))) <==> KeepsOrder(table, f)
  {
    hide OrderById, Rewritten, Linked, Keyed, HexDigest;
    if KeepsOrder(table, f) {
      MetadataIsNotChained(p, table, f);
    }
    if Linked(p, OrderById(Rewritten(table, f))) {
      NoticedUnlessOrdered(p, table, f);
    }
  }

  lemma NoticedUnlessOrdered(p: Primitives, table: seq<Row>, f: Row -> Row)
    requires HexDigest(p) && Linked(p, OrderById(table)) && Keyed(table)
    requires KeepsContent(table, f) && Keyed(Rewritten(table, f)) && Linked(p, OrderById(Rewritten(table, f)))
    ensures KeepsOrder(table, f)
  {
    hide OrderById, Rewritten, Linked, Keyed, HexDigest;
    var xs, ys := OrderById(table), OrderById(Rewritten(table, f));
    FromTable(table, f);
    KeyedOrder(table);
    KeyedOrder(Rewritten(table, f));
    forall k | 0 <= k < |ys| ensures exists q :: q in xs && f(q) == ys[k] {
      assert ys[k] in ys;
      var q :| q in table && f(q) == ys[k];
    }
    forall r, q | r in table && q in table ensures r.id <= q.id <==> f(r).id <= f(q).id {
      assert r in xs && q in xs;
      var i :| 0 <= i < |xs| && xs[i] == r;
      var j :| 0 <= j < |xs| && xs[j] == q;
      SameOrder(p, xs, ys, f, i);
      SameOrder(p, xs, ys, f, j);
      assert i < j || j < i || i == j;
    }
  }

  /** The instance: a ledger of one row, moved to another tenant, still verifies. */
  lemma OtherTenant(p: Primitives, body: Body, token: string, tenant: string)
    ensures var r := Row(1, 0, "default", "m", "", body, token, ChainHash(p, "", body, token));
      Linked(p, OrderById([r])) && Linked(p, OrderById([r.(tenant := tenant)]))
  {
    var r := Row(1, 0, "default", "m", "", body, token, ChainHash(p, "", body, token));
    OrderedAlready([r]);
    OrderedAlready([r.(tenant := tenant)]);
  }
}
