/** The user-pack registry: one JSON file, read with validation, written sorted and atomically. */
module PackStore {
  import opened Json
  import opened Lists

  datatype PackRow = PackRow(id: string, name: string, description: string, policyIds: seq<string>, isFloor: bool)

  /** A list item after the defaults and `str()` conversions; None marks a missing key or wrong type. */
  datatype RawItem =
    | NotObject
    | Item(id: Option<Value>, name: Option<string>, description: string,
           policyIds: Option<seq<string>>, isFloor: Option<bool>)

  datatype File = Missing | NotJsonList | Items(items: seq<RawItem>)

  datatype Result<T> = Ok(value: T) | Err

  const PREFIX := "user-pack/"

  // ---- load --------------------------------------------------------------------

  predicate ValidItem(x: RawItem) {
    && x.Item? && x.id.Some? && x.name.Some? && x.id.value.Str? && PREFIX <= x.id.value.s
    && x.policyIds.Some? && x.isFloor.Some?
  }

  function ToRow(x: RawItem): PackRow
    requires ValidItem(x)
  {
    PackRow(x.id.value.s, x.name.value, x.description, x.policyIds.value, x.isFloor.value)
  }

  predicate OneFloor(rows: seq<PackRow>) {
    forall i, j :: 0 <= i < j < |rows| ==> !(rows[i].isFloor && rows[j].isFloor)
  }

  function ToRows(items: seq<RawItem>): (rows: seq<PackRow>)
    requires forall i :: 0 <= i < |items| ==> ValidItem(items[i])
    ensures |rows| == |items| && forall i :: 0 <= i < |items| ==> rows[i] == ToRow(items[i])
  {
    seq(|items|, i requires 0 <= i < |items| => ToRow(items[i]))
  }

  /** Loading succeeds exactly on a missing file or a list of valid items with at most one floor. */
  function LoadRows(f: File): Result<seq<PackRow>> {
    match f
    case Missing => Ok([])
    case NotJsonList => Err
    case Items(items) =>
      if (forall i :: 0 <= i < |items| ==> ValidItem(items[i])) && OneFloor(ToRows(items)) then Ok(ToRows(items))
      else Err
  }

  /** In plain terms: a missing file loads as no packs; a list loads if every item has the needed keys,
      a prefixed text as id, and no second item is a floor, and gives the items field by field; nothing
      else loads. */
  ghost predicate Loads(f: File, r: Result<seq<PackRow>>) {
    match f
    case Missing => r == Ok([])
    case NotJsonList => r == Err
    case Items(items) =>
      && (r.Ok? <==>
            && (forall i :: 0 <= i < |items| ==> Complete(items[i]))
            && (forall i, j :: 0 <= i < j < |items| ==>
                  !(items[i].isFloor == Some(true) && items[j].isFloor == Some(true))))
      && (r.Ok? ==>
            && |r.value| == |items|
            && forall i :: 0 <= i < |items| ==>
                 && items[i].id == Some(Str(r.value[i].id)) && items[i].name == Some(r.value[i].name)
                 && items[i].description == r.value[i].description
                 && items[i].policyIds == Some(r.value[i].policyIds) && items[i].isFloor == Some(r.value[i].isFloor))
  }

  ghost predicate Complete(x: RawItem) {
    && x.Item? && x.name.Some? && x.policyIds.Some? && x.isFloor.Some?
    && x.id.Some? && x.id.value.Str? && "user-pack/" <= x.id.value.s
  }

  lemma LoadRowsLoads(f: File)
    ensures Loads(f, LoadRows(f))
  {
    if f.Items? {
      var items := f.items;
      if forall i :: 0 <= i < |items| ==> ValidItem(items[i]) {
        assert forall i :: 0 <= i < |items| ==> Complete(items[i]);
        var rows := ToRows(items);
        assert forall i :: 0 <= i < |items| ==> items[i].isFloor == Some(rows[i].isFloor);
      } else {
        var i :| 0 <= i < |items| && !ValidItem(items[i]);
        assert !Complete(items[i]);
      }
    }
  }

  lemma LoadRowsIs(f: File)
    ensures f.Missing? ==> LoadRows(f) == Ok([])
    ensures f.NotJsonList? ==> LoadRows(f) == Err
    ensures f.Items? ==> LoadRows(f) == LoadRows(Items(f.items))
  {
  }

  lemma BadItem(items: seq<RawItem>, i: nat)
    requires i < |items| && !ValidItem(items[i])
    ensures LoadRows(Items(items)) == Err
  {
  }

  lemma SecondFloor(items: seq<RawItem>, out: seq<PackRow>, i: nat)
    requires i < |items| && ValidItem(items[i]) && items[i].isFloor.value && |out| == i && !NoFloor(out)
    requires forall k :: 0 <= k < i ==> ValidItem(items[k]) && out[k] == ToRow(items[k])
    ensures LoadRows(Items(items)) == Err
  {
    var k :| 0 <= k < i && out[k].isFloor;
    if forall m :: 0 <= m < |items| ==> ValidItem(items[m]) {
      assert ToRows(items)[k].isFloor && ToRows(items)[i].isFloor;
    }
  }

  lemma AllRead(items: seq<RawItem>, out: seq<PackRow>)
    requires |out| == |items| && (forall k :: 0 <= k < |items| ==> ValidItem(items[k])) && OneFloor(out)
    requires forall k :: 0 <= k < |items| ==> out[k] == ToRow(items[k])
    ensures LoadRows(Items(items)) == Ok(out)
  {
    assert out == ToRows(items);
  }

  /** The list written for these rows, item by item. */
  ghost predicate Stores(f: File, rows: seq<PackRow>) {
    && f.Items? && |f.items| == |rows|
    && forall i :: 0 <= i < |rows| ==>
         f.items[i] == Item(Some(Str(rows[i].id)), Some(rows[i].name), rows[i].description,
                            Some(rows[i].policyIds), Some(rows[i].isFloor))
  }

  // ---- save ----------------------------------------------------------------------

  /** Code-point lexicographic order. */
  predicate StrLe(a: string, b: string) {
    if a == "" then true
    else if b == "" then false
    else if a[0] != b[0] then a[0] < b[0]
    else StrLe(a[1..], b[1..])
  }

  function Insert(rows: seq<PackRow>, r: PackRow): seq<PackRow> {
    if rows == [] || StrLe(rows[|rows| - 1].id, r.id) then rows + [r]
    else Insert(rows[..|rows| - 1], r) + [rows[|rows| - 1]]
  }

  /** `sorted(rows, key=id)`: stable. */
  function SortById(rows: seq<PackRow>): seq<PackRow> {
    if rows == [] then [] else Insert(SortById(rows[..|rows| - 1]), rows[|rows| - 1])
  }

  function ToRaw(r: PackRow): RawItem {
    Item(Some(Str(r.id)), Some(r.name), r.description, Some(r.policyIds), Some(r.isFloor))
  }

  function Written(rows: seq<PackRow>): File {
    Items(seq(|rows|, i requires 0 <= i < |rows| => ToRaw(rows[i])))
  }

  class Store {
    var file: File

    constructor (file: File)
      ensures this.file == file
    {
      this.file := file;
    }

    method Load() returns (r: Result<seq<PackRow>>)
      ensures r == LoadRows(file) && Loads(file, r)
    {
      LoadRowsLoads(file);
      LoadRowsIs(file);
      hide Loads, LoadRows, ToRows;
      if file.Missing? {
        return Ok([]);
      }
      if file.NotJsonList? {
        return Err;
      }
      var out := [];
      var floorSeen := false;
      var items := file.items;
      for i := 0 to |items|
        invariant forall k :: 0 <= k < i ==> ValidItem(items[k])
        invariant |out| == i && forall k :: 0 <= k < i ==> out[k] == ToRow(items[k])
        invariant floorSeen <==> !NoFloor(out)
        invariant OneFloor(out)
      {
        var item := items[i];
        if !ValidItem(item) {
          BadItem(items, i);
          return Err;
        }
        if item.isFloor.value {
          if floorSeen {
            SecondFloor(items, out, i);
            return Err;
          }
          floorSeen := true;
        }
        FloorsSnoc(out, ToRow(item));
        hide OneFloor, NoFloor;
        out := out + [ToRow(item)];
      }
      AllRead(items, out);
      return Ok(out);
    }

    /** Refused, with the file untouched, exactly on two floors. Otherwise the file holds the rows by
        id, those of one id in their given order, and loads back to them if all ids are prefixed. */
    method Save(rows: seq<PackRow>) returns (ok: bool)
      modifies this
      ensures ok <==> OneFloor(rows)
      ensures file == if ok then Written(SortById(rows)) else old(file)
      ensures ok ==> Stores(file, SortById(rows))
      ensures ok ==> (LoadRows(file).Ok? <==> Prefixed(rows))
      ensures ok && Prefixed(rows) ==>
        var got := LoadRows(file).value;
        Sorted(got) && multiset(got) == multiset(rows) && forall id :: WithId(got, id) == WithId(rows, id)
    {
      if !OneFloor(rows) {
        return false;
      }
      SaveLoad(rows);
      WrittenStores(SortById(rows));
      hide Stores, SortById, LoadRows, Written, OneFloor, Prefixed, WithId, Sorted;
      file := Written(SortById(rows));
      return true;
    }
  }

  lemma WrittenStores(rows: seq<PackRow>)
    ensures Stores(Written(rows), rows)
  {
  }

  // ---- order ---------------------------------------------------------------------

  lemma {:induction false} StrLeTotal(a: string, b: string)
    ensures StrLe(a, b) || StrLe(b, a)
    ensures StrLe(a, b) && StrLe(b, a) ==> a == b
    ensures StrLe(a, a)
  {
    if a == "" {
    } else {
      StrLeTotal(a[1..], a[1..]);
      if b != "" && a[0] == b[0] {
        StrLeTotal(a[1..], b[1..]);
        assert a == [a[0]] + a[1..] && b == [b[0]] + b[1..];
      }
    }
  }

  /** a is a beginning of b, or smaller where they first differ. */
  ghost predicate Precedes(a: string, b: string) {
    a <= b || exists k :: DiffersAt(a, b, k) && a[k] < b[k]
  }

  ghost predicate DiffersAt(a: string, b: string, k: int) {
    0 <= k < |a| && k < |b| && a[..k] == b[..k] && a[k] != b[k]
  }

  lemma SameStart(a: string, b: string, k: int)
    requires DiffersAt(a, b, k)
    ensures k == 0 || a[0] == b[0]
  {
    assert k == 0 || (a[0] == a[..k][0] && b[0] == b[..k][0]);
  }

  /** The order of ids is lexicographic. */
  lemma {:induction false} StrLeMeans(a: string, b: string)
    ensures StrLe(a, b) <==> Precedes(a, b)
  {
    if a == "" || b == "" {
      assert a == "" ==> a <= b;
    } else if a[0] != b[0] {
      assert a[..0] == b[..0] && DiffersAt(a, b, 0);
      forall k | DiffersAt(a, b, k) ensures k == 0 {
        SameStart(a, b, k);
      }
    } else {
      StrLeMeans(a[1..], b[1..]);
      assert a == [a[0]] + a[1..] && b == [b[0]] + b[1..];
      if Precedes(a[1..], b[1..]) && !(a[1..] <= b[1..]) {
        var k :| DiffersAt(a[1..], b[1..], k) && a[1..][k] < b[1..][k];
        assert a[..k + 1] == [a[0]] + a[1..][..k] && b[..k + 1] == [b[0]] + b[1..][..k];
        assert DiffersAt(a, b, k + 1);
      }
      if Precedes(a, b) && !(a <= b) {
        var k :| DiffersAt(a, b, k) && a[k] < b[k];
        assert a[1..][..k - 1] == a[..k][1..] && b[1..][..k - 1] == b[..k][1..];
        assert DiffersAt(a[1..], b[1..], k - 1);
      }
    }
  }

  lemma {:induction false} StrLeTrans(a: string, b: string, c: string)
    requires StrLe(a, b) && StrLe(b, c)
    ensures StrLe(a, c)
  {
    if a != "" && a[0] == b[0] && b[0] == c[0] {
      StrLeTrans(a[1..], b[1..], c[1..]);
    }
  }

  ghost predicate Sorted(rows: seq<PackRow>) {
    forall i, j :: 0 <= i <= j < |rows| ==> StrLe(rows[i].id, rows[j].id)
  }

  lemma {:induction false} InsertMembers(rows: seq<PackRow>, r: PackRow)
    ensures multiset(Insert(rows, r)) == multiset(rows) + multiset{r}
    ensures |Insert(rows, r)| == |rows| + 1
    ensures forall x :: x in Insert(rows, r) <==> x in rows || x == r
  {
    if rows == [] {
    } else {
      InsertMembers(rows[..|rows| - 1], r);
      assert rows == rows[..|rows| - 1] + [rows[|rows| - 1]];
    }
  }

  lemma {:induction false} SortPermutes(rows: seq<PackRow>)
    ensures multiset(SortById(rows)) == multiset(rows)
  {
    if rows == [] {
    } else {
      hide SortById, Insert;
      var init, r := rows[..|rows| - 1], rows[|rows| - 1];
      SortPermutes(init);
      InsertMembers(SortById(init), r);
      SortUnroll(rows);
      SplitLast(rows);
    }
  }

  lemma SortMembers(rows: seq<PackRow>)
    ensures multiset(SortById(rows)) == multiset(rows) && |SortById(rows)| == |rows|
    ensures forall x :: x in SortById(rows) <==> x in rows
  {
    hide SortById;
    SortPermutes(rows);
    assert |multiset(SortById(rows))| == |multiset(rows)|;
    forall x ensures x in SortById(rows) <==> x in rows {
      assert x in SortById(rows) <==> x in multiset(SortById(rows));
      assert x in rows <==> x in multiset(rows);
    }
  }

  lemma SortUnroll(rows: seq<PackRow>)
    requires rows != []
    ensures SortById(rows) == Insert(SortById(rows[..|rows| - 1]), rows[|rows| - 1])
  {
    hide Insert;
  }

  lemma {:induction false} InsertSorted(rows: seq<PackRow>, r: PackRow)
    requires Sorted(rows)
    ensures Sorted(Insert(rows, r))
  {
    if rows == [] || StrLe(rows[|rows| - 1].id, r.id) {
      StrLeTotal(r.id, r.id);
      forall i | 0 <= i < |rows| ensures StrLe(rows[i].id, r.id) {
        StrLeTrans(rows[i].id, rows[|rows| - 1].id, r.id);
      }
    } else {
      var init, last := rows[..|rows| - 1], rows[|rows| - 1];
      InsertSorted(init, r);
      InsertMembers(init, r);
      StrLeTotal(last.id, r.id);
      StrLeTotal(last.id, last.id);
      forall x | x in Insert(init, r) ensures StrLe(x.id, last.id) {
      }
    }
  }

  lemma {:induction false} SortSorts(rows: seq<PackRow>)
    ensures Sorted(SortById(rows))
  {
    if rows == [] {
    } else {
      SortSorts(rows[..|rows| - 1]);
      InsertSorted(SortById(rows[..|rows| - 1]), rows[|rows| - 1]);
    }
  }

  /** Sorting a sorted list changes nothing. */
  lemma {:induction false} SortIdle(rows: seq<PackRow>)
    requires Sorted(rows)
    ensures SortById(rows) == rows
  {
    if rows == [] {
    } else {
      var n := |rows| - 1;
      SortIdle(rows[..n]);
      assert rows == rows[..n] + [rows[n]];
      assert n > 0 ==> StrLe(rows[n - 1].id, rows[n].id);
    }
  }

  /** The first row carrying an id. */
  function FirstWithId(rows: seq<PackRow>, id: string): Option<PackRow> {
    if rows == [] then None
    else
      var r := FirstWithId(rows[..|rows| - 1], id);
      if r.Some? then r else if rows[|rows| - 1].id == id then Some(rows[|rows| - 1]) else None
  }

  /** The rows of one id, in order. */
  function WithId(rows: seq<PackRow>, id: string): seq<PackRow> {
    if rows == [] then []
    else WithId(rows[..|rows| - 1], id) + if rows[|rows| - 1].id == id then [rows[|rows| - 1]] else []
  }

  /** One row, if it has the id. */
  function If(r: PackRow, id: string): seq<PackRow> {
    if r.id == id then [r] else []
  }

  lemma WithIdSnoc(rows: seq<PackRow>, r: PackRow, id: string)
    ensures WithId(rows + [r], id) == WithId(rows, id) + If(r, id)
  {
    assert (rows + [r])[..|rows|] == rows;
  }

  lemma InsertEarlier(init: seq<PackRow>, last: PackRow, r: PackRow)
    requires !StrLe(last.id, r.id)
    ensures Insert(init + [last], r) == Insert(init, r) + [last]
  {
    assert (init + [last])[..|init|] == init;
  }

  lemma {:induction false} InsertStable(rows: seq<PackRow>, r: PackRow, id: string)
    ensures WithId(Insert(rows, r), id) == WithId(rows, id) + If(r, id)
  {
    if rows == [] || StrLe(rows[|rows| - 1].id, r.id) {
      WithIdSnoc(rows, r, id);
    } else {
      var init, last := rows[..|rows| - 1], rows[|rows| - 1];
      StrLeTotal(r.id, r.id);
      NotBoth(last, r, id);
      hide Insert, WithId, StrLe, If;
      SplitLast(rows);
      InsertEarlier(init, last, r);
      InsertStable(init, r, id);
      WithIdSnoc(init, last, id);
      WithIdSnoc(Insert(init, r), last, id);
      Swap(WithId(init, id), If(r, id), If(last, id));
    }
  }

  lemma NotBoth(x: PackRow, y: PackRow, id: string)
    requires x.id != y.id
    ensures If(x, id) == [] || If(y, id) == []
  {
  }

  /** Stability: the rows of one id keep their order. */
  lemma {:induction false} SortStable(rows: seq<PackRow>, id: string)
    ensures WithId(SortById(rows), id) == WithId(rows, id)
  {
    if rows == [] {
    } else {
      var n := |rows| - 1;
      SortStable(rows[..n], id);
      InsertStable(SortById(rows[..n]), rows[n], id);
    }
  }

  lemma {:induction false} FirstIsHead(rows: seq<PackRow>, id: string)
    ensures FirstWithId(rows, id) == if WithId(rows, id) == [] then None else Some(WithId(rows, id)[0])
  {
    if rows == [] {
    } else {
      FirstIsHead(rows[..|rows| - 1], id);
    }
  }

  lemma SortFirst(rows: seq<PackRow>, id: string)
    ensures FirstWithId(SortById(rows), id) == FirstWithId(rows, id)
  {
    hide SortById, FirstWithId, WithId;
    SortStable(rows, id);
    FirstIsHead(rows, id);
    FirstIsHead(SortById(rows), id);
  }

  ghost predicate Prefixed(rows: seq<PackRow>) {
    forall r :: r in rows ==> PREFIX <= r.id
  }

  lemma SortOneFloor(rows: seq<PackRow>)
    ensures OneFloor(SortById(rows)) <==> OneFloor(rows)
  {
    hide Floors, OneFloor, SortById;
    SortFloors(rows);
    FloorsOne(rows);
    FloorsOne(SortById(rows));
  }

  /** How many rows are floors. */
  function Floors(rows: seq<PackRow>): nat {
    if rows == [] then 0 else Floors(rows[..|rows| - 1]) + (if rows[|rows| - 1].isFloor then 1 else 0)
  }

  ghost predicate NoFloor(rows: seq<PackRow>) {
    forall i :: 0 <= i < |rows| ==> !rows[i].isFloor
  }

  lemma FloorsSnoc(rows: seq<PackRow>, r: PackRow)
    ensures Floors(rows + [r]) == Floors(rows) + (if r.isFloor then 1 else 0)
    ensures NoFloor(rows + [r]) <==> NoFloor(rows) && !r.isFloor
    ensures OneFloor(rows + [r]) <==> OneFloor(rows) && (r.isFloor ==> NoFloor(rows))
  {
    var all, n := rows + [r], |rows|;
    assert all[..n] == rows && all[n] == r;
    assert forall i :: 0 <= i < n ==> all[i] == rows[i];
    hide Floors;
  }

  lemma {:induction false} FloorsOne(rows: seq<PackRow>)
    ensures OneFloor(rows) <==> Floors(rows) <= 1
    ensures NoFloor(rows) <==> Floors(rows) == 0
  {
    if rows == [] {
    } else {
      hide Floors, OneFloor, NoFloor;
      var init, r := rows[..|rows| - 1], rows[|rows| - 1];
      FloorsOne(init);
      assert rows == init + [r];
      FloorsSnoc(init, r);
    }
  }

  lemma {:induction false} InsertFloors(rows: seq<PackRow>, r: PackRow)
    ensures Floors(Insert(rows, r)) == Floors(rows) + (if r.isFloor then 1 else 0)
  {
    if rows == [] || StrLe(rows[|rows| - 1].id, r.id) {
      FloorsSnoc(rows, r);
    } else {
      var init, last := rows[..|rows| - 1], rows[|rows| - 1];
      assert Insert(rows, r) == Insert(init, r) + [last] && rows == init + [last];
      hide Floors, Insert;
      InsertFloors(init, r);
      FloorsSnoc(init, last);
      FloorsSnoc(Insert(init, r), last);
    }
  }

  lemma {:induction false} SortFloors(rows: seq<PackRow>)
    ensures Floors(SortById(rows)) == Floors(rows)
  {
    if rows == [] {
    } else {
      SortFloors(rows[..|rows| - 1]);
      InsertFloors(SortById(rows[..|rows| - 1]), rows[|rows| - 1]);
    }
  }

  lemma WrittenLoads(rows: seq<PackRow>)
    ensures LoadRows(Written(rows)) == if OneFloor(rows) && Prefixed(rows) then Ok(rows) else Err
  {
    var items := Written(rows).items;
    forall i | 0 <= i < |rows| ensures ValidItem(items[i]) <==> PREFIX <= rows[i].id {
    }
    if Prefixed(rows) {
      assert forall i :: 0 <= i < |rows| ==> rows[i] in rows;
      assert ToRows(items) == rows;
    } else {
      var r :| r in rows && !(PREFIX <= r.id);
      var i :| 0 <= i < |rows| && rows[i] == r;
      assert !ValidItem(items[i]);
    }
  }

  /** What `save` accepts, `load` returns sorted, row for row, exactly when every id has the prefix
      that only `load` insists on. */
  lemma SaveLoad(rows: seq<PackRow>)
    requires OneFloor(rows)
    ensures var got := LoadRows(Written(SortById(rows)));
      && (got.Ok? <==> Prefixed(rows))
      && (got.Ok? ==>
            && got.value == SortById(rows) && Sorted(got.value) && multiset(got.value) == multiset(rows)
            && forall id :: WithId(got.value, id) == WithId(rows, id))
  {
    hide SortById, WithId, StrLe, LoadRows, Written;
    forall id ensures WithId(SortById(rows), id) == WithId(rows, id) {
      SortStable(rows, id);
    }
    SortOneFloor(rows);
    SortMembers(rows);
    SortSorts(rows);
    WrittenLoads(SortById(rows));
  }
}
