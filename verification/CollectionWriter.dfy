/** The two writers of a JSON collection in server/localStore.ts.

  A collection is a table of (rowid, id, data) rows. Reading is ordered by rowid and shows only the data, so
  the order of the rowids is observable and the rowids themselves are not. `WriteCollection` deletes and
  re-inserts everything; `WriteChanges` edits in place when it can. Both have the same postcondition. */
module CollectionWriter {

  /** A row a caller wants stored: its id ("" when the row has neither an id nor a key) and its JSON. */
  datatype Row = Row(id: string, data: string)

  datatype Stored = Stored(rowid: nat, id: string, data: string)

  datatype Statement =
    DeleteAll | Delete(id: string) | Update(id: string, data: string) | Insert(id: string, data: string)

  // ---------------------------------------------------------------- ids in order

  predicate Distinct(s: seq<string>) {
    forall i, j :: 0 <= i < j < |s| ==> s[i] != s[j]
  }

  function Elems(s: seq<string>): set<string> {
    set x | x in s
  }

  /** The ids of s that are in t, in the order of s. */
  function Keep(s: seq<string>, t: set<string>): seq<string> {
    if s == [] then [] else (if s[0] in t then [s[0]] else []) + Keep(s[1..], t)
  }

  function Drop(s: seq<string>, t: set<string>): seq<string> {
    if s == [] then [] else (if s[0] in t then [] else [s[0]]) + Drop(s[1..], t)
  }

  /** The index of the last id of s that is in t, or -1. */
  function LastIn(s: seq<string>, t: set<string>): (last: int)
    ensures -1 <= last < |s|
    ensures last >= 0 ==> s[last] in t
    ensures forall k :: last < k < |s| ==> s[k] !in t
  {
    if s == [] then -1
    else if s[|s| - 1] in t then |s| - 1
    else LastIn(s[..|s| - 1], t)
  }

  /** The source's test for editing in place: the stored rows that stay are already in the desired order,
      and no new row comes before the last of them. */
  predicate EditsInPlace(existing: seq<string>, desired: seq<string>) {
    var existingSet := Elems(existing);
    var last := LastIn(desired, existingSet);
    && Keep(existing, Elems(desired)) == Keep(desired, existingSet)
    && forall k :: 0 <= k < (if last < 0 then 0 else last) ==> desired[k] in existingSet
  }

  lemma {:induction false} KeepDropSplit(s: seq<string>, t: set<string>, n: nat)
    requires n <= |s|
    requires forall k :: 0 <= k < n ==> s[k] in t
    requires forall k :: n <= k < |s| ==> s[k] !in t
    ensures Keep(s, t) == s[..n] && Drop(s, t) == s[n..]
  {
    if s != [] {
      var m := if n == 0 then 0 else n - 1;
      KeepDropSplit(s[1..], t, m);
      if n == 0 {
        assert s[1..][0..] == s[1..];
      } else {
        assert s[..n] == [s[0]] + s[1..][..m] && s[1..][m..] == s[n..];
      }
    }
  }

  lemma {:induction false} KeepDropMembers(s: seq<string>, t: set<string>)
    ensures forall x :: x in Keep(s, t) <==> x in s && x in t
    ensures forall x :: x in Drop(s, t) <==> x in s && x !in t
  {
    if s != [] {
      KeepDropMembers(s[1..], t);
      assert forall x :: x in s <==> x == s[0] || x in s[1..];
    }
  }

  /** Deleting what is not wanted and appending what is new yields the desired order exactly when the
      source's test says so: the test neither lets a reordering through nor gives up too early. */
  lemma GuardIsExact(existing: seq<string>, desired: seq<string>)
    ensures EditsInPlace(existing, desired) <==>
            Keep(existing, Elems(desired)) + Drop(desired, Elems(existing)) == desired
  {
    var t := Elems(existing);
    if EditsInPlace(existing, desired) {
      KeepDropSplit(desired, t, LastIn(desired, t) + 1);
    }
    if Keep(existing, Elems(desired)) + Drop(desired, t) == desired {
      KeepDropMembers(existing, Elems(desired));
      KeepDropMembers(desired, t);
      SplitEditsInPlace(existing, desired, Keep(existing, Elems(desired)), Drop(desired, t));
    }
  }

  lemma SplitEditsInPlace(existing: seq<string>, desired: seq<string>, kept: seq<string>, added: seq<string>)
    requires desired == kept + added && kept == Keep(existing, Elems(desired))
    requires forall x :: x in kept ==> x in Elems(existing)
    requires forall x :: x in added ==> x !in Elems(existing)
    ensures EditsInPlace(existing, desired)
  {
    hide Keep, Drop, LastIn;
    var t, n := Elems(existing), |kept|;
    assert forall k :: 0 <= k < n ==> desired[k] == kept[k];
    assert forall k :: n <= k < |desired| ==> desired[k] == added[k - n];
    KeepDropSplit(desired, t, n);
    assert desired[..n] == kept;
    assert LastIn(desired, t) < n;
  }

  // ---------------------------------------------------------------- rows

  function Ids(rows: seq<Stored>): (s: seq<string>)
    ensures |s| == |rows| && forall k :: 0 <= k < |rows| ==> s[k] == rows[k].id
  {
    seq(|rows|, k requires 0 <= k < |rows| => rows[k].id)
  }

  function Datas(rows: seq<Stored>): (s: seq<string>)
    ensures |s| == |rows| && forall k :: 0 <= k < |rows| ==> s[k] == rows[k].data
  {
    seq(|rows|, k requires 0 <= k < |rows| => rows[k].data)
  }

  function WantedIds(rows: seq<Row>): (s: seq<string>)
    ensures |s| == |rows| && forall k :: 0 <= k < |rows| ==> s[k] == rows[k].id
  {
    seq(|rows|, k requires 0 <= k < |rows| => rows[k].id)
  }

  function WantedDatas(rows: seq<Row>): (s: seq<string>)
    ensures |s| == |rows| && forall k :: 0 <= k < |rows| ==> s[k] == rows[k].data
  {
    seq(|rows|, k requires 0 <= k < |rows| => rows[k].data)
  }

  /** The ids rows are stored under: a row without an id gets the generated one of its position. */
  function FinalIds(rows: seq<Row>, generated: seq<string>): (s: seq<string>)
    requires |generated| == |rows|
    ensures |s| == |rows|
    ensures forall k :: 0 <= k < |rows| ==> s[k] == if rows[k].id != "" then rows[k].id else generated[k]
  {
    seq(|rows|, k requires 0 <= k < |rows| => if rows[k].id != "" then rows[k].id else generated[k])
  }

  predicate DistinctIds(rows: seq<Stored>) {
    forall i, j :: 0 <= i < j < |rows| ==> rows[i].id != rows[j].id
  }

  predicate IncreasingRowids(rows: seq<Stored>) {
    forall i, j :: 0 <= i < j < |rows| ==> rows[i].rowid < rows[j].rowid
  }

  predicate HasId(rows: seq<Stored>, id: string) {
    exists k :: 0 <= k < |rows| && rows[k].id == id
  }

  /** SQLite's choice for a new row: one more than the largest rowid, which is the last. */
  function NextRowid(rows: seq<Stored>): nat {
    if rows == [] then 1 else rows[|rows| - 1].rowid + 1
  }

  /** The rows that are left when those with an id in t are deleted. */
  function Without(rows: seq<Stored>, t: set<string>): seq<Stored> {
    if rows == [] then [] else (if rows[0].id in t then [] else [rows[0]]) + Without(rows[1..], t)
  }

  lemma {:induction false} WithoutTwice(rows: seq<Stored>, t: set<string>, id: string)
    ensures Without(Without(rows, t), {id}) == Without(rows, t + {id})
  {
    if rows != [] {
      WithoutTwice(rows[1..], t, id);
      if rows[0].id in t {
        assert Without(rows, t) == Without(rows[1..], t);
      } else {
        assert Without(rows, t) == [rows[0]] + Without(rows[1..], t);
        assert Without(rows, t)[1..] == Without(rows[1..], t);
      }
    }
  }

  lemma {:induction false} WithoutNothing(rows: seq<Stored>)
    ensures Without(rows, {}) == rows
  {
    if rows != [] {
      WithoutNothing(rows[1..]);
    }
  }

  lemma {:induction false} WithoutMembers(rows: seq<Stored>, t: set<string>)
    ensures forall x :: x in Without(rows, t) <==> x in rows && x.id !in t
  {
    if rows != [] {
      WithoutMembers(rows[1..], t);
      assert forall x :: x in rows <==> x == rows[0] || x in rows[1..];
    }
  }

  lemma {:induction false} WithoutKeepsOrder(rows: seq<Stored>, t: set<string>)
    requires IncreasingRowids(rows) && DistinctIds(rows)
    ensures IncreasingRowids(Without(rows, t)) && DistinctIds(Without(rows, t))
  {
    hide IncreasingRowids, DistinctIds;
    if rows != [] {
      HeadIsFirst(rows);
      WithoutKeepsOrder(rows[1..], t);
      WithoutMembers(rows[1..], t);
      PutFirst(rows[0], Without(rows[1..], t));
      assert [] + Without(rows[1..], t) == Without(rows[1..], t);
    } else {
      assert Without(rows, t) == rows;
    }
  }

  lemma HeadIsFirst(rows: seq<Stored>)
    requires rows != [] && IncreasingRowids(rows) && DistinctIds(rows)
    ensures IncreasingRowids(rows[1..]) && DistinctIds(rows[1..])
    ensures forall x :: x in rows[1..] ==> rows[0].rowid < x.rowid && rows[0].id != x.id
  {
  }

  lemma PutFirst(row: Stored, rows: seq<Stored>)
    requires IncreasingRowids(rows) && DistinctIds(rows)
    requires forall x :: x in rows ==> row.rowid < x.rowid && row.id != x.id
    ensures IncreasingRowids([row] + rows) && DistinctIds([row] + rows)
  {
    var all := [row] + rows;
    forall i, j | 0 <= i < j < |all| ensures all[i].rowid < all[j].rowid && all[i].id != all[j].id {
      PairOrdered(row, rows, i, j);
    }
  }

  lemma PairOrdered(row: Stored, rows: seq<Stored>, i: nat, j: nat)
    requires IncreasingRowids(rows) && DistinctIds(rows)
    requires forall x :: x in rows ==> row.rowid < x.rowid && row.id != x.id
    requires i < j <= |rows|
    ensures ([row] + rows)[i].rowid < ([row] + rows)[j].rowid && ([row] + rows)[i].id != ([row] + rows)[j].id
  {
    var y := rows[j - 1];
    assert ([row] + rows)[j] == y && y in rows;
    if i > 0 {
      assert ([row] + rows)[i] == rows[i - 1];
    }
  }

  lemma {:induction false} IdsOfWithout(rows: seq<Stored>, t: set<string>, wanted: set<string>)
    requires forall k :: 0 <= k < |rows| ==> (rows[k].id in wanted <==> rows[k].id !in t)
    ensures Ids(Without(rows, t)) == Keep(Ids(rows), wanted)
  {
    if rows != [] {
      IdsOfWithout(rows[1..], t, wanted);
      assert Ids(rows)[1..] == Ids(rows[1..]);
    }
  }

  // ---------------------------------------------------------------- the table

  /** Only deletions of unwanted rows, updates of changed data, and insertions of new ids. */
  predicate Needed(st: Statement, existing: seq<Stored>, desired: seq<Row>) {
    match st
    case DeleteAll => false
    case Delete(id) => HasId(existing, id) && id !in WantedIds(desired)
    case Update(id, data) => Row(id, data) in desired && exists x :: x in existing && x.id == id && x.data != data
    case Insert(id, data) => Row(id, data) in desired && !HasId(existing, id)
  }

  class Table {
    var rows: seq<Stored>          // in rowid order
    var journal: seq<Statement>    // every statement executed so far

    predicate Valid()
      reads this
    {
      IncreasingRowids(rows) && DistinctIds(rows)
    }

    constructor ()
      ensures Valid() && rows == [] && journal == []
    {
      rows, journal := [], [];
    }

    /** The source's readRows. */
    function ReadRows(): seq<string>
      reads this
    {
      Datas(rows)
    }

    method DeleteAllRows()
      modifies this
      ensures Valid() && rows == [] && journal == old(journal) + [DeleteAll]
    {
      rows, journal := [], journal + [DeleteAll];
    }

    method DeleteRow(id: string)
      requires Valid()
      modifies this
      ensures Valid() && rows == Without(old(rows), {id}) && journal == old(journal) + [Delete(id)]
    {
      WithoutKeepsOrder(rows, {id});
      rows, journal := Without(rows, {id}), journal + [Delete(id)];
    }

    method UpdateRow(id: string, data: string)
      requires Valid()
      modifies this
      ensures Valid() && |rows| == |old(rows)| && journal == old(journal) + [Update(id, data)]
      ensures forall k :: 0 <= k < |rows| ==>
                rows[k] == if old(rows)[k].id == id then old(rows)[k].(data := data) else old(rows)[k]
    {
      var was := rows;
      rows := seq(|was|, k requires 0 <= k < |was| => if was[k].id == id then was[k].(data := data) else was[k]);
      journal := journal + [Update(id, data)];
    }

    /** A violated primary key is the source's UNIQUE exception: nothing is inserted. */
    method InsertRow(id: string, data: string) returns (ok: bool)
      requires Valid()
      modifies this
      ensures Valid() && journal == old(journal) + [Insert(id, data)]
      ensures ok <==> !HasId(old(rows), id)
      ensures rows == if ok then old(rows) + [Stored(NextRowid(old(rows)), id, data)] else old(rows)
    {
      journal := journal + [Insert(id, data)];
      ok := !HasId(rows, id);
      if ok {
        rows := rows + [Stored(NextRowid(rows), id, data)];
      }
    }

    /** The source's writeCollectionToDb. `generated` holds the random ids of rows without one; `ok` is
        false when an insertion throws. */
    method WriteCollection(desired: seq<Row>, generated: seq<string>) returns (ok: bool)
      requires |generated| == |desired|
      modifies this
      ensures Valid()
      ensures ok <==> Distinct(FinalIds(desired, generated))
      ensures ok ==> Ids(rows) == FinalIds(desired, generated) && ReadRows() == WantedDatas(desired)
    {
      hide Ids, Datas, FinalIds, WantedDatas;
      DeleteAllRows();
      ghost var ids := FinalIds(desired, generated);
      var index := 0;
      while index < |desired|
        invariant 0 <= index == |rows| <= |desired| && Valid()
        invariant forall q :: 0 <= q < index ==> rows[q].id == ids[q] && rows[q].data == desired[q].data
      {
        var id := if desired[index].id != "" then desired[index].id else generated[index];
        ok := InsertRow(id, desired[index].data);
        if !ok {
          ghost var k :| 0 <= k < index && rows[k].id == id;
          assert ids[k] == ids[index];
          return;
        }
        index := index + 1;
      }
      ok := true;
    }

    /** The source's writeCollectionChangesToDb: the same outcome as WriteCollection for every list of
        rows, and when the rows can be edited in place no statement that is not needed. */
    method WriteChanges(desired: seq<Row>, generated: seq<string>) returns (ok: bool)
      requires Valid() && |generated| == |desired|
      modifies this
      ensures Valid()
      ensures ok <==> Distinct(FinalIds(desired, generated))
      ensures ok ==> Ids(rows) == FinalIds(desired, generated) && ReadRows() == WantedDatas(desired)
      ensures "" !in WantedIds(desired) && Distinct(WantedIds(desired))
              && EditsInPlace(Ids(old(rows)), WantedIds(desired)) ==>
                |old(journal)| <= |journal| && journal[..|old(journal)|] == old(journal)
                && forall k :: |old(journal)| <= k < |journal| ==> Needed(journal[k], old(rows), desired)
    {
      var desiredIds := WantedIds(desired);
      if "" in desiredIds || !Distinct(desiredIds) {
        ok := WriteCollection(desired, generated);
        return;
      }
      assert FinalIds(desired, generated) == desiredIds;
      var existing := rows;
      if !EditsInPlace(Ids(existing), desiredIds) {
        ok := WriteCollection(desired, generated);
        return;
      }
      DeleteUnwanted(desired);
      UpdateAndAppend(existing, desired);
      ok := true;
    }

    /** The deleting loop of the in-place path. */
    method DeleteUnwanted(desired: seq<Row>)
      requires Valid()
      modifies this
      ensures Valid() && rows == Without(old(rows), Elems(Ids(old(rows))) - Elems(WantedIds(desired)))
      ensures |old(journal)| <= |journal| && journal[..|old(journal)|] == old(journal)
      ensures forall k :: |old(journal)| <= k < |journal| ==> Needed(journal[k], old(rows), desired)
    {
      hide Without;
      var existing := rows;
      var wanted := Elems(WantedIds(desired));
      ghost var deleted: set<string> := {};
      WithoutNothing(existing);
      var k := 0;
      while k < |existing|
        invariant 0 <= k <= |existing| && Valid()
        invariant deleted == set i | 0 <= i < k && existing[i].id !in wanted :: existing[i].id
        invariant rows == Without(existing, deleted)
        invariant |old(journal)| <= |journal| && journal[..|old(journal)|] == old(journal)
        invariant forall q :: |old(journal)| <= q < |journal| ==> Needed(journal[q], existing, desired)
      {
        var id := existing[k].id;
        if id !in wanted {
          WithoutTwice(existing, deleted, id);
          DeleteRow(id);
          deleted := deleted + {id};
        }
        k := k + 1;
      }
      assert deleted == Elems(Ids(existing)) - wanted;
    }

    /** The updating and appending loop of the in-place path. */
    method UpdateAndAppend(existing: seq<Stored>, desired: seq<Row>)
      requires Valid() && DistinctIds(existing) && Distinct(WantedIds(desired))
      requires rows == Without(existing, Elems(Ids(existing)) - Elems(WantedIds(desired)))
      requires EditsInPlace(Ids(existing), WantedIds(desired))
      modifies this
      ensures Valid()
      ensures Ids(rows) == WantedIds(desired) && Datas(rows) == WantedDatas(desired)
      ensures |old(journal)| <= |journal| && journal[..|old(journal)|] == old(journal)
      ensures forall k :: |old(journal)| <= k < |journal| ==> Needed(journal[k], existing, desired)
    {
      hide Without, EditsInPlace, Needed, Ids, Datas, WantedIds, WantedDatas;
      ghost var kept := rows;
      ghost var p := |kept|;
      KeptIsPrefix(existing, desired);
      var k := 0;
      while k < |desired|
        invariant 0 <= k <= |desired| && Valid()
        invariant |rows| == (if k < p then p else k)
        invariant forall q :: 0 <= q < |rows| ==> rows[q].id == desired[q].id
        invariant forall q :: 0 <= q < k ==> rows[q].data == desired[q].data
        invariant forall q :: k <= q < p ==> rows[q] == kept[q]
        invariant |old(journal)| <= |journal| && journal[..|old(journal)|] == old(journal)
        invariant forall q :: |old(journal)| <= q < |journal| ==> Needed(journal[q], existing, desired)
      {
        var want := desired[k];
        ghost var was := rows;
        OtherWantedIds(desired, k);
        var found := Lookup(existing, want.id);
        StatementNeeded(existing, desired, k, found);
        if found == -1 {
          assert k >= p;
          var inserted := InsertRow(want.id, want.data);
          assert forall q :: 0 <= q < k ==> rows[q] == was[q];
        } else {
          assert k < p;
          SameIdSameRow(existing, kept[k], existing[found]);
          if existing[found].data != want.data {
            UpdateRow(want.id, want.data);
          }
        }
        k := k + 1;
      }
    }
  }

  lemma OtherWantedIds(desired: seq<Row>, k: nat)
    requires k < |desired| && Distinct(WantedIds(desired))
    ensures forall q :: 0 <= q < |desired| && q != k ==> desired[q].id != desired[k].id
  {
    forall q | 0 <= q < |desired| && q != k ensures desired[q].id != desired[k].id {
      assert WantedIds(desired)[q] != WantedIds(desired)[k];
    }
  }

  lemma StatementNeeded(existing: seq<Stored>, desired: seq<Row>, k: nat, found: int)
    requires k < |desired| && -1 <= found < |existing|
    requires found == -1 ==> !HasId(existing, desired[k].id)
    requires found >= 0 ==> existing[found].id == desired[k].id
    ensures found == -1 ==> Needed(Insert(desired[k].id, desired[k].data), existing, desired)
    ensures found >= 0 && existing[found].data != desired[k].data ==>
              Needed(Update(desired[k].id, desired[k].data), existing, desired)
  {
    assert Row(desired[k].id, desired[k].data) == desired[k];
  }

  /** The lookup in the source's existingById map. */
  function Lookup(rows: seq<Stored>, id: string): (k: int)
    ensures -1 <= k < |rows|
    ensures k >= 0 ==> rows[k].id == id
    ensures k == -1 <==> !HasId(rows, id)
  {
    if rows == [] then -1
    else if rows[|rows| - 1].id == id then |rows| - 1
    else Lookup(rows[..|rows| - 1], id)
  }

  lemma SameIdSameRow(rows: seq<Stored>, x: Stored, y: Stored)
    requires DistinctIds(rows) && x in rows && y in rows && x.id == y.id
    ensures x == y
  {
  }

  /** On the in-place path the rows that stay are the first desired rows, and none of the others is stored. */
  lemma KeptIsPrefix(existing: seq<Stored>, desired: seq<Row>)
    requires EditsInPlace(Ids(existing), WantedIds(desired))
    ensures var ids := WantedIds(desired);
            var kept := Without(existing, Elems(Ids(existing)) - Elems(ids));
            && |kept| <= |desired|
            && (forall k :: 0 <= k < |kept| ==> kept[k].id == desired[k].id && kept[k] in existing)
            && (forall k :: |kept| <= k < |desired| ==> !HasId(existing, desired[k].id))
  {
    hide Without, Keep, Drop, LastIn;
    var ids := WantedIds(desired);
    var t := Elems(Ids(existing));
    var n := LastIn(ids, t) + 1;
    var kept := Without(existing, t - Elems(ids));
    assert forall k :: 0 <= k < |existing| ==> Ids(existing)[k] == existing[k].id;
    IdsOfWithout(existing, t - Elems(ids), Elems(ids));
    WithoutMembers(existing, t - Elems(ids));
    KeepDropSplit(ids, t, n);
    assert Ids(kept) == ids[..n];
    forall k | n <= k < |desired| ensures !HasId(existing, desired[k].id) {
      assert ids[k] == desired[k].id && ids[k] !in t;
    }
    assert forall k :: 0 <= k < n ==> ids[k] == desired[k].id && ids[..n][k] == ids[k];
    assert forall k :: 0 <= k < |kept| ==> Ids(kept)[k] == kept[k].id;
  }

  predicate AllDistinct(desired: seq<seq<Row>>, generated: seq<seq<string>>)
    requires |generated| == |desired| && forall k :: 0 <= k < |desired| ==> |generated[k]| == |desired[k]|
  {
    forall k :: 0 <= k < |desired| ==> Distinct(FinalIds(desired[k], generated[k]))
  }

  /** The source's mutateStoreCollections after its callback has run: every named collection is written, and one
      refused row undoes all of them. */
  method Save(tables: seq<Table>, desired: seq<seq<Row>>, generated: seq<seq<string>>) returns (ok: bool)
    requires |tables| == |desired| == |generated|
    requires forall k :: 0 <= k < |tables| ==> tables[k].Valid() && |generated[k]| == |desired[k]|
    requires forall i, j :: 0 <= i < j < |tables| ==> tables[i] != tables[j]
    modifies tables
    ensures forall k :: 0 <= k < |tables| ==> tables[k].Valid()
    ensures ok <==> AllDistinct(desired, generated)
    ensures ok ==> forall k :: 0 <= k < |tables| ==> tables[k].ReadRows() == WantedDatas(desired[k])
    ensures !ok ==> forall k :: 0 <= k < |tables| ==> tables[k].rows == old(tables[k].rows)
  {
    hide FinalIds, Distinct, WantedDatas, IncreasingRowids, DistinctIds;
    var saved := Snapshot(tables);
    var n := 0;
    while n < |tables|
      invariant 0 <= n <= |tables|
      invariant forall k :: 0 <= k < |tables| ==> tables[k].Valid()
      invariant forall k :: 0 <= k < n ==>
                  tables[k].ReadRows() == WantedDatas(desired[k]) && Distinct(FinalIds(desired[k], generated[k]))
    {
      ok := tables[n].WriteChanges(desired[n], generated[n]);
      if !ok {
        RollBack(tables, saved);
        return false;
      }
      n := n + 1;
    }
    ok := true;
  }

  method Snapshot(tables: seq<Table>) returns (saved: seq<seq<Stored>>)
    ensures |saved| == |tables| && forall k :: 0 <= k < |tables| ==> saved[k] == tables[k].rows
  {
    saved := [];
    for k := 0 to |tables|
      invariant |saved| == k && forall i :: 0 <= i < k ==> saved[i] == tables[i].rows
    {
      saved := saved + [tables[k].rows];
    }
  }

  method RollBack(tables: seq<Table>, saved: seq<seq<Stored>>)
    requires |saved| == |tables| && forall i, j :: 0 <= i < j < |tables| ==> tables[i] != tables[j]
    modifies tables
    ensures forall k :: 0 <= k < |tables| ==> tables[k].rows == saved[k]
  {
    for k := 0 to |tables|
      invariant forall i :: 0 <= i < k ==> tables[i].rows == saved[i]
    {
      tables[k].rows := saved[k];
    }
  }
}
