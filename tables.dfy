/**
 * A table whose key is an SQLite INTEGER PRIMARY KEY, held as its rows in
 * storage order, and the effect of the statements the data layer issues on
 * it: key lookup, DELETE ... WHERE id = ?, and the rowid a plain INSERT gets.
 */
module Tables {
  import opened Wrappers

  datatype Row<T> = Row(id: int, cols: T)

  /** Rows are stored in rowid order, so keys are unique and ascending. */
  predicate KeysIncreasing<T>(t: seq<Row<T>>) {
    forall i, j :: 0 <= i < j < |t| ==> t[i].id < t[j].id
  }

  /** The largest key of a non-empty table. */
  function MaxRowId<T>(t: seq<Row<T>>): (m: int)
    requires t != []
    ensures forall i :: 0 <= i < |t| ==> t[i].id <= m
    ensures exists i :: 0 <= i < |t| && t[i].id == m
  {
    if |t| == 1 then t[0].id
    else
      var m := MaxRowId(t[1..]);
      assert forall i :: 1 <= i < |t| ==> t[i] == t[1..][i - 1];
      if t[0].id > m then t[0].id else m
  }

  /**
   * The rowid SQLite assigns to a row inserted without one: one more than
   * the largest rowid in the table, or 1 when the table is empty.
   */
  function NextRowId<T>(t: seq<Row<T>>): (id: int)
    ensures forall i :: 0 <= i < |t| ==> t[i].id < id
    ensures t == [] ==> id == 1
    ensures t != [] ==> exists i :: 0 <= i < |t| && t[i].id == id - 1
  {
    if t == [] then 1 else MaxRowId(t) + 1
  }

  /** SELECT ... WHERE id = ?: the first row with key `id`, if any. */
  function Lookup<T>(t: seq<Row<T>>, id: int): (r: Option<Row<T>>)
    ensures r.Some? ==> r.value in t && r.value.id == id
    ensures r.None? <==> forall i :: 0 <= i < |t| ==> t[i].id != id
  {
    if t == [] then None
    else if t[0].id == id then Some(t[0])
    else
      assert forall i :: 1 <= i < |t| ==> t[i] == t[1..][i - 1];
      Lookup(t[1..], id)
  }

  /** DELETE ... WHERE id = ?: every row with key `id` goes, the others stay in order. */
  function DeleteRows<T>(t: seq<Row<T>>, id: int): (r: seq<Row<T>>)
    ensures forall x | x in r :: x in t && x.id != id
    ensures forall x | x in t && x.id != id :: x in r
    ensures |r| <= |t|
  {
    if t == [] then []
    else
      assert t == [t[0]] + t[1..];
      if t[0].id == id then DeleteRows(t[1..], id)
      else [t[0]] + DeleteRows(t[1..], id)
  }

  /** With unique keys a lookup finds the row at any index holding the key. */
  lemma LookupAt<T>(t: seq<Row<T>>, i: nat)
    requires KeysIncreasing(t) && i < |t|
    ensures Lookup(t, t[i].id) == Some(t[i])
  {
  }

  /** A lookup in a table with one more row at the end. */
  lemma {:induction false} LookupAppend<T>(t: seq<Row<T>>, x: Row<T>, id: int)
    ensures Lookup(t + [x], id) ==
            if Lookup(t, id).Some? then Lookup(t, id)
            else if x.id == id then Some(x) else None
  {
    if t != [] {
      assert (t + [x])[1..] == t[1..] + [x];
      LookupAppend(t[1..], x, id);
    }
  }

  /** The row a plain INSERT appends is found under the key it was given. */
  lemma LookupInserted<T>(t: seq<Row<T>>, c: T)
    ensures Lookup(t + [Row(NextRowId(t), c)], NextRowId(t)) == Some(Row(NextRowId(t), c))
  {
    LookupAppend(t, Row(NextRowId(t), c), NextRowId(t));
  }

  /** Appending a row under the next rowid keeps keys ascending. */
  lemma InsertKeepsIncreasing<T>(t: seq<Row<T>>, c: T)
    requires KeysIncreasing(t)
    ensures KeysIncreasing(t + [Row(NextRowId(t), c)])
  {
  }

  /** After a delete, the deleted key is gone and every other key finds what it found before. */
  lemma {:induction false} LookupAfterDelete<T>(t: seq<Row<T>>, d: int, id: int)
    ensures Lookup(DeleteRows(t, d), id) == if id == d then None else Lookup(t, id)
  {
    if t != [] {
      LookupAfterDelete(t[1..], d, id);
    }
  }

  /** Deleting a key that no row holds leaves the table as it was. */
  lemma {:induction false} DeleteAbsent<T>(t: seq<Row<T>>, id: int)
    requires Lookup(t, id).None?
    ensures DeleteRows(t, id) == t
  {
    if t != [] {
      assert t == [t[0]] + t[1..];
      DeleteAbsent(t[1..], id);
    }
  }

  /** A delete keeps the remaining rows in ascending key order. */
  lemma {:induction false} DeleteKeepsIncreasing<T>(t: seq<Row<T>>, id: int)
    requires KeysIncreasing(t)
    ensures KeysIncreasing(DeleteRows(t, id))
  {
    if t != [] && t[0].id != id {
      var rest := DeleteRows(t[1..], id);
      DeleteKeepsIncreasing(t[1..], id);
      forall x | x in rest ensures t[0].id < x.id {
        var j :| 0 <= j < |t[1..]| && t[1..][j] == x;
        assert t[j + 1] == x;
      }
      HeadThenIncreasing(t[0], rest);
    } else if t != [] {
      DeleteKeepsIncreasing(t[1..], id);
    }
  }

  /** A row below every key of an ascending table can be put in front of it. */
  lemma HeadThenIncreasing<T>(x: Row<T>, t: seq<Row<T>>)
    requires KeysIncreasing(t)
    requires forall y | y in t :: x.id < y.id
    ensures KeysIncreasing([x] + t)
  {
  }

  /**
   * DELETE on a unique key affects one row when the key is present and
   * none when it is absent.
   */
  lemma {:induction false} DeleteCount<T>(t: seq<Row<T>>, id: int)
    requires KeysIncreasing(t)
    ensures |t| - |DeleteRows(t, id)| == if Lookup(t, id).Some? then 1 else 0
  {
    if t != [] {
      if t[0].id == id {
        forall i | 0 <= i < |t[1..]| ensures t[1..][i].id != id {
          assert t[1..][i] == t[i + 1];
        }
        DeleteAbsent(t[1..], id);
      } else {
        DeleteCount(t[1..], id);
      }
    }
  }
}
