/**
 * A database table held in memory: rows in storage order, each with a primary
 * key `id` and its other columns `cols`. The operations are the ones the
 * order service issues through its database client: select with equality
 * filters, insert, update by id and delete by id.
 */
module Table {
  import opened Wrappers

  type Id = nat

  datatype Row<T> = Row(id: Id, cols: T)

  type Table<T> = seq<Row<T>>

  function Ids<T(==)>(t: Table<T>): set<Id> {
    set r | r in t :: r.id
  }

  /** The primary-key constraint: no two rows share an id. */
  predicate IdsUnique<T>(t: Table<T>) {
    forall i, j :: 0 <= i < j < |t| ==> t[i].id != t[j].id
  }

  /** The columns of the row with primary key `id`, if any. */
  function Lookup<T(==)>(t: Table<T>, id: Id): (r: Option<T>)
    ensures r.Some? <==> id in Ids(t)
    ensures r.Some? ==> Row(id, r.value) in t
  {
    if t == [] then None
    else if t[0].id == id then Some(t[0].cols)
    else
      assert Ids(t) == {t[0].id} + Ids(t[1..]);
      Lookup(t[1..], id)
  }

  /** Under the primary-key constraint, a row of the table is what `Lookup` finds for its id. */
  lemma {:induction false} LookupRow<T>(t: Table<T>, i: nat)
    requires IdsUnique(t) && i < |t|
    ensures Lookup(t, t[i].id) == Some(t[i].cols)
  {
    if i > 0 {
      LookupRow(t[1..], i - 1);
    }
  }

  /** `update(f).eq('id', id)`: every row with that id gets its columns rewritten by `f`. */
  function Update<T(==)>(t: Table<T>, id: Id, f: T -> T): (r: Table<T>)
    ensures |r| == |t|
    ensures forall i :: 0 <= i < |t| && t[i].id != id ==> r[i] == t[i]
    ensures forall i :: 0 <= i < |t| && t[i].id == id ==> r[i] == Row(id, f(t[i].cols))
  {
    if t == [] then []
    else
      var head := if t[0].id == id then Row(id, f(t[0].cols)) else t[0];
      [head] + Update(t[1..], id, f)
  }

  /** An update keeps every id; the row with that id is rewritten by `f` and every other id finds what it found before. */
  lemma {:induction false} UpdateLookup<T>(t: Table<T>, id: Id, f: T -> T)
    ensures Ids(Update(t, id, f)) == Ids(t)
    ensures Lookup(Update(t, id, f), id) == (match Lookup(t, id) case Some(c) => Some(f(c)) case None => None)
    ensures forall other :: other != id ==> Lookup(Update(t, id, f), other) == Lookup(t, other)
  {
    if t != [] {
      var r := Update(t, id, f);
      UpdateLookup(t[1..], id, f);
      assert r[1..] == Update(t[1..], id, f);
      assert Ids(t) == {t[0].id} + Ids(t[1..]);
      assert Ids(r) == {r[0].id} + Ids(r[1..]);
    }
  }

  /** An update keeps the primary-key constraint, as it never changes an id. */
  lemma {:induction false} UpdateKeepsIdsUnique<T>(t: Table<T>, id: Id, f: T -> T)
    ensures IdsUnique(t) ==> IdsUnique(Update(t, id, f))
  {
  }

  /** `delete().eq('id', id)`: every row with that id goes, the rest keep their order. */
  function Delete<T(==,!new)>(t: Table<T>, id: Id): (r: Table<T>)
    ensures forall row :: row in r <==> row in t && row.id != id
    ensures IdsUnique(t) ==> IdsUnique(r)
  {
    if t == [] then []
    else
      var rest := Delete(t[1..], id);
      if t[0].id == id then rest
      else
        assert forall j :: 0 <= j < |rest| ==> rest[j] in t[1..];
        [t[0]] + rest
  }

  /** After a delete the id is gone and every other id finds what it found before. */
  lemma {:induction false} DeleteLookup<T(!new)>(t: Table<T>, id: Id)
    ensures Ids(Delete(t, id)) == Ids(t) - {id}
    ensures Lookup(Delete(t, id), id) == None
    ensures forall other :: other != id ==> Lookup(Delete(t, id), other) == Lookup(t, other)
  {
    var r := Delete(t, id);
    forall x | x in Ids(t) - {id} ensures x in Ids(r) {
      var row :| row in t && row.id == x;
      assert row in r;
    }
    if t != [] {
      DeleteLookup(t[1..], id);
    }
  }

  /** With unique ids, the first row's id appears nowhere after it. */
  lemma {:induction false} HeadIdNotInTail<T>(t: Table<T>)
    requires IdsUnique(t) && t != []
    ensures t[0].id !in Ids(t[1..])
  {
  }

  /** `insert(rows)`: the new rows go after the existing ones. */
  lemma {:induction false} IdsOfAppend<T>(t: Table<T>, rows: Table<T>)
    ensures Ids(t + rows) == Ids(t) + Ids(rows)
    ensures IdsUnique(t) && IdsUnique(rows) && Ids(t) !! Ids(rows) ==> IdsUnique(t + rows)
  {
    var u := t + rows;
    forall id | id in Ids(u) ensures id in Ids(t) + Ids(rows) {
      var r :| r in u && r.id == id;
    }
    if IdsUnique(t) && IdsUnique(rows) && Ids(t) !! Ids(rows) {
      forall i, j | 0 <= i < j < |u| ensures u[i].id != u[j].id {
        if j < |t| {
          assert u[i] == t[i] && u[j] == t[j];
        } else if i < |t| {
          assert u[i] == t[i] && u[j] == rows[j - |t|];
          assert u[i].id in Ids(t) && u[j].id in Ids(rows);
        } else {
          assert u[i] == rows[i - |t|] && u[j] == rows[j - |t|];
        }
      }
    }
  }

  /** Every id of the table lies below `n`, so `n` and everything above it are unused keys. */
  predicate IdsBelow<T(==)>(t: Table<T>, n: int) {
    forall id :: id in Ids(t) ==> id < n
  }

  /** Rows with ids from `[lo, hi)` appended to a table whose ids are below `lo`. */
  lemma {:induction false} AppendFresh<T>(t: Table<T>, rows: Table<T>, lo: Id, hi: Id)
    requires IdsUnique(t) && IdsUnique(rows) && lo <= hi
    requires IdsBelow(t, lo)
    requires forall id :: id in Ids(rows) ==> lo <= id < hi
    ensures IdsUnique(t + rows)
    ensures IdsBelow(t + rows, hi)
  {
    IdsOfAppend(t, rows);
    assert Ids(t) !! Ids(rows) by {
      forall id | id in Ids(t) ensures id !in Ids(rows) {
        assert id < lo;
      }
    }
  }

  /** `select()` with `.eq(...)`/`.in(...)` filters: the rows satisfying `p`, in storage order. */
  function Select<T(==,!new)>(t: Table<T>, p: Row<T> -> bool): (r: Table<T>)
    ensures forall row :: row in r <==> row in t && p(row)
    ensures |r| <= |t|
    ensures Ids(r) <= Ids(t)
    ensures IdsUnique(t) ==> IdsUnique(r)
  {
    if t == [] then []
    else
      var rest := Select(t[1..], p);
      assert Ids(t) == {t[0].id} + Ids(t[1..]);
      if p(t[0]) then
        assert IdsUnique(t) ==> IdsUnique([t[0]] + rest) by {
          if IdsUnique(t) {
            HeadIdNotInTail(t);
            assert forall j :: 0 <= j < |rest| ==> rest[j].id in Ids(rest);
          }
        }
        assert Ids([t[0]] + rest) == {t[0].id} + Ids(rest);
        [t[0]] + rest
      else rest
  }
}
