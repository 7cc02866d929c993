/**
  A database table: rows by primary key, and the auto-increment counter
  the next insert takes its key from (keys are never reused).
*/
module Tables {

  class Table<T> {
    var rows: map<int, T>
    var nextPk: int

    /** Every stored key was handed out by the counter. */
    ghost predicate Valid()
      reads this
    {
      nextPk >= 1 && forall k :: k in rows ==> 1 <= k < nextPk
    }

    constructor()
      ensures Valid() && rows == map[] && nextPk == 1
    {
      rows := map[];
      nextPk := 1;
    }

    /** `Model.save()` on a new row: the row gets the next key. */
    method Insert(row: T) returns (pk: int)
      requires Valid()
      modifies this
      ensures Valid()
      ensures pk == old(nextPk) && pk !in old(rows)
      ensures rows == old(rows)[pk := row] && nextPk == old(nextPk) + 1
    {
      pk := nextPk;
      rows := rows[pk := row];
      nextPk := nextPk + 1;
    }

    /** `Model.save()` on a stored row. */
    method Update(pk: int, row: T)
      requires Valid() && pk in rows
      modifies this
      ensures Valid()
      ensures rows == old(rows)[pk := row] && nextPk == old(nextPk)
    {
      rows := rows[pk := row];
    }

    /** `Model.delete()`. */
    method Remove(pk: int)
      requires Valid()
      modifies this
      ensures Valid()
      ensures rows == old(rows) - {pk} && nextPk == old(nextPk)
    {
      rows := rows - {pk};
    }

    /** A bulk change of every row (an `ON DELETE SET NULL` or `CASCADE` pass). */
    method Replace(newRows: map<int, T>)
      requires Valid() && newRows.Keys <= rows.Keys
      modifies this
      ensures Valid()
      ensures rows == newRows && nextPk == old(nextPk)
    {
      rows := newRows;
    }
  }

  /** The rows whose key is not in `gone`. */
  function Without<T>(rows: map<int, T>, gone: set<int>): (r: map<int, T>)
    ensures r.Keys == rows.Keys - gone
    ensures forall k :: k in r ==> r[k] == rows[k]
  {
    map k | k in rows && k !in gone :: rows[k]
  }

  /** The keys of the rows that satisfy `p`. */
  function KeysWhere<T>(rows: map<int, T>, p: T -> bool): (ks: set<int>)
    ensures forall k :: k in ks <==> k in rows && p(rows[k])
  {
    set k | k in rows && p(rows[k])
  }

  /** Every row passed through `f`. */
  function MapRows<T>(rows: map<int, T>, f: T -> T): (r: map<int, T>)
    ensures r.Keys == rows.Keys
    ensures forall k :: k in r ==> r[k] == f(rows[k])
  {
    map k | k in rows :: f(rows[k])
  }
}
