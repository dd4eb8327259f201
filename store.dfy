/** The relational storage the models are saved into, reduced to in-memory tables. */
module Store {

  /** A database table: rows keyed by an auto-incremented integer primary key. */
  class Table<R> {
    var rows: map<int, R>
    var nextId: int

    /** Every stored key is below the next key the sequence will hand out. */
    ghost predicate Valid()
      reads this
    {
      1 <= nextId && forall id :: id in rows ==> id < nextId
    }

    constructor ()
      ensures Valid() && rows == map[]
    {
      rows := map[];
      nextId := 1;
    }

    /** `INSERT` with a primary key taken from the sequence. */
    method Insert(r: R) returns (id: int)
      requires Valid()
      modifies this
      ensures Valid()
      ensures id !in old(rows) && rows == old(rows)[id := r]
    {
      id := nextId;
      rows := rows[id := r];
      nextId := nextId + 1;
    }

    /** `UPDATE` of the row with key `id`, or `INSERT` with that key when there is none. */
    method Put(id: int, r: R)
      requires Valid()
      modifies this
      ensures Valid()
      ensures rows == old(rows)[id := r]
    {
      rows := rows[id := r];
      if nextId <= id {
        nextId := id + 1;
      }
    }

    /** `DELETE` of the row with key `id`. */
    method Delete(id: int)
      requires Valid()
      modifies this
      ensures Valid()
      ensures rows == old(rows) - {id}
    {
      rows := rows - {id};
    }
  }
}
