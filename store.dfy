/**
 * The relational store, reduced to what the handlers rely on. A table maps
 * primary keys to records; keys are auto-incremented from 1, so key 0 is
 * never taken and a lookup that finds nothing yields key 0 with the zero
 * record, exactly as loading into a zero-valued Go struct does. Queries,
 * preloading, pattern lookups and association handling are not modelled:
 * a lookup is an input that names an existing key or 0.
 */
module Store {
  import opened Wrappers
  import GoStd

  /** The key a path parameter selects: its base-10 value, or 0 (no row) when it is not a number. */
  function KeyOf(param: string): (key: nat)
    ensures key <= GoStd.MaxUint64
    ensures key != 0 ==> GoStd.ParseUint(param, 10) == GoStd.Parsed(key, None)
  {
    var p := GoStd.ParseUint(param, 10);
    if p.err.None? then p.value else 0
  }

  /** Every key written in decimal selects itself. */
  lemma KeyOfDecimal(n: nat)
    requires n <= GoStd.MaxUint64
    ensures KeyOf(GoStd.NatToDecimal(n)) == n
  {
    GoStd.ParseUintDecimal(n, 10);
  }

  class Table<R> {
    var rows: map<nat, R>
    var nextId: nat

    ghost predicate Valid()
      reads this
    {
      0 < nextId && forall k :: k in rows ==> 0 < k < nextId
    }

    constructor ()
      ensures Valid() && rows == map[] && nextId == 1
    {
      rows := map[];
      nextId := 1;
    }

    /** The key and record that loading `key` into a zero-valued struct leaves: (0, zero) when there is no such row. */
    function Load(key: nat, zero: R): (loaded: (nat, R))
      reads this
      requires Valid()
      ensures loaded.0 == 0 || loaded.0 in rows
      ensures key in rows ==> loaded == (key, rows[key])
      ensures key !in rows ==> loaded == (0, zero)
    {
      if key in rows then (key, rows[key]) else (0, zero)
    }

    /**
     * Save: a record with key 0 is inserted under a fresh key; any other key
     * is written, updating the row or inserting it under that key.
     */
    method Save(key: nat, r: R) returns (id: nat)
      requires Valid()
      modifies this
      ensures Valid()
      ensures key != 0 ==> id == key
      ensures key == 0 ==> id == old(nextId) && id !in old(rows) && nextId == old(nextId) + 1
      ensures rows == old(rows)[id := r]
      ensures key in old(rows) ==> nextId == old(nextId)
    {
      if key == 0 {
        id := nextId;
        nextId := nextId + 1;
      } else {
        id := key;
        if key >= nextId {
          nextId := key + 1;
        }
      }
      rows := rows[id := r];
    }

    /**
     * Create: key 0 inserts under a fresh key; a key already taken breaks
     * the primary-key constraint and nothing is written.
     */
    method Create(key: nat, r: R) returns (id: nat, ok: bool)
      requires Valid()
      modifies this
      ensures Valid()
      ensures ok <==> key !in old(rows)
      ensures key != 0 ==> id == key
      ensures key == 0 ==> id == old(nextId) && id !in old(rows) && nextId == old(nextId) + 1
      ensures ok ==> rows == old(rows)[id := r]
      ensures !ok ==> rows == old(rows) && nextId == old(nextId)
    {
      if key != 0 && key in rows {
        id, ok := key, false;
      } else {
        id := Save(key, r);
        ok := true;
      }
    }
  }
}
