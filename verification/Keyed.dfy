/** Python's insertion-ordered dictionaries: rows in order, each under its own key. */
module Keyed {

  /** Index of the row keyed `id`, or the length of the table. */
  function Position<R>(key: R -> string, table: seq<R>, id: string): (i: nat)
    ensures i <= |table| && (i < |table| ==> key(table[i]) == id)
    ensures forall j | 0 <= j < i :: key(table[j]) != id
  {
    if |table| == 0 then 0
    else if key(table[0]) == id then 0
    else 1 + Position(key, table[1..], id)
  }

  predicate Has<R>(key: R -> string, table: seq<R>, id: string) {
    Position(key, table, id) < |table|
  }

  /** Assignment to a key: in place when present, at the end when new. */
  function Put<R>(key: R -> string, table: seq<R>, row: R): seq<R> {
    var i := Position(key, table, key(row));
    if i < |table| then table[i := row] else table + [row]
  }

  ghost predicate DistinctKeys<R>(key: R -> string, table: seq<R>) {
    forall i, j | 0 <= i < j < |table| :: key(table[i]) != key(table[j])
  }

  lemma HasExactly<R>(key: R -> string, table: seq<R>, id: string)
    ensures Has(key, table, id) <==> exists i :: 0 <= i < |table| && key(table[i]) == id
  {
  }

  lemma PutOfNewKeyAppends<R>(key: R -> string, table: seq<R>, row: R)
    requires forall i | 0 <= i < |table| :: key(table[i]) != key(row)
    ensures Put(key, table, row) == table + [row]
  {
  }

  lemma PutKeepsKeysDistinct<R>(key: R -> string, table: seq<R>, row: R)
    requires DistinctKeys(key, table)
    ensures DistinctKeys(key, Put(key, table, row))
  {
  }
}
