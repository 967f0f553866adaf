/**
 * A SQLite table with an integer primary key, kept in key order as its b-tree is. INSERT fails on
 * a key that is already there; SELECT ... ORDER BY seq ASC reads the rows in key order.
 */
module SqlTable {
  import opened Prelude

  datatype Row<+T> = Row(seqNo: int, value: T)

  type Table<+T> = seq<Row<T>>

  function Insert<T>(t: Table<T>, seqNo: int, value: T): Option<Table<T>> {
    if t == [] || t[|t| - 1].seqNo < seqNo then Some(t + [Row(seqNo, value)])
    else if t[|t| - 1].seqNo == seqNo then None
    else match Insert(t[..|t| - 1], seqNo, value)
      case None => None
      case Some(front) => Some(front + [t[|t| - 1]])
  }

  function Rows<T>(t: Table<T>): (r: seq<T>)
    ensures |r| == |t|
  {
    seq(|t|, i requires 0 <= i < |t| => t[i].value)
  }

  /** The table holds exactly the keys 0..n-1. */
  ghost predicate Dense<T>(t: Table<T>, n: int) {
    |t| == n && forall i :: 0 <= i < |t| ==> t[i].seqNo == i
  }

  lemma InsertAppends<T>(t: Table<T>, n: nat, value: T)
    requires Dense(t, n)
    ensures Insert(t, n, value) == Some(t + [Row(n, value)])
    ensures Dense(t + [Row(n, value)], n + 1)
    ensures Rows(t + [Row(n, value)]) == Rows(t) + [value]
  {
  }
}
