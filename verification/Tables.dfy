/** Two-dimensional tables of values. */
module Tables {

  /** Replaces one entry of a table. */
  function Set<T>(table: seq<seq<T>>, i: nat, j: nat, x: T): (r: seq<seq<T>>)
    requires i < |table| && j < |table[i]|
    ensures |r| == |table| && forall k :: 0 <= k < |r| ==> |r[k]| == |table[k]|
    ensures forall k, l :: 0 <= k < |r| && 0 <= l < |r[k]| ==> r[k][l] == if k == i && l == j then x else table[k][l]
  {
    table[i := table[i][j := x]]
  }

  lemma SetSame<T>(table: seq<seq<T>>, i: nat, j: nat)
    requires i < |table| && j < |table[i]|
    ensures Set(table, i, j, table[i][j]) == table
  {
    assert table[i][j := table[i][j]] == table[i];
  }
}
