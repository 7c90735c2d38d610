/**
 * Tables held in primary-key order, as SQLite keeps a table whose primary key is an
 * INTEGER (the rowid B-tree), and the keyed insertion that keeps them so.
 */
module Keyed {

  ghost predicate Increasing<T>(rows: seq<T>, key: T -> int) {
    forall i, j :: 0 <= i < j < |rows| ==> key(rows[i]) < key(rows[j])
  }

  /** Inserts `x` at the one position that keeps the keys ascending; scans from the end, where new keys usually go. */
  method InsertByKey<T>(rows: seq<T>, key: T -> int, x: T) returns (r: seq<T>, p: nat)
    requires Increasing(rows, key)
    requires forall k :: 0 <= k < |rows| ==> key(rows[k]) != key(x)
    ensures p <= |rows| && r == rows[..p] + [x] + rows[p..]
    ensures forall k :: 0 <= k < p ==> key(rows[k]) < key(x)
    ensures forall k :: p <= k < |rows| ==> key(x) < key(rows[k])
    ensures Increasing(r, key)
    ensures (forall k :: 0 <= k < |rows| ==> key(rows[k]) < key(x)) ==> p == |rows|
  {
    p := |rows|;
    while p > 0 && key(x) < key(rows[p - 1])
      invariant 0 <= p <= |rows|
      invariant forall k :: p <= k < |rows| ==> key(x) < key(rows[k])
    {
      p := p - 1;
    }
    r := rows[..p] + [x] + rows[p..];
    forall i, j | 0 <= i < j < |r| ensures key(r[i]) < key(r[j]) {
      if j < p {
        assert r[i] == rows[i] && r[j] == rows[j];
      } else if i > p {
        assert r[i] == rows[i - 1] && r[j] == rows[j - 1];
      } else if i == p {
        assert r[j] == rows[j - 1];
      } else if j == p {
        assert r[i] == rows[i];
      } else {
        assert r[i] == rows[i] && r[j] == rows[j - 1];
      }
    }
  }
}
