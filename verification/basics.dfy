/** The optional value used wherever the source has `None`/`null` or a call that may fail. */
module Basics {

  datatype Option<T> = None | Some(value: T)

  function Min(a: int, b: int): (m: int)
    ensures m <= a && m <= b
    ensures m == a || m == b
  {
    if a <= b then a else b
  }

  /** Extending a prefix by one element. */
  lemma PrefixSnoc<T>(s: seq<T>, i: nat)
    requires i < |s|
    ensures s[..i + 1] == s[..i] + [s[i]]
  {
  }

  /** One more row of width `b`. */
  lemma MulSucc(a: int, b: int)
    ensures (a + 1) * b == a * b + b
  {
  }

  /** Entry `j` of row `i` of a table with `m` rows of width `b` lies inside the table. */
  lemma {:induction false} RowIndex(i: nat, j: nat, m: nat, b: nat)
    requires i < m && j < b
    ensures i * b + j < m * b
  {
    MulSucc(m - 1, b);
    if i < m - 1 {
      RowIndex(i, j, m - 1, b);
    }
  }

  lemma AppendLeft<T>(a: seq<T>, b: seq<T>, k: nat)
    requires k < |a|
    ensures (a + b)[k] == a[k]
  {
  }

  lemma AppendRight<T>(a: seq<T>, b: seq<T>, j: nat)
    requires j < |b|
    ensures (a + b)[|a| + j] == b[j]
  {
  }

  /** Regrouping a concatenation. */
  lemma AppendAssoc<T>(p: seq<T>, a: seq<T>, b: seq<T>, c: seq<T>)
    ensures p + (a + b + c) == p + a + b + c
  {
  }

  /** The rows laid end to end. */
  function Concat<T>(rows: seq<seq<T>>): seq<T> {
    if rows == [] then [] else Concat(rows[..|rows| - 1]) + rows[|rows| - 1]
  }

  /** Where row `i` starts when every row is `b` wide: `i * b`, as a sum. */
  function Offset(i: nat, b: nat): nat {
    if i == 0 then 0 else Offset(i - 1, b) + b
  }

  lemma {:induction false} OffsetIsProduct(i: nat, b: nat)
    ensures Offset(i, b) == i * b
  {
    if i > 0 {
      OffsetIsProduct(i - 1, b);
      MulSucc(i - 1, b);
    }
  }

  predicate Uniform<T>(rows: seq<seq<T>>, b: nat) {
    forall i :: 0 <= i < |rows| ==> |rows[i]| == b
  }

  /** Entry `j` of row `i` sits at `Offset(i, b) + j` of the concatenation. */
  lemma {:induction false} ConcatAt<T>(rows: seq<seq<T>>, b: nat, i: nat, j: nat)
    requires Uniform(rows, b) && i < |rows| && j < b
    ensures |Concat(rows)| == Offset(|rows|, b)
    ensures Offset(i, b) + j < |Concat(rows)| && Concat(rows)[Offset(i, b) + j] == rows[i][j]
  {
    var n := |rows|;
    var prev := rows[..n - 1];
    assert Uniform(prev, b);
    if i < n - 1 {
      ConcatAt(prev, b, i, j);
      AppendLeft(Concat(prev), rows[n - 1], Offset(i, b) + j);
    } else {
      if n - 1 > 0 {
        ConcatAt(prev, b, 0, 0);
      }
      AppendRight(Concat(prev), rows[n - 1], j);
    }
  }
}
