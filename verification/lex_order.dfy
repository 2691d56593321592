/**
 The ordering the dashboard sorts its time buckets by. The source sorts bucket
 tuples with a key of integers, `(int(year), int(month))` for months and
 `int(year)` for years; Python compares such keys lexicographically. Keys are
 modelled as sequences of integers so that both shapes share one order.
 */
module LexOrder {

  /** Strict lexicographic order on integer keys: a proper prefix comes first. */
  predicate LexLess(a: seq<int>, b: seq<int>)
  {
    if |a| == 0 then |b| > 0
    else if |b| == 0 then false
    else a[0] < b[0] || (a[0] == b[0] && LexLess(a[1..], b[1..]))
  }

  lemma {:induction false} LexIrreflexive(a: seq<int>)
    ensures !LexLess(a, a)
  {
    if |a| > 0 {
      LexIrreflexive(a[1..]);
    }
  }

  lemma {:induction false} LexTransitive(a: seq<int>, b: seq<int>, c: seq<int>)
    requires LexLess(a, b) && LexLess(b, c)
    ensures LexLess(a, c)
  {
    if |a| > 0 && |b| > 0 && |c| > 0 && a[0] == b[0] == c[0] {
      LexTransitive(a[1..], b[1..], c[1..]);
    }
  }

  /** Any two different keys are ordered one way or the other. */
  lemma {:induction false} LexTotal(a: seq<int>, b: seq<int>)
    requires a != b
    ensures LexLess(a, b) || LexLess(b, a)
  {
    if |a| > 0 && |b| > 0 && a[0] == b[0] {
      assert a == [a[0]] + a[1..] && b == [b[0]] + b[1..];
      LexTotal(a[1..], b[1..]);
    }
  }

  lemma {:induction false} LexAsymmetric(a: seq<int>, b: seq<int>)
    requires LexLess(a, b)
    ensures !LexLess(b, a)
  {
    if LexLess(b, a) {
      LexTransitive(a, b, a);
      LexIrreflexive(a);
    }
  }

  /** On two-field keys the order is "first field, then second field". */
  lemma LexPair(x1: int, y1: int, x2: int, y2: int)
    ensures LexLess([x1, y1], [x2, y2]) <==> x1 < x2 || (x1 == x2 && y1 < y2)
  {
    assert [x1, y1][1..] == [y1] && [x2, y2][1..] == [y2];
    LexSingle(y1, y2);
  }

  /** On one-field keys the order is the order of the integers. */
  lemma LexSingle(x1: int, x2: int)
    ensures LexLess([x1], [x2]) <==> x1 < x2
  {
    assert [x1][1..] == [] && [x2][1..] == [];
  }
}
