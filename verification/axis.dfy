/**
 The chart's time axis: the distinct bucket prefixes of a table's column keys,
 sorted ascending by an integer sort key (`sorted(set(...), key=...)` in the
 source). The bucket shape is a type parameter; the order comes from a key
 function into integer sequences compared lexicographically.
 */
module Axis {
  import opened LexOrder

  /** Distinct buckets have distinct keys (true of integer year/month fields). */
  ghost predicate Injective<B(!new)>(key: B -> seq<int>)
  {
    forall a, b :: key(a) == key(b) ==> a == b
  }

  /** Strictly ascending by key, which also rules out repeated buckets. */
  ghost predicate StrictlySorted<B>(key: B -> seq<int>, xs: seq<B>)
  {
    forall i, j :: 0 <= i < j < |xs| ==> LexLess(key(xs[i]), key(xs[j]))
  }

  /** The bucket parts of the column keys `(bucket, category)`. */
  function Buckets<B, C>(columns: seq<(B, C)>): set<B>
  {
    set k | 0 <= k < |columns| :: columns[k].0
  }

  lemma PrependSorted<B>(key: B -> seq<int>, x: B, xs: seq<B>)
    requires StrictlySorted(key, xs)
    requires forall b :: b in xs ==> LexLess(key(x), key(b))
    ensures StrictlySorted(key, [x] + xs)
  {
    var ys := [x] + xs;
    forall i, j | 0 <= i < j < |ys|
      ensures LexLess(key(ys[i]), key(ys[j]))
    {
      if i == 0 {
        assert ys[j] in xs;
      } else {
        assert ys[i] == xs[i - 1] && ys[j] == xs[j - 1];
      }
    }
  }

  /** Insert one bucket into a sorted axis, unless it is already there. */
  function Insert<B(==,!new)>(key: B -> seq<int>, x: B, xs: seq<B>): (r: seq<B>)
    requires Injective(key)
    requires StrictlySorted(key, xs)
    ensures StrictlySorted(key, r)
    ensures forall b :: b in r <==> b == x || b in xs
    decreases |xs|
  {
    if xs == [] then [x]
    else if x == xs[0] then xs
    else if LexLess(key(x), key(xs[0])) then
      InsertFront(key, x, xs);
      [x] + xs
    else
      var rest := Insert(key, x, xs[1..]);
      InsertLater(key, x, xs, rest);
      [xs[0]] + rest
  }

  lemma InsertFront<B>(key: B -> seq<int>, x: B, xs: seq<B>)
    requires StrictlySorted(key, xs) && xs != []
    requires LexLess(key(x), key(xs[0]))
    ensures StrictlySorted(key, [x] + xs)
  {
    forall b | b in xs
      ensures LexLess(key(x), key(b))
    {
      var j :| 0 <= j < |xs| && xs[j] == b;
      if j > 0 {
        LexTransitive(key(x), key(xs[0]), key(b));
      }
    }
    PrependSorted(key, x, xs);
  }

  lemma InsertLater<B(!new)>(key: B -> seq<int>, x: B, xs: seq<B>, rest: seq<B>)
    requires Injective(key)
    requires StrictlySorted(key, xs) && xs != []
    requires x != xs[0] && !LexLess(key(x), key(xs[0]))
    requires StrictlySorted(key, rest)
    requires forall b :: b in rest <==> b == x || b in xs[1..]
    ensures StrictlySorted(key, [xs[0]] + rest)
  {
    LexTotal(key(x), key(xs[0]));
    forall b | b in rest
      ensures LexLess(key(xs[0]), key(b))
    {
      if b != x {
        var j :| 0 <= j < |xs[1..]| && xs[1..][j] == b;
        assert xs[j + 1] == b;
      }
    }
    PrependSorted(key, xs[0], rest);
  }

  /**
   The axis of a table: exactly the distinct buckets of its column keys,
   strictly ascending by key.
   */
  function AxisOf<B(==,!new), C>(key: B -> seq<int>, columns: seq<(B, C)>): (axis: seq<B>)
    requires Injective(key)
    ensures StrictlySorted(key, axis)
    ensures forall b :: b in axis <==> b in Buckets(columns)
    decreases |columns|
  {
    if columns == [] then []
    else
      var rest := AxisOf(key, columns[1..]);
      BucketsCons(columns);
      Insert(key, columns[0].0, rest)
  }

  lemma BucketsCons<B, C>(columns: seq<(B, C)>)
    requires columns != []
    ensures Buckets(columns) == {columns[0].0} + Buckets(columns[1..])
  {
    forall b | b in Buckets(columns)
      ensures b == columns[0].0 || b in Buckets(columns[1..])
    {
      var k :| 0 <= k < |columns| && columns[k].0 == b;
      if k > 0 {
        assert columns[1..][k - 1] == columns[k];
      }
    }
    forall b | b in Buckets(columns[1..])
      ensures b in Buckets(columns)
    {
      var k :| 0 <= k < |columns[1..]| && columns[1..][k].0 == b;
      assert columns[k + 1] == columns[1..][k];
    }
  }

  /** A strictly sorted axis holds no bucket twice. */
  lemma SortedDistinct<B>(key: B -> seq<int>, xs: seq<B>)
    requires StrictlySorted(key, xs)
    ensures forall i, j :: 0 <= i < |xs| && 0 <= j < |xs| && i != j ==> xs[i] != xs[j]
  {
    forall i, j | 0 <= i < |xs| && 0 <= j < |xs| && i != j
      ensures xs[i] != xs[j]
    {
      if i < j {
        if xs[i] == xs[j] {
          LexIrreflexive(key(xs[i]));
        }
      } else {
        if xs[i] == xs[j] {
          LexIrreflexive(key(xs[j]));
        }
      }
    }
  }

  /**
   A sorted enumeration of a set of buckets is unique: any two strictly sorted
   sequences with the same elements are equal. So the axis does not depend on
   the order of the table's columns.
   */
  lemma {:induction false} SortedUnique<B>(key: B -> seq<int>, xs: seq<B>, ys: seq<B>)
    requires StrictlySorted(key, xs) && StrictlySorted(key, ys)
    requires forall b :: b in xs <==> b in ys
    ensures xs == ys
    decreases |xs|
  {
    if xs == [] {
      if ys != [] {
        HeadIsMember(ys);
        assert false;
      }
    } else {
      assert ys != [] by {
        assert xs[0] in ys;
      }
      if xs[0] != ys[0] {
        assert xs[0] in ys;
        var j :| 0 <= j < |ys| && ys[j] == xs[0];
        assert ys[0] in xs;
        var i :| 0 <= i < |xs| && xs[i] == ys[0];
        assert LexLess(key(ys[0]), key(xs[0]));
        assert LexLess(key(xs[0]), key(ys[0]));
        LexAsymmetric(key(ys[0]), key(xs[0]));
      }
      forall b
        ensures b in xs[1..] <==> b in ys[1..]
      {
        TailMembers(key, xs, b);
        TailMembers(key, ys, b);
      }
      SortedUnique(key, xs[1..], ys[1..]);
      assert xs == [xs[0]] + xs[1..] && ys == [ys[0]] + ys[1..];
    }
  }

  lemma HeadIsMember<T>(xs: seq<T>)
    requires xs != []
    ensures xs[0] in xs
  {
  }

  lemma TailMembers<B>(key: B -> seq<int>, xs: seq<B>, b: B)
    requires StrictlySorted(key, xs) && xs != []
    ensures b in xs[1..] <==> b in xs && b != xs[0]
  {
    if b in xs[1..] && b == xs[0] {
      var j :| 0 <= j < |xs[1..]| && xs[1..][j] == b;
      assert LexLess(key(xs[0]), key(xs[j + 1]));
      LexIrreflexive(key(b));
    }
    if b in xs && b != xs[0] {
      var j :| 0 <= j < |xs| && xs[j] == b;
      assert xs[1..][j - 1] == b;
    }
  }

  /**
   The axis is determined by the set of buckets alone: tables whose columns
   carry the same buckets, in any order and with any repetition, share one axis.
   */
  lemma AxisOfSameBuckets<B(!new), C, D>(key: B -> seq<int>, cs: seq<(B, C)>, ds: seq<(B, D)>)
    requires Injective(key)
    requires Buckets(cs) == Buckets(ds)
    ensures AxisOf(key, cs) == AxisOf(key, ds)
  {
    SortedUnique(key, AxisOf(key, cs), AxisOf(key, ds));
  }
}
