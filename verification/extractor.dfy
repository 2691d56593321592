/**
 The series extractor shared by the monthly and the yearly chart. A table has
 a set of row keys (words), an ordered list of column keys `(bucket, category)`
 and one cell per row and column. For each requested word that is a row, and
 each requested category, the extractor emits one trace aligned with the
 bucket axis, filling `zero` where the table has no such column; each word
 that is not a row yields one not-found marker instead.
 */
module Extractor {
  import opened Axis

  /**
   A data frame: its row keys, its ordered column keys and `loc`, the value
   at a row and a column. A data frame is rectangular, so `loc` is total; it
   is only read at a row and a column of the frame.
   */
  datatype Table<!B(==), V> = Table(
    rows: set<string>,
    columns: seq<(B, string)>,
    loc: ((string, (B, string))) -> V)

  /** The bucket shape: its integer sort key and its axis label (`display`). */
  datatype Shape<!B> = Shape(key: B -> seq<int>, display: B -> string)

  ghost predicate ValidShape<B(!new)>(shape: Shape<B>)
  {
    Injective(shape.key)
  }

  /** One plotted line: `x` is the axis labels, `y` the values, named "<word> in <category>". */
  datatype Trace<V> = Trace(word: string, category: string, labels: seq<string>, values: seq<V>)
  {
    function Name(): (name: string)
      ensures |name| == |word| + 4 + |category|
      ensures name[..|word|] == word && name[|word|..|word| + 4] == " in " && name[|word| + 4..] == category
    {
      word + " in " + category
    }
  }

  /** The annotation shown for a word that is not a row of the table. */
  datatype NotFound = NotFound(word: string)
  {
    function Text(): (text: string)
      ensures |text| == |word| + 10
      ensures text[..|word|] == word && text[|word|..] == " not found"
    {
      word + " not found"
    }
  }

  datatype Chart<V> = Chart(labels: seq<string>, traces: seq<Trace<V>>, notFound: seq<NotFound>)

  /** The x labels: one per axis bucket, in axis order, each the bucket's display form. */
  function Labels<B>(shape: Shape<B>, axis: seq<B>): (r: seq<string>)
    ensures |r| == |axis|
    ensures forall i :: 0 <= i < |axis| ==> r[i] == shape.display(axis[i])
  {
    seq(|axis|, i requires 0 <= i < |axis| => shape.display(axis[i]))
  }

  /**
   The zero-fill policy: the table's cell when the column `(b, c)` exists,
   otherwise the fill value.
   */
  function Cell<B(==), V>(t: Table<B, V>, w: string, b: B, c: string, zero: V): (v: V)
    ensures (exists k :: 0 <= k < |t.columns| && t.columns[k] == (b, c)) ==> v == t.loc((w, (b, c)))
    ensures (forall k :: 0 <= k < |t.columns| ==> t.columns[k] != (b, c)) ==> v == zero
  {
    if (b, c) in t.columns then t.loc((w, (b, c))) else zero
  }

  /**
   The values of one trace: one per axis bucket, in axis order; the table's
   cell where the column exists and `zero` where it does not.
   */
  function Series<B(==), V>(t: Table<B, V>, axis: seq<B>, w: string, c: string, zero: V): (values: seq<V>)
    ensures |values| == |axis|
    ensures forall k :: 0 <= k < |axis| && (axis[k], c) in t.columns ==> values[k] == t.loc((w, (axis[k], c)))
    ensures forall k :: 0 <= k < |axis| && (axis[k], c) !in t.columns ==> values[k] == zero
    decreases |axis|
  {
    if axis == [] then []
    else [Cell(t, w, axis[0], c, zero)] + Series(t, axis[1..], w, c, zero)
  }

  /** The traces of one found word: one per category, in selection order. */
  function WordTraces<B(==), V>(t: Table<B, V>, labels: seq<string>, axis: seq<B>, w: string, cats: seq<string>, zero: V): (r: seq<Trace<V>>)
    ensures |r| == |cats|
    decreases |cats|
  {
    if cats == [] then []
    else [Trace(w, cats[0], labels, Series(t, axis, w, cats[0], zero))] + WordTraces(t, labels, axis, w, cats[1..], zero)
  }

  /** The j-th trace of a found word is for the j-th selected category. */
  lemma {:induction false} WordTracesAt<B, V>(t: Table<B, V>, labels: seq<string>, axis: seq<B>, w: string, cats: seq<string>, zero: V, j: nat)
    requires j < |cats|
    ensures WordTraces(t, labels, axis, w, cats, zero)[j] == Trace(w, cats[j], labels, Series(t, axis, w, cats[j], zero))
    decreases |cats|
  {
    if j > 0 {
      WordTracesAt(t, labels, axis, w, cats[1..], zero, j - 1);
    }
  }

  /** What one requested word contributes to the found words: itself when it is a row. */
  function Hit<B, V>(t: Table<B, V>, w: string): (r: seq<string>)
    ensures w in t.rows ==> r == [w]
    ensures w !in t.rows ==> r == []
  {
    if w in t.rows then [w] else []
  }

  /** The requested words that are rows of the table, in request order. */
  function Found<B, V>(t: Table<B, V>, words: seq<string>): (r: seq<string>)
    ensures |r| <= |words|
    ensures forall k :: 0 <= k < |r| ==> r[k] in t.rows
    decreases |words|
  {
    if words == [] then [] else Hit(t, words[0]) + Found(t, words[1..])
  }

  /** What one requested word contributes to the markers: one when it is not a row. */
  function Miss<B, V>(t: Table<B, V>, w: string): (r: seq<NotFound>)
    ensures w in t.rows ==> r == []
    ensures w !in t.rows ==> r == [NotFound(w)]
  {
    if w in t.rows then [] else [NotFound(w)]
  }

  /** One marker per requested word that is not a row, in request order. */
  function Missing<B, V>(t: Table<B, V>, words: seq<string>): (r: seq<NotFound>)
    ensures |r| <= |words|
    ensures forall k :: 0 <= k < |r| ==> r[k].word !in t.rows
    decreases |words|
  {
    if words == [] then [] else Miss(t, words[0]) + Missing(t, words[1..])
  }

  /**
   The traces of a list of found words: each word's traces in turn, so the
   traces run word-major, then category in selection order.
   */
  function FoundTraces<B(==), V>(t: Table<B, V>, labels: seq<string>, axis: seq<B>, found: seq<string>, cats: seq<string>, zero: V): (r: seq<Trace<V>>)
    decreases |found|
  {
    if found == [] then []
    else WordTraces(t, labels, axis, found[0], cats, zero) + FoundTraces(t, labels, axis, found[1..], cats, zero)
  }

  /** Each found word contributes one trace per category. */
  lemma {:induction false} FoundTracesLength<B, V>(t: Table<B, V>, labels: seq<string>, axis: seq<B>, found: seq<string>, cats: seq<string>, zero: V)
    ensures |FoundTraces(t, labels, axis, found, cats, zero)| == Start(|found|, |cats|)
    decreases |found|
  {
    if found != [] {
      FoundTracesLength(t, labels, axis, found[1..], cats, zero);
    }
  }

  /** A trace for one of `words` and one of `cats`, over `labels`, with `n` values. */
  predicate Shaped<V>(tr: Trace<V>, words: seq<string>, cats: seq<string>, labels: seq<string>, n: nat)
  {
    tr.word in words && tr.category in cats && tr.labels == labels && |tr.values| == n
  }

  /** Every trace of the found words is for one of them and a selected category, aligned with the axis. */
  lemma {:induction false} FoundTracesShape<B, V>(t: Table<B, V>, labels: seq<string>, axis: seq<B>, found: seq<string>, cats: seq<string>, zero: V)
    ensures forall k :: 0 <= k < |FoundTraces(t, labels, axis, found, cats, zero)| ==>
              Shaped(FoundTraces(t, labels, axis, found, cats, zero)[k], found, cats, labels, |axis|)
    decreases |found|
  {
    if found != [] {
      var mine := WordTraces(t, labels, axis, found[0], cats, zero);
      var rest := FoundTraces(t, labels, axis, found[1..], cats, zero);
      var r := FoundTraces(t, labels, axis, found, cats, zero);
      assert r == mine + rest;
      FoundTracesShape(t, labels, axis, found[1..], cats, zero);
      forall k | 0 <= k < |r|
        ensures Shaped(r[k], found, cats, labels, |axis|)
      {
        if k < |mine| {
          WordTracesAt(t, labels, axis, found[0], cats, zero, k);
          assert r[k] == mine[k];
        } else {
          assert r[k] == rest[k - |mine|];
          assert found == [found[0]] + found[1..];
        }
      }
    }
  }


  /**
   The traces of all requested words: those of the found words, so one per
   found word and category, each for a row word and a selected category and
   aligned with the axis.
   */
  function Traces<B(==), V>(t: Table<B, V>, labels: seq<string>, axis: seq<B>, words: seq<string>, cats: seq<string>, zero: V): (r: seq<Trace<V>>)
    ensures |r| == |Found(t, words)| * |cats|
    ensures forall k :: 0 <= k < |r| ==>
              r[k].word in t.rows && r[k].category in cats && r[k].labels == labels && |r[k].values| == |axis|
  {
    StartIsProduct(|Found(t, words)|, |cats|);
    FoundTracesLength(t, labels, axis, Found(t, words), cats, zero);
    FoundTracesShape(t, labels, axis, Found(t, words), cats, zero);
    FoundMembers(t, words);
    FoundTraces(t, labels, axis, Found(t, words), cats, zero)
  }

  lemma MulSucc(x: nat, n: nat)
    ensures (1 + x) * n == n + x * n
  {
  }

  /**
   The extractor: axis labels from the table's columns, traces for the found
   words and markers for the others.
   */
  function Extract<B(==,!new), V>(t: Table<B, V>, shape: Shape<B>, words: seq<string>, cats: seq<string>, zero: V): (r: Chart<V>)
    requires ValidShape(shape)
    ensures |r.labels| == |AxisOf(shape.key, t.columns)|
    ensures forall i :: 0 <= i < |r.labels| ==> r.labels[i] == shape.display(AxisOf(shape.key, t.columns)[i])
    ensures |r.traces| == |Found(t, words)| * |cats|
    ensures forall k :: 0 <= k < |r.traces| ==> r.traces[k].labels == r.labels && |r.traces[k].values| == |r.labels|
    ensures |r.notFound| + |Found(t, words)| == |words|
  {
    var axis := AxisOf(shape.key, t.columns);
    var labels := Labels(shape, axis);
    MissingCount(t, words);
    Chart(labels, Traces(t, labels, axis, words, cats, zero), Missing(t, words))
  }

  // ------------------------------------------------------------ properties

  /**
   Trace number `i * |cats| + j` is the trace of the i-th found word in the
   j-th selected category: traces run word-major, then category.
   */
  lemma TraceAt<B, V>(t: Table<B, V>, labels: seq<string>, axis: seq<B>, words: seq<string>, cats: seq<string>, zero: V, i: nat, j: nat)
    requires i < |Found(t, words)| && j < |cats|
    ensures var found := Found(t, words);
            var traces := Traces(t, labels, axis, words, cats, zero);
            i * |cats| + j < |traces| &&
            traces[i * |cats| + j] == Trace(found[i], cats[j], labels, Series(t, axis, found[i], cats[j], zero))
  {
    FoundTracesAt(t, labels, axis, Found(t, words), cats, zero, i, j);
    StartIsProduct(i, |cats|);
  }

  /** Where the traces of the i-th found word begin, when each word has `n` of them. */
  function Start(i: nat, n: nat): nat
  {
    if i == 0 then 0 else n + Start(i - 1, n)
  }

  lemma {:induction false} StartIsProduct(i: nat, n: nat)
    ensures Start(i, n) == i * n
  {
    if i > 0 {
      StartIsProduct(i - 1, n);
      MulSucc(i - 1, n);
    }
  }

  lemma {:induction false} FoundTracesAt<B, V>(t: Table<B, V>, labels: seq<string>, axis: seq<B>, found: seq<string>, cats: seq<string>, zero: V, i: nat, j: nat)
    requires i < |found| && j < |cats|
    ensures Start(i, |cats|) + j < |FoundTraces(t, labels, axis, found, cats, zero)|
    ensures FoundTraces(t, labels, axis, found, cats, zero)[Start(i, |cats|) + j]
              == Trace(found[i], cats[j], labels, Series(t, axis, found[i], cats[j], zero))
    decreases |found|
  {
    if i == 0 {
      FoundTracesHead(t, labels, axis, found, cats, zero, j);
    } else {
      var n := |cats|;
      var k := Start(i - 1, n) + j;
      var x := Trace(found[i], cats[j], labels, Series(t, axis, found[i], cats[j], zero));
      FoundTracesAt(t, labels, axis, found[1..], cats, zero, i - 1, j);
      assert found[1..][i - 1] == found[i];
      assert Start(i, n) == n + Start(i - 1, n);
      FoundTracesTail(t, labels, axis, found, cats, zero, k, x);
    }
  }

  /** The first traces are those of the first found word. */
  lemma FoundTracesHead<B, V>(t: Table<B, V>, labels: seq<string>, axis: seq<B>, found: seq<string>, cats: seq<string>, zero: V, j: nat)
    requires found != [] && j < |cats|
    ensures Start(0, |cats|) + j < |FoundTraces(t, labels, axis, found, cats, zero)|
    ensures FoundTraces(t, labels, axis, found, cats, zero)[Start(0, |cats|) + j]
              == Trace(found[0], cats[j], labels, Series(t, axis, found[0], cats[j], zero))
  {
    var mine := WordTraces(t, labels, axis, found[0], cats, zero);
    FoundTracesCons(t, labels, axis, found, cats, zero);
    WordTracesAt(t, labels, axis, found[0], cats, zero, j);
  }

  /** Trace `k` of the later words sits `|cats|` places further on. */
  lemma FoundTracesTail<B, V>(t: Table<B, V>, labels: seq<string>, axis: seq<B>, found: seq<string>, cats: seq<string>, zero: V, k: nat, x: Trace<V>)
    requires found != []
    requires k < |FoundTraces(t, labels, axis, found[1..], cats, zero)|
    requires FoundTraces(t, labels, axis, found[1..], cats, zero)[k] == x
    ensures |cats| + k < |FoundTraces(t, labels, axis, found, cats, zero)|
    ensures FoundTraces(t, labels, axis, found, cats, zero)[|cats| + k] == x
  {
    var mine := WordTraces(t, labels, axis, found[0], cats, zero);
    FoundTracesCons(t, labels, axis, found, cats, zero);
    ConcatRight(mine, FoundTraces(t, labels, axis, found[1..], cats, zero), k);
  }

  lemma FoundTracesCons<B, V>(t: Table<B, V>, labels: seq<string>, axis: seq<B>, found: seq<string>, cats: seq<string>, zero: V)
    requires found != []
    ensures FoundTraces(t, labels, axis, found, cats, zero)
              == WordTraces(t, labels, axis, found[0], cats, zero) + FoundTraces(t, labels, axis, found[1..], cats, zero)
  {
  }

  lemma ConcatAssoc<T>(x: seq<T>, y: seq<T>, z: seq<T>)
    ensures x + (y + z) == (x + y) + z
  {
  }

  lemma ConcatRight<T>(a: seq<T>, b: seq<T>, k: nat)
    requires k < |b|
    ensures |a| + k < |a + b| && (a + b)[|a| + k] == b[k]
  {
  }

  /** The found words are exactly the requested words that are rows. */
  lemma {:induction false} FoundMembers<B, V>(t: Table<B, V>, words: seq<string>)
    ensures forall w :: w in Found(t, words) <==> w in words && w in t.rows
    decreases |words|
  {
    if words != [] {
      FoundMembers(t, words[1..]);
      assert words == [words[0]] + words[1..];
    }
  }

  /** There is one marker per requested word that is not a row. */
  lemma {:induction false} MissingMembers<B, V>(t: Table<B, V>, words: seq<string>)
    ensures forall w :: NotFound(w) in Missing(t, words) <==> w in words && w !in t.rows
    decreases |words|
  {
    if words != [] {
      MissingMembers(t, words[1..]);
      assert words == [words[0]] + words[1..];
    }
  }

  /** Every requested word is either found or flagged, never both. */
  lemma {:induction false} MissingCount<B, V>(t: Table<B, V>, words: seq<string>)
    ensures |Missing(t, words)| + |Found(t, words)| == |words|
    decreases |words|
  {
    if words != [] {
      MissingCount(t, words[1..]);
    }
  }

  lemma {:induction false} FoundConcat<B, V>(t: Table<B, V>, a: seq<string>, b: seq<string>)
    ensures Found(t, a + b) == Found(t, a) + Found(t, b)
    decreases |a|
  {
    if a == [] {
      assert a + b == b;
    } else {
      var h := Hit(t, a[0]);
      assert (a + b)[0] == a[0];
      assert (a + b)[1..] == a[1..] + b;
      calc {
        Found(t, a + b);
        h + Found(t, a[1..] + b);
        { FoundConcat(t, a[1..], b); }
        h + (Found(t, a[1..]) + Found(t, b));
        (h + Found(t, a[1..])) + Found(t, b);
      }
    }
  }

  lemma {:induction false} MissingConcat<B, V>(t: Table<B, V>, a: seq<string>, b: seq<string>)
    ensures Missing(t, a + b) == Missing(t, a) + Missing(t, b)
    decreases |a|
  {
    if a == [] {
      assert a + b == b;
    } else {
      var h := Miss(t, a[0]);
      assert (a + b)[0] == a[0];
      assert (a + b)[1..] == a[1..] + b;
      calc {
        Missing(t, a + b);
        h + Missing(t, a[1..] + b);
        { MissingConcat(t, a[1..], b); }
        h + (Missing(t, a[1..]) + Missing(t, b));
        (h + Missing(t, a[1..])) + Missing(t, b);
      }
    }
  }

  lemma {:induction false} FoundTracesConcat<B, V>(t: Table<B, V>, labels: seq<string>, axis: seq<B>, a: seq<string>, b: seq<string>, cats: seq<string>, zero: V)
    ensures FoundTraces(t, labels, axis, a + b, cats, zero)
              == FoundTraces(t, labels, axis, a, cats, zero) + FoundTraces(t, labels, axis, b, cats, zero)
    decreases |a|
  {
    if a == [] {
      assert a + b == b;
    } else {
      var h := WordTraces(t, labels, axis, a[0], cats, zero);
      var ra := FoundTraces(t, labels, axis, a[1..], cats, zero);
      var rb := FoundTraces(t, labels, axis, b, cats, zero);
      assert (a + b)[0] == a[0];
      assert (a + b)[1..] == a[1..] + b;
      calc {
        FoundTraces(t, labels, axis, a + b, cats, zero);
        { FoundTracesCons(t, labels, axis, a + b, cats, zero); }
        h + FoundTraces(t, labels, axis, a[1..] + b, cats, zero);
        { FoundTracesConcat(t, labels, axis, a[1..], b, cats, zero); }
        h + (ra + rb);
        { ConcatAssoc(h, ra, rb); }
        (h + ra) + rb;
        { FoundTracesCons(t, labels, axis, a, cats, zero); }
        FoundTraces(t, labels, axis, a, cats, zero) + rb;
      }
    }
  }

  lemma TracesConcat<B, V>(t: Table<B, V>, labels: seq<string>, axis: seq<B>, a: seq<string>, b: seq<string>, cats: seq<string>, zero: V)
    ensures Traces(t, labels, axis, a + b, cats, zero) == Traces(t, labels, axis, a, cats, zero) + Traces(t, labels, axis, b, cats, zero)
  {
    FoundConcat(t, a, b);
    FoundTracesConcat(t, labels, axis, Found(t, a), Found(t, b), cats, zero);
  }

  /**
   Words are processed independently: extracting for `a + b` gives the traces
   and markers of `a` followed by those of `b`, on the same axis.
   */
  lemma ExtractConcat<B(!new), V>(t: Table<B, V>, shape: Shape<B>, a: seq<string>, b: seq<string>, cats: seq<string>, zero: V)
    requires ValidShape(shape)
    ensures Extract(t, shape, a + b, cats, zero).labels == Extract(t, shape, a, cats, zero).labels
    ensures Extract(t, shape, a + b, cats, zero).traces == Extract(t, shape, a, cats, zero).traces + Extract(t, shape, b, cats, zero).traces
    ensures Extract(t, shape, a + b, cats, zero).notFound == Extract(t, shape, a, cats, zero).notFound + Extract(t, shape, b, cats, zero).notFound
  {
    var axis := AxisOf(shape.key, t.columns);
    TracesConcat(t, Labels(shape, axis), axis, a, b, cats, zero);
    MissingConcat(t, a, b);
  }

  /**
   A word that is not a row draws no trace and exactly one marker, however
   many categories are selected.
   */
  lemma UnknownWord<B(!new), V>(t: Table<B, V>, shape: Shape<B>, w: string, cats: seq<string>, zero: V)
    requires ValidShape(shape)
    requires w !in t.rows
    ensures Extract(t, shape, [w], cats, zero).traces == []
    ensures Extract(t, shape, [w], cats, zero).notFound == [NotFound(w)]
  {
    var axis := AxisOf(shape.key, t.columns);
    OneWord(t, Labels(shape, axis), axis, w, cats, zero);
  }


  /** A word that is a row draws one trace per category and no marker. */
  lemma KnownWord<B(!new), V>(t: Table<B, V>, shape: Shape<B>, w: string, cats: seq<string>, zero: V)
    requires ValidShape(shape)
    requires w in t.rows
    ensures var r := Extract(t, shape, [w], cats, zero);
            && r.notFound == []
            && |r.traces| == |cats|
            && forall j :: 0 <= j < |cats| ==> r.traces[j].word == w && r.traces[j].category == cats[j]
  {
    var axis := AxisOf(shape.key, t.columns);
    OneWord(t, Labels(shape, axis), axis, w, cats, zero);
    var r := WordTraces(t, Labels(shape, axis), axis, w, cats, zero);
    assert Extract(t, shape, [w], cats, zero).traces == r;
    forall j | 0 <= j < |cats|
      ensures r[j].word == w && r[j].category == cats[j]
    {
      WordTracesAt(t, Labels(shape, axis), axis, w, cats, zero, j);
    }
  }

  /**
   A category that no column carries gets a trace of zeros as long as the
   axis, not an empty one.
   */
  lemma AbsentCategoryIsZero<B, V>(t: Table<B, V>, axis: seq<B>, w: string, c: string, zero: V)
    requires forall col :: col in t.columns ==> col.1 != c
    ensures Series(t, axis, w, c, zero) == seq(|axis|, _ => zero)
  {
  }

  // --------------------------------------------------------- the loop form

  /** The innermost loop of the source: walk the axis, appending a cell or 0. */
  method BuildSeries<B(==), V>(t: Table<B, V>, axis: seq<B>, word: string, category: string, zero: V) returns (values: seq<V>)
    ensures values == Series(t, axis, word, category, zero)
  {
    values := [];
    for k := 0 to |axis|
      invariant |values| == k
      invariant forall m :: 0 <= m < k ==> values[m] == Cell(t, word, axis[m], category, zero)
    {
      if (axis[k], category) in t.columns {
        values := values + [t.loc((word, (axis[k], category)))];
      } else {
        values := values + [zero];
      }
    }
  }

  /** The loop over the selected categories for one found word. */
  method BuildWordTraces<B(==), V>(t: Table<B, V>, labels: seq<string>, axis: seq<B>, word: string, cats: seq<string>, zero: V) returns (traces: seq<Trace<V>>)
    ensures traces == WordTraces(t, labels, axis, word, cats, zero)
  {
    traces := [];
    for j := 0 to |cats|
      invariant |traces| == j
      invariant forall m :: 0 <= m < j ==> traces[m] == Trace(word, cats[m], labels, Series(t, axis, word, cats[m], zero))
    {
      var values := BuildSeries(t, axis, word, cats[j], zero);
      traces := traces + [Trace(word, cats[j], labels, values)];
    }
    forall m | 0 <= m < |cats|
      ensures traces[m] == WordTraces(t, labels, axis, word, cats, zero)[m]
    {
      WordTracesAt(t, labels, axis, word, cats, zero, m);
    }
  }

  /**
   The extraction as the source writes it: a loop over the words that either
   adds one trace per category or adds a not-found marker. It computes exactly
   `Extract`.
   */
  method BuildChart<B(==,!new), V>(t: Table<B, V>, shape: Shape<B>, words: seq<string>, cats: seq<string>, zero: V) returns (chart: Chart<V>)
    requires ValidShape(shape)
    ensures chart == Extract(t, shape, words, cats, zero)
  {
    var axis := AxisOf(shape.key, t.columns);
    var labels := Labels(shape, axis);
    var traces: seq<Trace<V>> := [];
    var notFound: seq<NotFound> := [];
    for i := 0 to |words|
      invariant traces == Traces(t, labels, axis, words[..i], cats, zero)
      invariant notFound == Missing(t, words[..i])
    {
      var word := words[i];
      StepWord(t, labels, axis, words, i, cats, zero);
      if word in t.rows {
        var wordTraces := BuildWordTraces(t, labels, axis, word, cats, zero);
        traces := traces + wordTraces;
      } else {
        notFound := notFound + [NotFound(word)];
      }
    }
    assert words[..|words|] == words;
    chart := Chart(labels, traces, notFound);
  }

  /** What one more word adds to the traces and the markers. */
  lemma StepWord<B, V>(t: Table<B, V>, labels: seq<string>, axis: seq<B>, words: seq<string>, i: nat, cats: seq<string>, zero: V)
    requires i < |words|
    ensures words[i] in t.rows ==>
              Traces(t, labels, axis, words[..i + 1], cats, zero)
                == Traces(t, labels, axis, words[..i], cats, zero) + WordTraces(t, labels, axis, words[i], cats, zero)
    ensures words[i] in t.rows ==> Missing(t, words[..i + 1]) == Missing(t, words[..i])
    ensures words[i] !in t.rows ==> Traces(t, labels, axis, words[..i + 1], cats, zero) == Traces(t, labels, axis, words[..i], cats, zero)
    ensures words[i] !in t.rows ==> Missing(t, words[..i + 1]) == Missing(t, words[..i]) + [NotFound(words[i])]
  {
    var w := words[i];
    assert words[..i + 1] == words[..i] + [w];
    TracesConcat(t, labels, axis, words[..i], [w], cats, zero);
    MissingConcat(t, words[..i], [w]);
    OneWord(t, labels, axis, w, cats, zero);
  }

  /** What a single requested word yields: its traces when it is a row, its marker otherwise. */
  lemma OneWord<B, V>(t: Table<B, V>, labels: seq<string>, axis: seq<B>, w: string, cats: seq<string>, zero: V)
    ensures w in t.rows ==> Traces(t, labels, axis, [w], cats, zero) == WordTraces(t, labels, axis, w, cats, zero)
    ensures w in t.rows ==> Missing(t, [w]) == []
    ensures w !in t.rows ==> Traces(t, labels, axis, [w], cats, zero) == []
    ensures w !in t.rows ==> Missing(t, [w]) == [NotFound(w)]
  {
    assert [w][1..] == [];
    assert Found(t, [w]) == Hit(t, w) + [];
    assert Missing(t, [w]) == Miss(t, w) + [];
    if w in t.rows {
      assert FoundTraces(t, labels, axis, [w], cats, zero) == WordTraces(t, labels, axis, w, cats, zero) + [];
    }
  }

}
