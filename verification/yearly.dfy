/**
 The yearly chart (`update_yearly_graph`): buckets are the years of the first
 header level, sorted by `int(year)` and shown as the year's digits.
 */
module Yearly {
  import opened Decimal
  import opened LexOrder
  import opened Axis
  import opened Extractor
  import opened Metric
  import opened Dashboard

  /** The sort key `int(year)`, a one-field key. */
  function YearKey(year: nat): (k: seq<int>)
    ensures |k| == 1 && k[0] == year
  {
    [year]
  }

  /** Sort keys of years compare as the years do. */
  lemma YearKeyOrder(a: nat, b: nat)
    ensures LexLess(YearKey(a), YearKey(b)) <==> a < b
  {
    LexSingle(a, b);
  }

  /**
   `str(year)`: the year's decimal digits with no leading zero, read back by
   `ParseNat`.
   */
  function YearLabel(year: nat): (s: string)
    ensures |s| >= 1 && AllDigits(s)
    ensures |s| > 1 ==> s[0] != '0'
    ensures ParseNat(s) == Some(year)
  {
    ParseNatToString(year);
    NatToString(year)
  }

  lemma YearLabelInjective(a: nat, b: nat)
    requires YearLabel(a) == YearLabel(b)
    ensures a == b
  {
  }

  lemma YearKeyInjective()
    ensures Injective(YearKey)
  {
    forall a: nat, b: nat | YearKey(a) == YearKey(b)
      ensures a == b
    {
      assert YearKey(a)[0] == YearKey(b)[0];
    }
  }

  function YearlyShape(): (shape: Shape<nat>)
    ensures ValidShape(shape)
  {
    YearKeyInjective();
    Shape(YearKey, YearLabel)
  }

  /**
   `update_yearly_graph`: the generic callback on the yearly tables with the
   yearly bucket shape. Its x labels are the sorted years as strings.
   */
  function UpdateYearlyGraph<V>(tables: TableSet<Table<nat, V>>, sel: Selection, selector: string, input: string, zero: V): (fig: Figure<V>)
    ensures var axis := AxisOf(YearKey, Pick(tables, selector).columns);
            && |fig.chart.labels| == |axis|
            && (forall i :: 0 <= i < |axis| ==> fig.chart.labels[i] == YearLabel(axis[i]))
            && forall i :: 0 <= i < |axis| ==> ParseNat(fig.chart.labels[i]) == Some(axis[i])
  {
    Render(tables, YearlyShape(), sel, selector, input, zero)
  }

  /**
   The yearly axis holds exactly the years of the table's columns, strictly
   ascending.
   */
  lemma YearlyAxis<V>(t: Table<nat, V>)
    ensures var axis := AxisOf(YearlyShape().key, t.columns);
            && (forall y :: y in axis <==> exists k :: 0 <= k < |t.columns| && t.columns[k].0 == y)
            && forall i, j :: 0 <= i < j < |axis| ==> axis[i] < axis[j]
  {
    var axis := AxisOf(YearlyShape().key, t.columns);
    forall i, j | 0 <= i < j < |axis|
      ensures axis[i] < axis[j]
    {
      LexSingle(axis[i], axis[j]);
    }
  }

  /** The x labels of a yearly figure are pairwise different. */
  lemma YearlyLabelsDistinct<V>(tables: TableSet<Table<nat, V>>, sel: Selection, selector: string, input: string, zero: V)
    ensures var labels := UpdateYearlyGraph(tables, sel, selector, input, zero).chart.labels;
            forall i, j :: 0 <= i < j < |labels| ==> labels[i] != labels[j]
  {
    var axis := AxisOf(YearKey, Pick(tables, selector).columns);
    var labels := UpdateYearlyGraph(tables, sel, selector, input, zero).chart.labels;
    YearKeyInjective();
    SortedDistinct(YearKey, axis);
    assert forall i :: 0 <= i < |labels| ==> ParseNat(labels[i]) == Some(axis[i]);
  }
}
