/**
 The monthly chart (`update_graph`): buckets are `(year, month)` pairs from
 the first two header levels, sorted by `(int(year), int(month))` and shown as
 "YYYY-MM" with the month zero-padded to two characters.
 */
module Monthly {
  import opened Decimal
  import opened LexOrder
  import opened Axis
  import opened Extractor
  import opened Metric
  import opened Dashboard

  datatype YearMonth = YearMonth(year: nat, month: nat)

  /** The sort key `(int(year), int(month))`, a two-field key. */
  function MonthKey(b: YearMonth): (k: seq<int>)
    ensures |k| == 2 && k[0] == b.year && k[1] == b.month
  {
    [b.year, b.month]
  }

  /** Sort keys of months compare by year first, then by month. */
  lemma MonthKeyOrder(a: YearMonth, b: YearMonth)
    ensures LexLess(MonthKey(a), MonthKey(b)) <==> a.year < b.year || (a.year == b.year && a.month < b.month)
  {
    LexPair(a.year, a.month, b.year, b.month);
  }

  /**
   `str(month).zfill(2)`: the month's digits, padded with zeros to at least
   two characters; a month of two or more digits is left as it is.
   */
  function MonthDigits(month: nat): (m: string)
    ensures |m| >= 2 && AllDigits(m)
    ensures ParseNat(m) == Some(month)
    ensures month < 10 ==> |m| == 2 && m[0] == '0'
    ensures month >= 10 ==> m == NatToString(month)
  {
    DigitsValueOfNatToString(month);
    ZFill(NatToString(month), 2)
  }

  /**
   `f'{year}-{str(month).zfill(2)}'`: the year's digits, a dash, and the
   padded month digits.
   */
  function MonthLabel(b: YearMonth): (s: string)
    ensures var y := NatToString(b.year);
            && |s| >= |y| + 3
            && s[..|y|] == y
            && s[|y|] == '-'
            && s[|y| + 1..] == MonthDigits(b.month)
            && (b.month < 10 ==> |s| == |y| + 3 && s[|y| + 1] == '0')
  {
    var y := NatToString(b.year);
    var m := MonthDigits(b.month);
    DashJoin(y, m);
    y + "-" + m
  }

  /** A string joined around a dash splits back at the dash. */
  lemma DashJoin(y: string, m: string)
    ensures var s := y + "-" + m;
            && |s| == |y| + 1 + |m|
            && s[..|y|] == y && s[|y|] == '-' && s[|y| + 1..] == m
            && forall k :: 0 <= k < |m| ==> s[|y| + 1 + k] == m[k]
  {
  }

  /** Index of the first '-' in `s`, or `|s|` when there is none. */
  function FirstDash(s: string): (k: nat)
    ensures k <= |s|
    ensures k < |s| ==> s[k] == '-'
    ensures forall i :: 0 <= i < k ==> s[i] != '-'
    decreases |s|
  {
    if s == [] then 0 else if s[0] == '-' then 0 else 1 + FirstDash(s[1..])
  }

  /** Read a "YYYY-MM" label back into its bucket. */
  function ParseMonthLabel(s: string): Option<YearMonth>
  {
    var k := FirstDash(s);
    if k == |s| then None
    else
      match (ParseNat(s[..k]), ParseNat(s[k + 1..]))
      case (Some(y), Some(m)) => Some(YearMonth(y, m))
      case _ => None
  }

  /** The first dash of `y + "-" + m` is the joining one when `y` has none. */
  lemma FirstDashJoin(y: string, m: string)
    requires forall i :: 0 <= i < |y| ==> y[i] != '-'
    ensures FirstDash(y + "-" + m) == |y|
  {
    var s := y + "-" + m;
    assert forall i :: 0 <= i < |y| ==> s[i] == y[i];
    assert s[|y|] == '-';
  }

  /** Parsing a dash-joined pair of numbers reads both numbers back. */
  lemma ParseDashJoined(y: string, m: string)
    requires forall i :: 0 <= i < |y| ==> y[i] != '-'
    requires ParseNat(y).Some? && ParseNat(m).Some?
    ensures ParseMonthLabel(y + "-" + m) == Some(YearMonth(ParseNat(y).value, ParseNat(m).value))
  {
    DashJoin(y, m);
    FirstDashJoin(y, m);
  }

  /** The label is a faithful rendering of its bucket: parsing it gives the bucket back. */
  lemma MonthLabelRoundTrip(b: YearMonth)
    ensures ParseMonthLabel(MonthLabel(b)) == Some(b)
  {
    var y := NatToString(b.year);
    var m := MonthDigits(b.month);
    assert MonthLabel(b) == y + "-" + m;
    assert forall i :: 0 <= i < |y| ==> IsDigit(y[i]);
    ParseNatToString(b.year);
    ParseDashJoined(y, m);
  }

  /** The first dash of a label is the one right after the year. */
  lemma DashAfterYear(b: YearMonth)
    ensures FirstDash(MonthLabel(b)) == |NatToString(b.year)|
  {
    var y := NatToString(b.year);
    assert forall i :: 0 <= i < |y| ==> IsDigit(y[i]);
    FirstDashJoin(y, MonthDigits(b.month));
  }

  /** Different buckets get different labels. */
  lemma MonthLabelInjective(a: YearMonth, b: YearMonth)
    requires MonthLabel(a) == MonthLabel(b)
    ensures a == b
  {
    MonthLabelRoundTrip(a);
    MonthLabelRoundTrip(b);
  }

  lemma MonthKeyInjective()
    ensures Injective(MonthKey)
  {
    forall a: YearMonth, b: YearMonth | MonthKey(a) == MonthKey(b)
      ensures a == b
    {
      assert MonthKey(a)[0] == MonthKey(b)[0] && MonthKey(a)[1] == MonthKey(b)[1];
    }
  }

  function MonthlyShape(): (shape: Shape<YearMonth>)
    ensures ValidShape(shape)
  {
    MonthKeyInjective();
    Shape(MonthKey, MonthLabel)
  }

  /**
   `update_graph`: the generic callback on the monthly tables with the monthly
   bucket shape. Its x labels are the "YYYY-MM" labels of the sorted months.
   */
  function UpdateGraph<V>(tables: TableSet<Table<YearMonth, V>>, sel: Selection, selector: string, input: string, zero: V): (fig: Figure<V>)
    ensures var axis := AxisOf(MonthKey, Pick(tables, selector).columns);
            && |fig.chart.labels| == |axis|
            && forall i :: 0 <= i < |axis| ==> fig.chart.labels[i] == MonthLabel(axis[i])
  {
    Render(tables, MonthlyShape(), sel, selector, input, zero)
  }

  /**
   The monthly axis holds exactly the `(year, month)` pairs of the table's
   columns, strictly ascending by year and then month.
   */
  lemma MonthlyAxis<V>(t: Table<YearMonth, V>)
    ensures var axis := AxisOf(MonthlyShape().key, t.columns);
            && (forall b :: b in axis <==> exists k :: 0 <= k < |t.columns| && t.columns[k].0 == b)
            && forall i, j :: 0 <= i < j < |axis| ==>
                 axis[i].year < axis[j].year || (axis[i].year == axis[j].year && axis[i].month < axis[j].month)
  {
    var axis := AxisOf(MonthlyShape().key, t.columns);
    forall i, j | 0 <= i < j < |axis|
      ensures axis[i].year < axis[j].year || (axis[i].year == axis[j].year && axis[i].month < axis[j].month)
    {
      LexPair(axis[i].year, axis[i].month, axis[j].year, axis[j].month);
    }
  }

  /** The x labels of a monthly figure are pairwise different. */
  lemma MonthlyLabelsDistinct<V>(tables: TableSet<Table<YearMonth, V>>, sel: Selection, selector: string, input: string, zero: V)
    ensures var labels := UpdateGraph(tables, sel, selector, input, zero).chart.labels;
            forall i, j :: 0 <= i < j < |labels| ==> labels[i] != labels[j]
  {
    var axis := AxisOf(MonthKey, Pick(tables, selector).columns);
    var labels := UpdateGraph(tables, sel, selector, input, zero).chart.labels;
    MonthKeyInjective();
    SortedDistinct(MonthKey, axis);
    forall i, j | 0 <= i < j < |labels|
      ensures labels[i] != labels[j]
    {
      if labels[i] == labels[j] {
        MonthLabelInjective(axis[i], axis[j]);
      }
    }
  }

  // --------------------------------------------------------- worked example

  /** A table with one word, "cat", counted 5 and 7 in category "A" for two months. */
  function CatTable(): Table<YearMonth, int>
  {
    Table(
      {"cat"},
      [(YearMonth(2020, 1), "A"), (YearMonth(2020, 2), "A")],
      cell => if cell == ("cat", (YearMonth(2020, 1), "A")) then 5 else 7)
  }

  lemma CatAxis()
    ensures AxisOf(MonthKey, CatTable().columns) == CatMonths()
  {
    var cols := CatTable().columns;
    MonthKeyInjective();
    LexPair(2020, 1, 2020, 2);
    assert cols[1..][1..] == [];
    assert AxisOf(MonthKey, cols[1..]) == [YearMonth(2020, 2)];
  }

  lemma CatLabels()
    ensures MonthLabel(YearMonth(2020, 1)) == "2020-01"
    ensures MonthLabel(YearMonth(2020, 2)) == "2020-02"
  {
    assert DigitChar(0) == '0' && DigitChar(1) == '1' && DigitChar(2) == '2';
    assert NatToString(2) == "2";
    assert NatToString(20) == "20";
    assert NatToString(202) == "202";
    assert NatToString(2020) == "2020";
    assert Zeros(1) == "0";
    assert MonthDigits(1) == "01";
    assert MonthDigits(2) == "02";
  }

  /** The two months of the example table, in axis order. */
  function CatMonths(): seq<YearMonth>
  {
    [YearMonth(2020, 1), YearMonth(2020, 2)]
  }

  lemma CatAxisLabels()
    ensures Labels(MonthlyShape(), CatMonths()) == ["2020-01", "2020-02"]
  {
    LabelsOfTwo(MonthlyShape(), YearMonth(2020, 1), YearMonth(2020, 2));
    CatLabels();
  }

  lemma LabelsOfTwo<B>(shape: Shape<B>, a: B, b: B)
    ensures Labels(shape, [a, b]) == [shape.display(a), shape.display(b)]
  {
  }

  lemma CatSeries()
    ensures Series(CatTable(), CatMonths(), "cat", "A", 0) == [5, 7]
    ensures Series(CatTable(), CatMonths(), "cat", "B", 0) == [0, 0]
  {
    var t := CatTable();
    assert (YearMonth(2020, 1), "A") in t.columns && (YearMonth(2020, 2), "A") in t.columns;
    AbsentCategoryIsZero(t, CatMonths(), "cat", "B", 0);
  }

  /** "cat" in category "A" draws 5 then 7 over the labels 2020-01, 2020-02. */
  lemma CatScenario()
    ensures var c := Extract(CatTable(), MonthlyShape(), ["cat"], ["A"], 0);
            && c.labels == ["2020-01", "2020-02"]
            && c.traces == [Trace("cat", "A", ["2020-01", "2020-02"], [5, 7])]
            && c.notFound == []
  {
    var t := CatTable();
    CatAxis();
    CatAxisLabels();
    CatSeries();
    var labels := ["2020-01", "2020-02"];
    OneWord(t, labels, CatMonths(), "cat", ["A"], 0);
    var r := WordTraces(t, labels, CatMonths(), "cat", ["A"], 0);
    WordTracesAt(t, labels, CatMonths(), "cat", ["A"], 0, 0);
    assert r[0] == Trace("cat", "A", labels, [5, 7]);
  }

  /** "dog" is not a row: no trace and one marker. */
  lemma DogScenario()
    ensures var c := Extract(CatTable(), MonthlyShape(), ["dog"], ["A"], 0);
            c.traces == [] && c.notFound == [NotFound("dog")]
  {
    UnknownWord(CatTable(), MonthlyShape(), "dog", ["A"], 0);
  }

  /** Category "B" has no column: its trace is all zeros, one per month. */
  lemma AbsentCategoryScenario()
    ensures var c := Extract(CatTable(), MonthlyShape(), ["cat"], ["B"], 0);
            c.traces == [Trace("cat", "B", ["2020-01", "2020-02"], [0, 0])]
  {
    var t := CatTable();
    CatAxis();
    CatAxisLabels();
    CatSeries();
    var labels := ["2020-01", "2020-02"];
    OneWord(t, labels, CatMonths(), "cat", ["B"], 0);
    var r := WordTraces(t, labels, CatMonths(), "cat", ["B"], 0);
    WordTracesAt(t, labels, CatMonths(), "cat", ["B"], 0, 0);
    assert r[0] == Trace("cat", "B", labels, [0, 0]);
  }
}
