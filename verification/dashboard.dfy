/**
 One chart callback, generic in the bucket shape: parse the word field,
 normalise the category selection, pick the table for the metric, extract the
 traces and markers, and choose the y-axis. The monthly and the yearly
 callbacks are this with their own shape and tables.
 */
module Dashboard {
  import opened Words
  import opened Axis
  import opened Extractor
  import opened Metric

  /** The category dropdown delivers either a list or a single value. */
  datatype Selection = Several(items: seq<string>) | Single(item: string)

  /** A single value becomes a one-element list; a list passes through unchanged. */
  function Categories(sel: Selection): (cats: seq<string>)
    ensures sel.Single? ==> cats == [sel.item]
    ensures sel.Several? ==> cats == sel.items
  {
    match sel
    case Several(items) => items
    case Single(item) => [item]
  }

  datatype Figure<V> = Figure(chart: Chart<V>, yAxis: YAxis)

  /**
   The figure for one state of the controls. Its chart is the extraction from
   the table the selector picks, for the parsed words and the normalised
   categories; its y-axis follows the selector.
   */
  function Render<B(==,!new), V>(tables: TableSet<Table<B, V>>, shape: Shape<B>, sel: Selection, selector: string, input: string, zero: V): (fig: Figure<V>)
    requires ValidShape(shape)
    ensures fig.yAxis.reversed <==> selector == "rank"
    ensures |fig.chart.traces| == |Found(Pick(tables, selector), ParseWords(input))| * |Categories(sel)|
    ensures |fig.chart.notFound| + |Found(Pick(tables, selector), ParseWords(input))| == |ParseWords(input)|
    ensures forall k :: 0 <= k < |fig.chart.traces| ==>
              && fig.chart.traces[k].labels == fig.chart.labels
              && |fig.chart.traces[k].values| == |fig.chart.labels|
              && fig.chart.traces[k].word in Pick(tables, selector).rows
              && CleanWord(fig.chart.traces[k].word)
              && fig.chart.traces[k].category in Categories(sel)
  {
    var t := Pick(tables, selector);
    var words := ParseWords(input);
    var cats := Categories(sel);
    var axis := AxisOf(shape.key, t.columns);
    var labels := Labels(shape, axis);
    var chart := Extract(t, shape, words, cats, zero);
    TracesOfParsedWords(t, labels, axis, words, cats, zero);
    Figure(chart, YAxisFor(selector))
  }

  /** Every trace drawn is for a word of the list it was extracted for. */
  lemma TracesOfParsedWords<B, V>(t: Table<B, V>, labels: seq<string>, axis: seq<B>, words: seq<string>, cats: seq<string>, zero: V)
    ensures var r := Traces(t, labels, axis, words, cats, zero);
            forall k :: 0 <= k < |r| ==> r[k].word in words
  {
    FoundTracesShape(t, labels, axis, Found(t, words), cats, zero);
    FoundMembers(t, words);
  }

  /** A single selected category draws exactly what a one-element list draws. */
  lemma SingleSelection<B(!new), V>(tables: TableSet<Table<B, V>>, shape: Shape<B>, c: string, selector: string, input: string, zero: V)
    requires ValidShape(shape)
    ensures Render(tables, shape, Single(c), selector, input, zero) == Render(tables, shape, Several([c]), selector, input, zero)
  {
  }

  /**
   Words are handled one by one in input order and duplicates are kept: the
   figure for "a,b" holds the traces and markers of "a" followed by those of "b".
   */
  lemma CommaSeparatedInput<B(!new), V>(tables: TableSet<Table<B, V>>, shape: Shape<B>, sel: Selection, selector: string, a: string, b: string, zero: V)
    requires ValidShape(shape)
    ensures var ab := Render(tables, shape, sel, selector, a + "," + b, zero).chart;
            var ra := Render(tables, shape, sel, selector, a, zero).chart;
            var rb := Render(tables, shape, sel, selector, b, zero).chart;
            && ab.labels == ra.labels == rb.labels
            && ab.traces == ra.traces + rb.traces
            && ab.notFound == ra.notFound + rb.notFound
  {
    ParseWordsConcat(a, b);
    var t := Pick(tables, selector);
    ExtractConcat(t, shape, ParseWords(a), ParseWords(b), Categories(sel), zero);
  }

  /** An input that holds only commas and whitespace draws nothing and flags nothing. */
  lemma BlankInput<B(!new), V>(tables: TableSet<Table<B, V>>, shape: Shape<B>, sel: Selection, selector: string, input: string, zero: V)
    requires ValidShape(shape)
    requires forall i :: 0 <= i < |input| ==> input[i] == ',' || IsSpace(input[i])
    ensures Render(tables, shape, sel, selector, input, zero).chart.traces == []
    ensures Render(tables, shape, sel, selector, input, zero).chart.notFound == []
  {
    ParseBlank(input);
  }
}
