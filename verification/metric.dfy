/**
 The metric selector: which of the three tables a chart draws from, and how
 its y-axis is titled and oriented. The source keys both on the raw selector
 string, 'freq', 'prop' or 'rank', as the radio buttons deliver it.
 */
module Metric {

  datatype Metric = Frequency | Proportion | Rank

  /** One table per metric. */
  datatype TableSet<T> = TableSet(freq: T, prop: T, rank: T)

  /** 'freq' and 'prop' name their metric; every other selector falls through to rank. */
  function MetricOf(selector: string): (m: Metric)
    ensures m == Frequency <==> selector == "freq"
    ensures m == Proportion <==> selector == "prop"
    ensures m == Rank <==> selector != "freq" && selector != "prop"
  {
    if selector == "freq" then Frequency
    else if selector == "prop" then Proportion
    else Rank
  }

  /** The table that holds a metric's values. */
  function TableFor<T>(tables: TableSet<T>, m: Metric): (t: T)
    ensures m == Frequency ==> t == tables.freq
    ensures m == Proportion ==> t == tables.prop
    ensures m == Rank ==> t == tables.rank
  {
    match m
    case Frequency => tables.freq
    case Proportion => tables.prop
    case Rank => tables.rank
  }

  /** The table the chart draws from. */
  function Pick<T>(tables: TableSet<T>, selector: string): (t: T)
    ensures selector == "freq" ==> t == tables.freq
    ensures selector == "prop" ==> t == tables.prop
    ensures selector != "freq" && selector != "prop" ==> t == tables.rank
  {
    TableFor(tables, MetricOf(selector))
  }

  datatype YAxis = YAxis(title: string, reversed: bool)

  /** The axis title that names a metric. */
  function Title(m: Metric): string
  {
    match m
    case Frequency => "Frequency"
    case Proportion => "Proportion (%)"
    case Rank => "Rank"
  }

  /**
   The y-axis: reversed exactly for 'rank' (rank 1 on top); titled "Rank" for
   'rank', "Frequency" for 'freq' and "Proportion (%)" for anything else.
   */
  function YAxisFor(selector: string): (y: YAxis)
    ensures y.reversed <==> selector == "rank"
    ensures y.title == "Rank" <==> selector == "rank"
    ensures y.title == "Frequency" <==> selector == "freq"
    ensures y.title == "Proportion (%)" <==> selector != "rank" && selector != "freq"
  {
    YAxis(
      if selector == "rank" then "Rank" else if selector == "freq" then "Frequency" else "Proportion (%)",
      selector == "rank")
  }

  /**
   For the three selectors the radio buttons offer, the y-axis describes the
   table that is drawn: its title names that table's metric, and it is
   reversed exactly when that metric is rank.
   */
  lemma AxisMatchesTable(selector: string)
    requires selector == "freq" || selector == "prop" || selector == "rank"
    ensures YAxisFor(selector).title == Title(MetricOf(selector))
    ensures YAxisFor(selector).reversed <==> MetricOf(selector) == Rank
  {
  }

  /**
   The table choice and the y-axis are decided by two separate tests: a
   selector outside the three offered values draws the rank table under a
   "Proportion (%)" title on an axis that is not reversed.
   */
  lemma OtherSelector(selector: string)
    requires selector != "freq" && selector != "prop" && selector != "rank"
    ensures MetricOf(selector) == Rank
    ensures YAxisFor(selector) == YAxis("Proportion (%)", false)
    ensures YAxisFor(selector).title != Title(MetricOf(selector))
  {
  }
}
