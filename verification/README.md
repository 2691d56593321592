# nounplot series extraction, modelled in Dafny

nounplot is a small dashboard that plots how often words (nouns) are used
over time in five political subreddits. Two callbacks draw the charts:
`update_graph` for months and `update_yearly_graph` for years. Both take the
selected subreddits, a metric selector (`'freq'`, `'prop'` or `'rank'`) and a
free-text, comma-separated word list. Each one:

1. splits the word field on commas, strips each piece and drops empty ones;
2. turns a single selected subreddit into a one-element list;
3. picks the frequency, proportion or rank table from the selector;
4. collects the distinct time buckets of the table's column keys and sorts
   them by integer year, then month;
5. renders each bucket as a label (`YYYY-MM` with the month zero-padded, or
   `YYYY`);
6. for each word that is a row of the table, and each selected subreddit,
   draws one trace aligned with the bucket axis. The cell value is used where
   the `(bucket, subreddit)` column exists and `0` elsewhere. Each word that
   is not a row gets a "not found" annotation instead;
7. titles the y-axis after the metric and reverses it for rank.

The model has one generic extractor, parameterised by the bucket shape: an
integer sort key plus a label function. `Monthly.UpdateGraph` and
`Yearly.UpdateYearlyGraph` are the same `Dashboard.Render` applied to their
own shape (`(year, month)` or `year`) and their own tables.

Files and modules:

- `lex_order.dfy` (`LexOrder`): Python's comparison of integer key tuples.
- `decimal.dfy` (`Decimal`): `str(n)`, `str.zfill` and the digit parser used
  to read labels back.
- `words.dfy` (`Words`): `str.split(',')`, `str.strip()` and the word-list
  comprehension.
- `axis.dfy` (`Axis`): the sorted, de-duplicated bucket axis.
- `extractor.dfy` (`Extractor`): the table, the traces and the not-found
  markers. It has a functional definition and a loop-by-loop method proved
  equal to it.
- `metric.dfy` (`Metric`): metric-to-table dispatch and the y-axis title and
  direction.
- `dashboard.dfy` (`Dashboard`): one callback, generic in the bucket shape.
- `monthly.dfy` (`Monthly`), `yearly.dfy` (`Yearly`): the two instances,
  plus the worked monthly example.

A table is a set of row keys (words), an ordered sequence of column keys
`(bucket, subreddit)` and a cell lookup `loc` from `(word, column)` to a
value. A data frame is rectangular, so `loc` is a total function; the
extractor only reads it at a row and a column of the table. Cells are of any
type `V`. The fill value for a missing column is a parameter `zero`; the
source passes the integer `0`. The source does the same work twice, once per
granularity. The model writes it once, and the yearly rows below cite the
monthly lines; the yearly copy is at app.py:149-186.

The table choice and the y-axis use two separate tests on the raw selector
string (app.py:87-92 and app.py:129-130). Any selector other than `'freq'`
or `'prop'` draws the rank table. Only the exact string `'rank'` gets the
"Rank" title and the reversed axis. Any selector other than `'freq'`,
`'prop'` and `'rank'` therefore draws the rank table under a
"Proportion (%)" title on a normal axis. `Metric.OtherSelector` states this. The radio buttons only offer the three
listed values, so the dashboard never shows this mismatch.

## Model

| member | source | states |
|---|---|---|
| Words.SplitOn | app.py:81 | `split(',')` yields one more piece than there are commas, and no piece contains a comma |
| Words.JoinSplit | app.py:81 | joining the pieces back with commas gives the original text |
| Words.SplitJoin | app.py:81 | splitting comma-free pieces joined by commas gives those pieces back |
| Words.SplitConcat | app.py:81 | a comma in the text splits the piece list exactly there |
| Words.Strip | app.py:81 | `strip()` leaves a string with no whitespace at either end, no longer than the input |
| Words.StripSlice | app.py:81 | the stripped string is a contiguous slice of the input, and everything outside that slice is whitespace |
| Words.StripPadded | app.py:81 | stripping a trimmed word padded with whitespace on both sides gives the word back |
| Words.StripTrimmed | app.py:81 | a word with no whitespace at either end is left unchanged by `strip()` |
| Words.StripAllSpace | app.py:81 | a piece of only whitespace strips to the empty string, so the filter drops it |
| Words.StripNoComma | app.py:81 | stripping a comma-free piece leaves it comma-free |
| Words.KeepWords | app.py:81 | stripping the pieces and dropping the empty ones keeps at most one word per piece, each non-empty and trimmed |
| Words.KeepWordsConcat | app.py:81 | the comprehension over `xs + ys` keeps the words of `xs` followed by those of `ys` |
| Words.KeepWordsNoComma | app.py:81 | comma-free pieces give comma-free words |
| Words.KeepWordsOfClean | app.py:81 | pieces that are already clean words are all kept, unchanged and in order |
| Words.SplitNoSeparator | app.py:81 | text without a comma splits into the single piece holding all of it |
| Words.SplitBlank | app.py:81 | text of only commas and whitespace splits into pieces of only whitespace |
| Words.KeepWordsBlank | app.py:81 | pieces of only whitespace all get dropped |
| Words.ParseWords | app.py:81 | every parsed word is non-empty, trimmed and comma-free, and there are at most commas+1 words |
| Words.ParseWordsConcat | app.py:81 | the words of `a + "," + b` are the words of `a` followed by those of `b`: order is kept and duplicates are not merged |
| Words.ParseJoinedWords | app.py:81 | any list of clean words, duplicates included and the empty list too, is recovered exactly from its comma-joined text |
| Words.ParsePadded | app.py:81 | a piece is parsed into its stripped form: a clean word padded with whitespace on either side parses to exactly that word |
| Words.ParseBlank | app.py:81 | a field of only commas and whitespace yields no words |
| Dashboard.Categories | app.py:83-84 | a single selected value becomes a one-element list; a list passes through unchanged |
| Dashboard.SingleSelection | app.py:83-84 | a figure drawn for a single category equals the figure drawn for the one-element list holding it |
| Metric.MetricOf | app.py:87-92 | `'freq'` means frequency, `'prop'` means proportion, and every other selector means rank |
| Metric.TableFor | app.py:87-92 | each metric reads its own table: frequency, proportion or rank |
| Metric.Pick | app.py:87-92 | the frequency table for `'freq'`, the proportion table for `'prop'`, and the rank table for anything else |
| Metric.YAxisFor | app.py:129-130 | the y-axis is reversed exactly for `'rank'`; titled Rank for `'rank'`, Frequency for `'freq'`, Proportion (%) otherwise |
| Metric.AxisMatchesTable | app.py:129-130 | for the three offered selectors, the y-axis title names the metric of the table drawn, and the axis is reversed exactly when it is rank |
| Metric.OtherSelector | app.py:129-130 | any other selector draws the rank table under a non-reversed "Proportion (%)" axis |
| LexOrder.LexIrreflexive | app.py:97 | no sort key is smaller than itself |
| LexOrder.LexTransitive | app.py:97 | the tuple order on sort keys is transitive |
| LexOrder.LexTotal | app.py:97 | any two different sort keys are ordered one way or the other |
| LexOrder.LexAsymmetric | app.py:97 | two keys are never each smaller than the other |
| LexOrder.LexPair | app.py:97 | on `(year, month)` keys the order is year first, then month |
| LexOrder.LexSingle | app.py:165 | on `(year)` keys the order is the order of the years |
| Axis.Insert | app.py:97 | inserting a bucket into a strictly sorted axis keeps it strictly sorted and adds exactly that bucket, once |
| Axis.AxisOf | app.py:97 | the axis holds exactly the distinct buckets of the column keys, strictly ascending by sort key |
| Axis.SortedDistinct | app.py:97 | a strictly sorted axis holds no bucket twice |
| Axis.SortedUnique | app.py:97 | two strictly sorted sequences with the same buckets are equal, so `sorted(set(...))` has one possible result |
| Axis.AxisOfSameBuckets | app.py:97 | the axis depends only on the set of buckets, not on column order or repetition |
| Decimal.NatToString | app.py:99 | `str(n)` is a non-empty digit string with no leading zero, one character long exactly below 10 |
| Decimal.DigitsValueOfNatToString | app.py:99 | reading the digits of `str(n)` gives back `n` |
| Decimal.NatToStringInjective | app.py:99 | different numbers render to different strings |
| Decimal.ZFill | app.py:99 | `zfill(w)` keeps the digits as a suffix, prefixes only zeros up to width `w`, and leaves the value unchanged |
| Decimal.LeadingZerosValue | app.py:99 | leading zeros do not change the value of a digit string |
| Decimal.ParseNat | app.py:99 | a string parses as a number exactly when it is a non-empty digit string |
| Decimal.ParseNatToString | app.py:99 | parsing `str(n)` gives `n` |
| Monthly.MonthDigits | app.py:99 | `str(month).zfill(2)` is at least two digits and reads back as the month; below 10 it is exactly two with a leading zero, from 10 on it is `str(month)` |
| Monthly.MonthLabel | app.py:99 | the label is the year's digits, a dash, then the month's digits padded to at least two; one-digit months get a leading zero |
| Monthly.FirstDash | app.py:99 | finds the first dash of a label, or reports there is none |
| Monthly.FirstDashJoin | app.py:99 | when the year part holds no dash, the first dash of the label is the joining one |
| Monthly.ParseDashJoined | app.py:99 | two numbers' digits joined by a dash read back as that pair |
| Monthly.DashAfterYear | app.py:99 | the first dash of a monthly label is the one right after the year |
| Monthly.MonthLabelRoundTrip | app.py:99 | parsing a monthly label gives back its `(year, month)` |
| Monthly.MonthLabelInjective | app.py:99 | different months get different labels |
| Monthly.MonthKey | app.py:97 | the monthly sort key is the integer pair `(year, month)` |
| Monthly.MonthKeyOrder | app.py:97 | month keys compare by year first, then by month |
| Monthly.MonthKeyInjective | app.py:97 | different `(year, month)` buckets have different sort keys |
| Monthly.MonthlyShape | app.py:97-99 | the monthly sort key and label form a valid bucket shape |
| Monthly.MonthlyAxis | app.py:97 | the monthly axis holds exactly the column keys' `(year, month)` pairs, strictly ascending by year, then month |
| Monthly.MonthlyLabelsDistinct | app.py:97-99 | the x labels of a monthly figure are pairwise different |
| Monthly.UpdateGraph | app.py:79-137 | the monthly figure has one x label per axis month, in axis order, each that month's `YYYY-MM` label |
| Monthly.CatAxis | app.py:97 | columns for 2020-1 and 2020-2 give the two-month axis in that order |
| Monthly.CatLabels | app.py:99 | months 2020-1 and 2020-2 are labelled "2020-01" and "2020-02" |
| Monthly.CatAxisLabels | app.py:99 | the example axis is labelled "2020-01", "2020-02" |
| Monthly.CatSeries | app.py:104-110 | "cat" in "A" reads the cells 5 and 7; in "B", which has no columns, it reads 0 and 0 |
| Monthly.CatScenario | app.py:97-115 | "cat" counted 5 and 7 in "A" gives the labels 2020-01, 2020-02 and one trace with values [5, 7] |
| Monthly.DogScenario | app.py:116-118 | the word "dog", missing from the table, gives no trace and one marker |
| Monthly.AbsentCategoryScenario | app.py:104-110 | category "B", which has no columns, gives a trace of two zeros |
| Yearly.YearKey | app.py:165 | the yearly sort key is the one-field key `(year)` |
| Yearly.YearKeyOrder | app.py:165 | year keys compare as the years do |
| Yearly.YearLabel | app.py:168 | the yearly label is `str(year)`: a digit string with no leading zero that parses back to the year |
| Yearly.YearLabelInjective | app.py:168 | different years get different labels |
| Yearly.YearKeyInjective | app.py:165 | different years have different sort keys |
| Yearly.YearlyShape | app.py:165-168 | the yearly sort key and label form a valid bucket shape |
| Yearly.YearlyAxis | app.py:165 | the yearly axis holds exactly the column keys' years, strictly ascending |
| Yearly.YearlyLabelsDistinct | app.py:165-168 | the x labels of a yearly figure are pairwise different |
| Yearly.UpdateYearlyGraph | app.py:145-205 | the yearly figure has one x label per axis year, in axis order, each that year's `str(year)` label, which parses back to the year |
| Extractor.Labels | app.py:99 | one x label per axis bucket, in axis order, each the bucket's display form |
| Extractor.Cell | app.py:106-110 | the cell at the word and the `(bucket, category)` column when some column key equals it, otherwise the fill value |
| Extractor.Series | app.py:104-110 | a series has one value per axis bucket: the table's cell where the `(bucket, category)` column exists, otherwise zero; no bucket is skipped |
| Extractor.WordTraces | app.py:103-115 | a found word gives exactly one trace per selected category |
| Extractor.WordTracesAt | app.py:103-115 | the j-th trace of a found word is for the j-th selected category, with the shared labels and that category's series |
| Extractor.Trace.Name | app.py:114 | a trace is named `<word> in <category>` |
| Extractor.NotFound.Text | app.py:117 | the annotation reads `<word> not found` |
| Extractor.Found | app.py:101-102 | every found word is a table row, and there are no more found words than requested words |
| Extractor.FoundMembers | app.py:101-102 | a word is found exactly when it is requested and is a table row |
| Extractor.Missing | app.py:116-118 | every marker is for a word that is not a row, and there are no more markers than requested words |
| Extractor.MissingMembers | app.py:116-118 | a word has a marker exactly when it is requested and is not a table row |
| Extractor.MissingCount | app.py:101-118 | found words plus markers account for every requested word, each exactly once |
| Extractor.FoundTracesLength | app.py:101-115 | the found words contribute `|cats|` traces each |
| Extractor.FoundTracesShape | app.py:101-115 | every trace is for one of the found words and a selected category, with the shared labels and one value per bucket |
| Extractor.StartIsProduct | app.py:101-115 | the traces of the i-th found word start at `i * |cats|` |
| Extractor.FoundTracesAt | app.py:101-115 | in the found words' traces, number `i*|cats|+j` is the i-th word in the j-th category |
| Extractor.Traces | app.py:101-115 | there are found-words × categories traces; each is for a row word and a selected category, and carries the shared labels and as many values as buckets |
| Extractor.Extract | app.py:97-118 | one label per axis bucket in axis order; every trace has exactly the axis length; counts of traces and markers as above |
| Extractor.TraceAt | app.py:101-115 | trace number `i*|cats|+j` is the i-th found word in the j-th category: traces are ordered by word, then category |
| Extractor.FoundConcat | app.py:101-102 | the found words of `a + b` are those of `a` followed by those of `b` |
| Extractor.MissingConcat | app.py:116-118 | the markers of `a + b` are those of `a` followed by those of `b` |
| Extractor.FoundTracesConcat | app.py:101-115 | the traces of found words `a + b` are those of `a` followed by those of `b` |
| Extractor.TracesConcat | app.py:101-115 | the traces of `a + b` are those of `a` followed by those of `b` |
| Extractor.ExtractConcat | app.py:101-118 | words are processed independently; an unknown word does not stop later words from being drawn |
| Extractor.UnknownWord | app.py:116-118 | a word absent from the rows yields no trace and exactly one marker, however many categories are selected |
| Extractor.KnownWord | app.py:102-115 | a word among the rows yields no marker and one trace per selected category, in order |
| Extractor.AbsentCategoryIsZero | app.py:106-110 | a category with no column gives an all-zero series as long as the axis |
| Extractor.BuildSeries | app.py:104-110 | the source's inner loop over the axis computes exactly `Series` |
| Extractor.BuildWordTraces | app.py:103-115 | the source's loop over categories computes exactly `WordTraces` |
| Extractor.StepWord | app.py:101-118 | one more word appends either its traces or its marker |
| Extractor.OneWord | app.py:101-118 | a single requested word yields its traces and no marker when it is a row, and no trace and one marker otherwise |
| Extractor.BuildChart | app.py:97-118 | the source's word loop builds exactly the chart `Extract` defines |
| Dashboard.Render | app.py:79-131 | the figure's y-axis is reversed exactly for `'rank'`; traces and markers are counted as above; every trace is for a parsed, clean word that is a row of the picked table, in a selected category, aligned with the labels |
| Dashboard.TracesOfParsedWords | app.py:101-115 | every trace is for one of the requested words |
| Dashboard.CommaSeparatedInput | app.py:81-118 | the figure for input `a,b` holds the traces and markers of `a` followed by those of `b`, on the same axis |
| Dashboard.BlankInput | app.py:81-118 | an input of only commas and whitespace draws no trace and no marker |

## Left out

- Loading the six CSV tables over the network (app.py:20-34). The tables are
  inputs to the model.
- The Dash app, its layout widgets, the callback wiring and `run_server`
  (app.py:38-78, 138-144, 207-208). The dropdown's five subreddit names are
  not fixed in the model; categories are any strings.
- The plotly objects: trace mode, annotation position, font and colour, chart
  and x-axis titles, tick angle, legend title (app.py:94, 115-135). A trace is
  modelled as `(word, category, labels, values)` and an annotation as a
  marker holding the word.
- The `,.2%` tick format for proportions (app.py:131), and the numeric
  meaning of cell values: cells are of an arbitrary type `V`.
- Header cells that pandas reads as strings: year and month are modelled as
  natural numbers. Two header strings with the same integer value (such as
  "1" and "01") would be separate buckets in the source, with the same sort key.
  The model requires the sort key to be injective on buckets, which holds for
  integer fields.
- The sign handling of Python's `zfill`: months are non-negative, so it never
  applies.
- A `None` word field (`input_words.split` would raise) and duplicate row
  keys (where `df.loc` would return a series): the field is a string and rows
  form a set.
- Purity and idempotence are not separate lemmas: every operation is a
  function of its inputs.
