/**
 * The "Topic Trend per Month" chart: the month-by-topic pivot of the rows the backend returns
 * (one row per month and topic with a tweet count), the fallback that keeps the selected year
 * among the fetched years, the month-name tick labels and the line colours.
 */
module TopicTrendMonth {
  import opened Wrappers
  import opened Strings

  /** One row of `json.data`: the two-digit month of the tweet date, a topic and a count. */
  datatype Row = Row(month: string, topic: string, count: int)

  /** One element of the chart data: `{ month, [topic]: value, ... }`. */
  datatype Entry = Entry(month: string, values: map<string, int>)

  predicate NoDuplicates(xs: seq<string>) {
    forall i, j :: 0 <= i < j < |xs| ==> xs[i] != xs[j]
  }

  // ---------------------------------------------------------------- grouping the rows

  /** The `topic` of every row, in order. */
  function TopicsOf(rows: seq<Row>): seq<string> {
    if rows == [] then [] else TopicsOf(rows[..|rows| - 1]) + [rows[|rows| - 1].topic]
  }

  /** The `month` of every row, in order. */
  function MonthsOf(rows: seq<Row>): seq<string> {
    if rows == [] then [] else MonthsOf(rows[..|rows| - 1]) + [rows[|rows| - 1].month]
  }

  /** Adding values to a JavaScript `Set` and reading it back: each value once, at its first occurrence. */
  function Dedup(xs: seq<string>): (r: seq<string>)
    ensures NoDuplicates(r)
  {
    if xs == [] then []
    else
      var prev := Dedup(xs[..|xs| - 1]);
      var x := xs[|xs| - 1];
      if x in prev then prev else prev + [x]
  }

  /** The set keeps every value added to it and no other. */
  lemma {:induction false} DedupMembers(xs: seq<string>, y: string)
    ensures y in Dedup(xs) <==> y in xs
    decreases |xs|
  {
    if xs != [] {
      DedupMembers(xs[..|xs| - 1], y);
      assert xs == xs[..|xs| - 1] + [xs[|xs| - 1]];
    }
  }

  /** The `grouped` object: for each month, each topic's count, a later row replacing an earlier one. */
  function Grouped(rows: seq<Row>): map<string, map<string, int>> {
    if rows == [] then map[]
    else
      var g := Grouped(rows[..|rows| - 1]);
      var r := rows[|rows| - 1];
      var cells := if r.month in g then g[r.month] else map[];
      g[r.month := cells[r.topic := r.count]]
  }

  /** The count of the last row with this month and topic, if there is one. */
  function LastCount(rows: seq<Row>, month: string, topic: string): Option<int> {
    if rows == [] then None
    else if rows[|rows| - 1].month == month && rows[|rows| - 1].topic == topic then Some(rows[|rows| - 1].count)
    else LastCount(rows[..|rows| - 1], month, topic)
  }

  lemma {:induction false} TopicsOfMembers(rows: seq<Row>, t: string)
    ensures t in TopicsOf(rows) <==> exists i :: 0 <= i < |rows| && rows[i].topic == t
    decreases |rows|
  {
    if rows != [] {
      var init := rows[..|rows| - 1];
      TopicsOfMembers(init, t);
      assert t in TopicsOf(rows) <==> t in TopicsOf(init) || rows[|rows| - 1].topic == t;
      if exists i :: 0 <= i < |rows| && rows[i].topic == t {
        var i :| 0 <= i < |rows| && rows[i].topic == t;
        if i < |init| { assert init[i] == rows[i]; }
      }
      if exists i :: 0 <= i < |init| && init[i].topic == t {
        var i :| 0 <= i < |init| && init[i].topic == t;
        assert rows[i] == init[i];
      }
    }
  }

  lemma {:induction false} MonthsOfMembers(rows: seq<Row>, m: string)
    ensures m in MonthsOf(rows) <==> exists i :: 0 <= i < |rows| && rows[i].month == m
    decreases |rows|
  {
    if rows != [] {
      var init := rows[..|rows| - 1];
      MonthsOfMembers(init, m);
      assert m in MonthsOf(rows) <==> m in MonthsOf(init) || rows[|rows| - 1].month == m;
      if exists i :: 0 <= i < |rows| && rows[i].month == m {
        var i :| 0 <= i < |rows| && rows[i].month == m;
        if i < |init| { assert init[i] == rows[i]; }
      }
      if exists i :: 0 <= i < |init| && init[i].month == m {
        var i :| 0 <= i < |init| && init[i].month == m;
        assert rows[i] == init[i];
      }
    }
  }

  /** `grouped` has a key for exactly the months that occur. */
  lemma {:induction false} GroupedMonths(rows: seq<Row>, m: string)
    ensures m in Grouped(rows) <==> m in MonthsOf(rows)
    decreases |rows|
  {
    if rows != [] {
      GroupedMonths(rows[..|rows| - 1], m);
    }
  }

  /** A cell of `grouped` holds the count of the last row for its month and topic, and no cell is invented. */
  lemma {:induction false} GroupedLastCount(rows: seq<Row>, m: string, t: string)
    ensures LastCount(rows, m, t) == if m in Grouped(rows) && t in Grouped(rows)[m] then Some(Grouped(rows)[m][t]) else None
    decreases |rows|
  {
    if rows != [] {
      GroupedLastCount(rows[..|rows| - 1], m, t);
    }
  }

  // ---------------------------------------------------------------- sorting

  predicate Ascending(xs: seq<string>) {
    forall i :: 0 <= i < |xs| - 1 ==> LexLess(xs[i], xs[i + 1])
  }

  function InsertTopic(x: string, xs: seq<string>): (r: seq<string>)
    requires Ascending(xs) && x !in xs
    ensures |r| == |xs| + 1 && Ascending(r)
    ensures forall y :: y in r <==> y == x || y in xs
    ensures r[0] == x || (xs != [] && r[0] == xs[0])
  {
    if xs == [] then [x]
    else if LexLess(xs[0], x) then
      var rest := InsertTopic(x, xs[1..]);
      assert xs == [xs[0]] + xs[1..];
      assert rest[0] == x || rest[0] == xs[1];
      [xs[0]] + rest
    else
      LexLessTotal(x, xs[0]);
      [x] + xs
  }

  /** `Array.prototype.sort()` with no comparator on distinct strings: ascending, nothing gained or lost. */
  function SortTopics(xs: seq<string>): (r: seq<string>)
    requires NoDuplicates(xs)
    ensures |r| == |xs| && Ascending(r)
    ensures forall y :: y in r <==> y in xs
  {
    if xs == [] then []
    else
      assert xs == [xs[0]] + xs[1..];
      InsertTopic(xs[0], SortTopics(xs[1..]))
  }

  /** `parseInt(month, 10)`, where it is a number. */
  function MonthValue(month: string): int {
    match ParseInt(month)
    case Some(v) => v
    case None => 0
  }

  predicate DistinctKeys(key: string -> int, xs: seq<string>) {
    forall i, j :: 0 <= i < j < |xs| ==> key(xs[i]) != key(xs[j])
  }

  predicate ByKey(key: string -> int, xs: seq<string>) {
    forall i :: 0 <= i < |xs| - 1 ==> key(xs[i]) < key(xs[i + 1])
  }

  function InsertByKey(key: string -> int, x: string, xs: seq<string>): (r: seq<string>)
    requires ByKey(key, xs) && forall y :: y in xs ==> key(y) != key(x)
    ensures |r| == |xs| + 1 && ByKey(key, r)
    ensures forall y :: y in r <==> y == x || y in xs
    ensures r[0] == x || (xs != [] && r[0] == xs[0])
  {
    if xs == [] then [x]
    else if key(xs[0]) < key(x) then
      assert xs == [xs[0]] + xs[1..];
      var rest := InsertByKey(key, x, xs[1..]);
      assert rest[0] == x || rest[0] == xs[1];
      [xs[0]] + rest
    else
      [x] + xs
  }

  /**
   * A sort whose comparator is `key(a) - key(b)`, on strings with distinct keys: ascending by key,
   * nothing gained or lost.
   */
  function SortByKey(key: string -> int, xs: seq<string>): (r: seq<string>)
    requires DistinctKeys(key, xs)
    ensures |r| == |xs| && ByKey(key, r)
    ensures forall y :: y in r <==> y in xs
  {
    if xs == [] then []
    else
      assert xs == [xs[0]] + xs[1..];
      var rest := SortByKey(key, xs[1..]);
      assert forall y :: y in rest ==> key(y) != key(xs[0]) by {
        forall y | y in rest ensures key(y) != key(xs[0]) {
          var j :| 0 <= j < |xs[1..]| && xs[1..][j] == y;
          assert xs[j + 1] == y;
        }
      }
      InsertByKey(key, xs[0], rest)
  }

  // ---------------------------------------------------------------- the pivot

  /**
   * What the month comparator needs to be a consistent order: every month reads as a number and
   * different months read as different numbers. The months the backend sends, two-digit
   * substrings of ISO dates, are such.
   */
  predicate MonthsComparable(rows: seq<Row>) {
    (forall i :: 0 <= i < |rows| ==> ParseInt(rows[i].month).Some?)
    && (forall i, j :: 0 <= i < |rows| && 0 <= j < |rows| && MonthValue(rows[i].month) == MonthValue(rows[j].month)
          ==> rows[i].month == rows[j].month)
  }

  /** `allTopics`: the distinct topics, sorted. */
  function AllTopics(rows: seq<Row>): seq<string> {
    SortTopics(Dedup(TopicsOf(rows)))
  }

  /** The months of the chart, in the order of `formatted`. */
  function ChartMonths(rows: seq<Row>): seq<string>
    requires MonthsComparable(rows)
  {
    var ms := Dedup(MonthsOf(rows));
    DistinctMonthValues(rows);
    SortByKey(MonthValue, ms)
  }

  /** `topicsObj[topic] || 0` for every topic of the rows (`allTopics`): the keys every entry carries. */
  function Cells(grouped: map<string, map<string, int>>, month: string, topics: seq<string>): map<string, int> {
    map t | t in topics :: if month in grouped && t in grouped[month] then grouped[month][t] else 0
  }

  /** `formatted`: one entry per month in ascending order, with a value for every topic. */
  function Formatted(rows: seq<Row>): seq<Entry>
    requires MonthsComparable(rows)
  {
    var months := ChartMonths(rows);
    var topics := AllTopics(rows);
    var grouped := Grouped(rows);
    seq(|months|, k requires 0 <= k < |months| => Entry(months[k], Cells(grouped, months[k], topics)))
  }

  lemma DistinctMonthValues(rows: seq<Row>)
    requires MonthsComparable(rows)
    ensures DistinctKeys(MonthValue, Dedup(MonthsOf(rows)))
  {
    var ms := Dedup(MonthsOf(rows));
    forall i, j | 0 <= i < j < |ms| ensures MonthValue(ms[i]) != MonthValue(ms[j]) {
      DedupMembers(MonthsOf(rows), ms[i]);
      DedupMembers(MonthsOf(rows), ms[j]);
      MonthsOfMembers(rows, ms[i]);
      MonthsOfMembers(rows, ms[j]);
      var a :| 0 <= a < |rows| && rows[a].month == ms[i];
      var b :| 0 <= b < |rows| && rows[b].month == ms[j];
    }
  }

  /** `allTopics`, the keys every entry carries, are the distinct topics of the rows, each once, in ascending order. */
  lemma AllTopicsSpec(rows: seq<Row>, t: string)
    ensures Ascending(AllTopics(rows))
    ensures t in AllTopics(rows) <==> exists i :: 0 <= i < |rows| && rows[i].topic == t
  {
    TopicsOfMembers(rows, t);
    DedupMembers(TopicsOf(rows), t);
  }

  /** One entry per distinct month, in strictly ascending numeric order. */
  lemma FormattedMonths(rows: seq<Row>, m: string)
    requires MonthsComparable(rows)
    ensures var f := Formatted(rows);
      (forall k :: 0 <= k < |f| - 1 ==> MonthValue(f[k].month) < MonthValue(f[k + 1].month))
      && ((exists k :: 0 <= k < |f| && f[k].month == m) <==> exists i :: 0 <= i < |rows| && rows[i].month == m)
  {
    var f := Formatted(rows);
    var months := ChartMonths(rows);
    assert forall k :: 0 <= k < |f| ==> f[k].month == months[k];
    MonthsOfMembers(rows, m);
    DedupMembers(MonthsOf(rows), m);
    if m in months {
      var k :| 0 <= k < |months| && months[k] == m;
      assert f[k].month == m;
    }
  }

  /**
   * Every entry has a value for exactly the topics of the rows (`allTopics`): the count of the last row with that
   * month and topic, or 0 when there is none.
   */
  lemma FormattedCell(rows: seq<Row>, k: nat, t: string)
    requires MonthsComparable(rows) && k < |Formatted(rows)|
    ensures var e := Formatted(rows)[k];
      (t in e.values <==> t in AllTopics(rows))
      && (t in e.values ==> e.values[t] == match LastCount(rows, e.month, t) case Some(c) => c case None => 0)
  {
    GroupedLastCount(rows, Formatted(rows)[k].month, t);
  }

  /** Reading one more row. */
  lemma RowStep(rows: seq<Row>, i: nat)
    requires i < |rows|
    ensures TopicsOf(rows[..i + 1]) == TopicsOf(rows[..i]) + [rows[i].topic]
    ensures MonthsOf(rows[..i + 1]) == MonthsOf(rows[..i]) + [rows[i].month]
    ensures Grouped(rows[..i + 1]) == var g := Grouped(rows[..i]);
      var cells := if rows[i].month in g then g[rows[i].month] else map[];
      g[rows[i].month := cells[rows[i].topic := rows[i].count]]
  {
    assert rows[..i + 1][..i] == rows[..i];
  }

  lemma DedupStep(xs: seq<string>, x: string)
    ensures Dedup(xs + [x]) == if x in Dedup(xs) then Dedup(xs) else Dedup(xs) + [x]
  {
    assert (xs + [x])[..|xs|] == xs;
  }

  /** Setting a key twice keeps the second value only. */
  lemma Overwrite(g: map<string, map<string, int>>, k: string, v: map<string, int>)
    ensures g[k := map[]][k := v] == g[k := v]
  {
  }

  /** The grouping of the rows followed by the sort and `map` that build `formatted`. */
  method Pivot(rows: seq<Row>) returns (allTopics: seq<string>, formatted: seq<Entry>)
    requires MonthsComparable(rows)
    ensures allTopics == AllTopics(rows) && formatted == Formatted(rows)
  {
    var topicSet, monthKeys, grouped := Tally(rows);
    allTopics := SortTopics(topicSet);
    DistinctMonthValues(rows);
    var months := SortByKey(MonthValue, monthKeys);
    formatted := seq(|months|, k requires 0 <= k < |months| => Entry(months[k], Cells(grouped, months[k], allTopics)));
  }

  /**
   * The `forEach` over `json.data`: each row adds its topic to `topicSet`, creates its month's
   * object in `grouped` if there is none (`monthKeys` keeps the order in which keys were created)
   * and sets its topic's count there. `Object.entries(grouped)` would list integer-like keys first,
   * in ascending order, so `monthKeys` is not its order; the pivot sorts the months by a key that
   * differs for different months (`DistinctMonthValues`), and `SortByKey` then has one result
   * whatever order the months come in.
   */
  method Tally(rows: seq<Row>) returns (topicSet: seq<string>, monthKeys: seq<string>, grouped: map<string, map<string, int>>)
    ensures topicSet == Dedup(TopicsOf(rows))
    ensures monthKeys == Dedup(MonthsOf(rows))
    ensures grouped == Grouped(rows)
  {
    topicSet, monthKeys, grouped := [], [], map[];
    var i := 0;
    while i < |rows|
      invariant 0 <= i <= |rows|
      invariant topicSet == Dedup(TopicsOf(rows[..i]))
      invariant monthKeys == Dedup(MonthsOf(rows[..i]))
      invariant grouped == Grouped(rows[..i])
    {
      var r := rows[i];
      ghost var topics, months := TopicsOf(rows[..i]), MonthsOf(rows[..i]);
      if r.topic !in topicSet {
        topicSet := topicSet + [r.topic];
      }
      assert topicSet == Dedup(TopicsOf(rows[..i + 1])) by {
        RowStep(rows, i);
        DedupStep(topics, r.topic);
      }
      ghost var before := grouped;
      ghost var cells := if r.month in grouped then grouped[r.month] else map[];
      if r.month !in grouped {
        grouped := grouped[r.month := map[]];
        monthKeys := monthKeys + [r.month];
      }
      assert monthKeys == Dedup(MonthsOf(rows[..i + 1])) by {
        RowStep(rows, i);
        DedupStep(months, r.month);
        GroupedMonths(rows[..i], r.month);
        DedupMembers(months, r.month);
      }
      assert grouped[r.month] == cells;
      grouped := grouped[r.month := grouped[r.month][r.topic := r.count]];
      assert grouped == Grouped(rows[..i + 1]) by {
        RowStep(rows, i);
        Overwrite(before, r.month, cells[r.topic := r.count]);
      }
      i := i + 1;
    }
    assert rows[..i] == rows;
  }

  // ---------------------------------------------------------------- the selected year

  /**
   * The year after the topics and years have been fetched: kept when it is among the years,
   * otherwise `years.at(-1) || "2019"`, so the last year unless there is none or it is `''`.
   */
  function YearAfterFetch(years: seq<string>, year: string): (y: string)
    ensures year in years ==> y == year
    ensures year !in years ==> y == if years != [] && years[|years| - 1] != "" then years[|years| - 1] else "2019"
  {
    if year in years then year
    else if years != [] && years[|years| - 1] != "" then years[|years| - 1]
    else "2019"
  }

  /** Fetching again with the year the fetch chose changes nothing: the effect reaches a fixed point. */
  lemma YearSettles(years: seq<string>, year: string)
    ensures YearAfterFetch(years, YearAfterFetch(years, year)) == YearAfterFetch(years, year)
  {
  }

  /** With a usable last year, the selected year always ends up among the fetched years. */
  lemma YearAmongFetched(years: seq<string>, year: string)
    requires years != [] && years[|years| - 1] != ""
    ensures YearAfterFetch(years, year) in years
  {
  }

  // ---------------------------------------------------------------- axis labels and colours

  const MonthNames: seq<string> := ["Jan", "Feb", "Mar", "Apr", "May", "Jun", "Jul", "Aug", "Sep", "Oct", "Nov", "Dec"]

  /** The tick formatter: `monthNames[parseInt(month, 10) - 1] || month`. */
  function TickLabel(month: string): string {
    LabelFor(ParseInt(month), month)
  }

  /** The label for a month that `parseInt` read as `v`: a month name for 1 to 12, else the text. */
  function LabelFor(v: Option<int>, month: string): string {
    if v.Some? && 1 <= v.value <= 12 then MonthNames[v.value - 1] else month
  }

  /** A month number written with at least two digits, the way the dates store it. */
  function Padded(n: nat): (s: string)
    ensures s != "" && AllDigits(s) && DigitsValue(s) == n
  {
    ShowNatValue(n);
    if n < 10 then
      LeadingZeroValue(ShowNat(n));
      "0" + ShowNat(n)
    else ShowNat(n)
  }

  /** "01" to "12" become "Jan" to "Dec"; every other number is shown as it is. */
  lemma TickLabelPadded(n: nat)
    ensures TickLabel(Padded(n)) == if 1 <= n <= 12 then MonthNames[n - 1] else Padded(n)
  {
    var s := Padded(n);
    assert ParseInt(s) == Some(n) by {
      ParseIntDigits(s);
    }
  }

  /** Unpadded month numbers "1" to "12" are named too; every other number is shown as it is. */
  lemma TickLabelUnpadded(n: nat)
    ensures TickLabel(ShowNat(n)) == if 1 <= n <= 12 then MonthNames[n - 1] else ShowNat(n)
  {
    ParseIntShowNat(n);
  }

  /** A label that does not read as a number is shown as it is. */
  lemma TickLabelNotNumeric(month: string)
    requires month == "" || !(IsDigit(month[0]) || IsSpace(JsSpace, month[0]) || month[0] == '-' || month[0] == '+')
    ensures TickLabel(month) == month
  {
    if month != "" {
      assert TrimStart(JsSpace, month) == month;
    }
  }

  /** The hue of the line drawn for the topic at position `idx` of the legend. */
  function Hue(idx: nat): (h: nat)
    ensures h < 360
  {
    (idx * 80) % 360
  }

  /** The hues repeat every nine lines ... */
  lemma HuePeriod(idx: nat)
    ensures Hue(idx + 9) == Hue(idx)
  {
    var x := idx * 80;
    assert (idx + 9) * 80 == x + 360 + 360;
    ModShift(x);
    ModShift(x + 360);
  }

  lemma ModShift(x: nat)
    ensures (x + 360) % 360 == x % 360
  {
  }

  /** ... and nine consecutive lines all have different hues. */
  lemma HueDistinct(i: nat, j: nat)
    requires i < j < i + 9
    ensures Hue(i) != Hue(j)
  {
    var d := j - i;
    var q := (i * 80) / 360;
    assert i * 80 == 360 * q + Hue(i);
    assert j * 80 == 360 * q + Hue(i) + 80 * d;
  }

  // ---------------------------------------------------------------- the component

  /** The chart's state: the fetched years and topics, the selections and the chart data. */
  class TopicTrendChart {
    var years: seq<string>
    var year: string
    var author: string
    var data: seq<Entry>
    var topics: seq<string>

    constructor ()
      ensures years == [] && year == "2019" && author == "All" && data == [] && topics == []
    {
      years, year, author, data, topics := [], "2019", "All", [], [];
    }

    /** `fetchTopicsAndYears` once both replies are in: store them and move the year if it is not among them. */
    method FetchTopicsAndYears(topicsReply: seq<string>, yearsReply: seq<string>)
      modifies this
      ensures topics == topicsReply && years == yearsReply
      ensures year == YearAfterFetch(yearsReply, old(year))
      ensures author == old(author) && data == old(data)
    {
      topics := topicsReply;
      years := yearsReply;
      if year !in yearsReply {
        year := if yearsReply != [] && yearsReply[|yearsReply| - 1] != "" then yearsReply[|yearsReply| - 1] else "2019";
      }
    }

    /** `fetchData` once the rows are in: the chart data becomes their pivot. */
    method FetchData(rows: seq<Row>)
      requires MonthsComparable(rows)
      modifies this
      ensures data == Formatted(rows)
      ensures years == old(years) && year == old(year) && author == old(author) && topics == old(topics)
    {
      var allTopics, formatted := Pivot(rows);
      data := formatted;
    }
  }
}
