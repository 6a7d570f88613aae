/**
 * The datasets the dashboard derives from sales.csv: the category bar chart
 * with its tooltip percentage, the monthly sales line, the per-country map
 * data with its top-ten list, and the top-ten products.
 */
module Dashboard {
  import opened Options
  import opened Dates
  import opened Rollups
  import opened StableSort
  import opened GeoJoin

  /** One row of sales.csv, with +d.sales already a number and order_date already parsed. */
  datatype Row = Row(category: string, sales: real, orderDate: Date, country: string, productName: string)

  function Sales(d: Row): real { d.sales }
  function Category(d: Row): string { d.category }
  function Country(d: Row): string { d.country }
  function Product(d: Row): string { d.productName }

  /** d3.timeMonth(parseDate(d.order_date)), the key of the monthly rollup. */
  function OrderMonth(d: Row): Month { MonthOf(d.orderDate) }

  /** The comparator (a, b) => b.totalSales - a.totalSales orders by this score ascending. */
  function ByTotalDescending<K>(e: Entry<K>): real { -e.total }

  /** The comparator (a, b) => a.date - b.date orders month keys by this score ascending. */
  function ByDate(e: Entry<Month>): real { MonthOrdinal(e.key) as real }

  /** The length of the top lists, .slice(0, 10). */
  const TopN: nat := 10

  /** A rollup of the sales by key, sorted by total sales, largest first. */
  function Ranking<K(==)>(data: seq<Row>, key: Row -> K): seq<Entry<K>>
  {
    SortBy(Rollup(data, key, Sales), ByTotalDescending)
  }

  /** The first TopN entries of the ranking. */
  function TopTen<K(==)>(data: seq<Row>, key: Row -> K): seq<Entry<K>>
  {
    Take(Ranking(data, key), TopN)
  }

  /** chartData: the categories by total sales, largest first. */
  function ChartData(data: seq<Row>): seq<Entry<string>>
  {
    Ranking(data, Category)
  }

  /** salesTimeData: the monthly totals in calendar order. */
  function SalesTimeData(data: seq<Row>): seq<Entry<Month>>
  {
    SortBy(Rollup(data, OrderMonth, Sales), ByDate)
  }

  /** salesData: the country totals in order of first appearance, which the map joins against. */
  function SalesData(data: seq<Row>): seq<Entry<string>>
  {
    Rollup(data, Country, Sales)
  }

  /** topCountriesData. */
  function TopCountriesData(data: seq<Row>): seq<Entry<string>>
  {
    TopTen(data, Country)
  }

  /** topProductsData. */
  function TopProductsData(data: seq<Row>): seq<Entry<string>>
  {
    TopTen(data, Product)
  }

  /**
   * The bar tooltip's percentage, d.totalSales / d3.sum(chartData, d =>
   * d.totalSales) * 100 before toFixed(1). With a zero denominator the
   * division has no real value, and the result is None.
   */
  function Percentage(chartData: seq<Entry<string>>, d: Entry<string>): (r: Option<real>)
    ensures r.Some? <==> SumOf(chartData, TotalOf) != 0.0
  {
    var total := SumOf(chartData, TotalOf);
    if total == 0.0 then None else Some(Percent(d.total, total))
  }

  /** part / whole * 100, the expression inside toFixed(1). */
  function Percent(part: real, whole: real): real
    requires whole != 0.0
  {
    part / whole * 100.0
  }

  /** The percentage p of d answers p% of the sum of all bars is d's total. */
  lemma PercentageMeaning(chartData: seq<Entry<string>>, d: Entry<string>)
    ensures Percentage(chartData, d).Some? ==>
      Percentage(chartData, d).value * SumOf(chartData, TotalOf) == 100.0 * d.total
  {
  }

  // ---------------------------------------------------------------------------
  // The ranked lists
  // ---------------------------------------------------------------------------

  /**
   * A ranking reports every key once with the sum of its rows' sales, as
   * many entries as there are distinct keys, largest total first, ties in
   * the order in which their keys first appear in the data, and loses no
   * sales.
   */
  lemma RankingCorrect<K>(data: seq<Row>, key: Row -> K)
    ensures Summarises(data, key, Sales, Ranking(data, key))
    ensures multiset(Ranking(data, key)) == multiset(Rollup(data, key, Sales))
    ensures |Ranking(data, key)| == |KeyImage(data, key)|
    ensures var r := Ranking(data, key);
      forall i, j :: 0 <= i < j < |r| ==> r[i].total >= r[j].total
    ensures var r := Ranking(data, key);
      forall i, j :: 0 <= i < j < |r| && r[i].total == r[j].total ==>
        FirstIndex(data, key, r[i].key) < FirstIndex(data, key, r[j].key)
    ensures SumOf(Ranking(data, key), TotalOf) == SumOf(data, Sales)
  {
    RankingSummarises(data, key);
    RankingDescending(data, key);
    RankingTies(data, key);
  }

  lemma RankingSummarises<K>(data: seq<Row>, key: Row -> K)
    ensures Summarises(data, key, Sales, Ranking(data, key))
    ensures multiset(Ranking(data, key)) == multiset(Rollup(data, key, Sales))
    ensures |Ranking(data, key)| == |KeyImage(data, key)|
    ensures SumOf(Ranking(data, key), TotalOf) == SumOf(data, Sales)
  {
    var t := Rollup(data, key, Sales);
    var r := Ranking(data, key);
    RollupCorrect(data, key, Sales);
    SortByCorrect(t, ByTotalDescending);
    SummarisesPermutation(data, key, Sales, t, r);
    KeySetSize(r);
    RollupPreservesTotal(data, key, Sales);
    SumOfPermutation(t, r, TotalOf);
  }

  lemma RankingDescending<K>(data: seq<Row>, key: Row -> K)
    ensures var r := Ranking(data, key);
      forall i, j :: 0 <= i < j < |r| ==> r[i].total >= r[j].total
  {
    var r := Ranking(data, key);
    SortByCorrect(Rollup(data, key, Sales), ByTotalDescending);
    forall i, j | 0 <= i < j < |r| ensures r[i].total >= r[j].total {
      assert ByTotalDescending(r[i]) <= ByTotalDescending(r[j]);
    }
  }

  lemma RankingTies<K>(data: seq<Row>, key: Row -> K)
    ensures var r := Ranking(data, key);
      forall i, j :: 0 <= i < j < |r| && r[i].total == r[j].total ==>
        FirstIndex(data, key, r[i].key) < FirstIndex(data, key, r[j].key)
  {
    var t := Rollup(data, key, Sales);
    var r := Ranking(data, key);
    RollupCorrect(data, key, Sales);
    SortByCorrect(t, ByTotalDescending);
    assert Distinct(t);
    SortByKeepsTieOrder(t, ByTotalDescending);
    forall i, j | 0 <= i < j < |r| && r[i].total == r[j].total
      ensures FirstIndex(data, key, r[i].key) < FirstIndex(data, key, r[j].key)
    {
      assert r[i] in multiset(t) && r[j] in multiset(t);
      var a :| 0 <= a < |t| && t[a] == r[i];
      var b :| 0 <= b < |t| && t[b] == r[j];
      assert ByTotalDescending(r[i]) == ByTotalDescending(r[j]);
    }
  }

  /**
   * A top-ten list holds min(10, number of keys) entries, is the head of the
   * ranking, and no entry left out has a larger total than one kept.
   */
  lemma TopTenCorrect<K>(data: seq<Row>, key: Row -> K)
    ensures |TopTen(data, key)| == if TopN <= |KeyImage(data, key)| then TopN else |KeyImage(data, key)|
    ensures TopTen(data, key) == Ranking(data, key)[..|TopTen(data, key)|]
    ensures var top, r := TopTen(data, key), Ranking(data, key);
      forall i, j :: 0 <= i < |top| <= j < |r| ==> r[j].total <= top[i].total
  {
    var top, r := TopTen(data, key), Ranking(data, key);
    RankingCorrect(data, key);
    forall i, j | 0 <= i < |top| <= j < |r| ensures r[j].total <= top[i].total {
      assert top[i] == r[i];
    }
  }

  /** The bar chart: one bar per category with its sales, largest first, ties in first-appearance order. */
  lemma ChartDataCorrect(data: seq<Row>)
    ensures Summarises(data, Category, Sales, ChartData(data))
    ensures var c := ChartData(data);
      forall i, j :: 0 <= i < j < |c| ==> c[i].total >= c[j].total
    ensures var c := ChartData(data);
      forall i, j :: 0 <= i < j < |c| && c[i].total == c[j].total ==>
        FirstIndex(data, Category, c[i].key) < FirstIndex(data, Category, c[j].key)
  {
    RankingCorrect(data, Category);
  }

  lemma TopCountriesCorrect(data: seq<Row>)
    ensures Summarises(data, Country, Sales, Ranking(data, Country))
    ensures |TopCountriesData(data)| == if TopN <= |KeyImage(data, Country)| then TopN else |KeyImage(data, Country)|
    ensures TopCountriesData(data) == Ranking(data, Country)[..|TopCountriesData(data)|]
    ensures var top, r := TopCountriesData(data), Ranking(data, Country);
      forall i, j :: 0 <= i < |top| <= j < |r| ==> r[j].total <= top[i].total
  {
    RankingCorrect(data, Country);
    TopTenCorrect(data, Country);
  }

  lemma TopProductsCorrect(data: seq<Row>)
    ensures Summarises(data, Product, Sales, Ranking(data, Product))
    ensures |TopProductsData(data)| == if TopN <= |KeyImage(data, Product)| then TopN else |KeyImage(data, Product)|
    ensures TopProductsData(data) == Ranking(data, Product)[..|TopProductsData(data)|]
    ensures var top, r := TopProductsData(data), Ranking(data, Product);
      forall i, j :: 0 <= i < |top| <= j < |r| ==> r[j].total <= top[i].total
  {
    RankingCorrect(data, Product);
    TopTenCorrect(data, Product);
  }

  // ---------------------------------------------------------------------------
  // The monthly series
  // ---------------------------------------------------------------------------

  /**
   * When every order date is a day of the calendar, the monthly series has one
   * point per month that occurs, with that month's sales, in strictly
   * increasing calendar order.
   */
  lemma SalesTimeDataCorrect(data: seq<Row>)
    requires forall i :: 0 <= i < |data| ==> ValidDate(data[i].orderDate)
    ensures Summarises(data, OrderMonth, Sales, SalesTimeData(data))
    ensures var s := SalesTimeData(data);
      forall i :: 0 <= i < |s| ==> ValidMonth(s[i].key)
    ensures var s := SalesTimeData(data);
      forall i, j :: 0 <= i < j < |s| ==> Earlier(s[i].key, s[j].key)
    ensures SumOf(SalesTimeData(data), TotalOf) == SumOf(data, Sales)
  {
    var t := Rollup(data, OrderMonth, Sales);
    var s := SalesTimeData(data);
    RollupCorrect(data, OrderMonth, Sales);
    SortByCorrect(t, ByDate);
    SummarisesPermutation(data, OrderMonth, Sales, t, s);
    RollupPreservesTotal(data, OrderMonth, Sales);
    SumOfPermutation(t, s, TotalOf);
    forall i | 0 <= i < |s| ensures ValidMonth(s[i].key) {
      assert s[i].key in KeySet(s);
      var m :| 0 <= m < |data| && OrderMonth(data[m]) == s[i].key;
    }
    forall i, j | 0 <= i < j < |s| ensures Earlier(s[i].key, s[j].key) {
      assert s[i].key in KeySet(s) && s[j].key in KeySet(s);
      var a :| 0 <= a < |data| && OrderMonth(data[a]) == s[i].key;
      var b :| 0 <= b < |data| && OrderMonth(data[b]) == s[j].key;
      assert ByDate(s[i]) <= ByDate(s[j]);
      MonthOrdinalOrder(s[i].key, s[j].key);
    }
  }

  // ---------------------------------------------------------------------------
  // The bar tooltip
  // ---------------------------------------------------------------------------

  /** A category's share of all sales, in percent: the reference the tooltip is held to. */
  ghost function CategoryShare(data: seq<Row>, category: string): Option<real>
  {
    var whole := SumOf(data, Sales);
    if whole == 0.0 then None else Some(Percent(SumOf(WithKey(data, Category, category), Sales), whole))
  }

  /**
   * The tooltip's denominator is the sum of all sales, so a bar's
   * percentage is its category's share of all sales.
   */
  lemma PercentageIsShare(data: seq<Row>, i: nat)
    requires i < |ChartData(data)|
    ensures SumOf(ChartData(data), TotalOf) == SumOf(data, Sales)
    ensures var c := ChartData(data);
      Percentage(c, c[i]) == CategoryShare(data, c[i].key)
  {
    var c := ChartData(data);
    var whole, part := SumOf(data, Sales), SumOf(WithKey(data, Category, c[i].key), Sales);
    BarTotals(data, i);
    ShareOf(c, c[i], whole, part);
  }

  lemma BarTotals(data: seq<Row>, i: nat)
    requires i < |ChartData(data)|
    ensures SumOf(ChartData(data), TotalOf) == SumOf(data, Sales)
    ensures ChartData(data)[i].total == SumOf(WithKey(data, Category, ChartData(data)[i].key), Sales)
  {
    RankingSummarises(data, Category);
  }

  /** Percentage in terms of a known denominator and a known numerator. */
  lemma ShareOf(c: seq<Entry<string>>, d: Entry<string>, whole: real, part: real)
    requires SumOf(c, TotalOf) == whole && d.total == part
    ensures Percentage(c, d) == if whole == 0.0 then None else Some(Percent(part, whole))
  {
  }

  /** The percentages of all bars, as their tooltips show them. */
  ghost function Percentages(chartData: seq<Entry<string>>): (ps: seq<real>)
    requires SumOf(chartData, TotalOf) != 0.0
    ensures |ps| == |chartData|
    ensures forall i :: 0 <= i < |ps| ==> Percentage(chartData, chartData[i]) == Some(ps[i])
  {
    var total := SumOf(chartData, TotalOf);
    seq(|chartData|, i requires 0 <= i < |chartData| => Percent(chartData[i].total, total))
  }

  function Identity(x: real): real { x }

  /** When there are sales, the percentages of all bars add up to 100. */
  lemma PercentagesSumToHundred(data: seq<Row>)
    requires SumOf(data, Sales) != 0.0
    ensures SumOf(ChartData(data), TotalOf) != 0.0
    ensures SumOf(Percentages(ChartData(data)), Identity) == 100.0
  {
    RankingSummarises(data, Category);
    PercentagesSum(ChartData(data));
  }

  lemma PercentagesSum(c: seq<Entry<string>>)
    requires SumOf(c, TotalOf) != 0.0
    ensures SumOf(Percentages(c), Identity) == 100.0
  {
    var total := SumOf(c, TotalOf);
    var ps := Percentages(c);
    var k := 100.0 / total;
    forall i | 0 <= i < |c| ensures Identity(ps[i]) == TotalOf(c[i]) * k {
      ShareIsScaling(c[i].total, total, ps[i]);
    }
    SumOfScaled(c, TotalOf, ps, Identity, k);
    WholeIsHundred(total);
  }

  lemma ShareIsScaling(part: real, whole: real, p: real)
    requires whole != 0.0 && p == Percent(part, whole)
    ensures p == part * (100.0 / whole)
  {
  }

  lemma WholeIsHundred(whole: real)
    requires whole != 0.0
    ensures whole * (100.0 / whole) == 100.0
  {
  }

  // ---------------------------------------------------------------------------
  // The map
  // ---------------------------------------------------------------------------

  /**
   * A country on the map is coloured by, and its tooltip shows, the sum of
   * the sales of the rows with exactly its name; a country with no such row
   * is grey and reads "No data".
   */
  lemma CountryJoinCorrect(data: seq<Row>, f: Feature)
    ensures FillOf(SalesData(data), f) ==
      if f.name in KeyImage(data, Country) then Scaled(SumOf(WithKey(data, Country, f.name), Sales)) else Css("#ccc")
    ensures TooltipSales(SalesData(data), f) ==
      if f.name in KeyImage(data, Country) then Amount(SumOf(WithKey(data, Country, f.name), Sales)) else Text("No data")
  {
    var sd := SalesData(data);
    RollupCorrect(data, Country, Sales);
    JoinCorrect(sd, f);
    if f.name in KeyImage(data, Country) {
      assert f.name in KeySet(sd);
      var i :| 0 <= i < |sd| && sd[i].key == f.name;
    }
  }

  /** The colour scale's domain ends at the largest country total, which is the top country's. */
  lemma MaxIsTopCountry(data: seq<Row>)
    ensures MaxTotal(SalesData(data)).None? <==> data == []
    ensures data != [] ==> MaxTotal(SalesData(data)) == Some(TopCountriesData(data)[0].total)
  {
    var r := Ranking(data, Country);
    RankingSummarises(data, Country);
    RankingDescending(data, Country);
    if data != [] {
      assert Country(data[0]) in KeyImage(data, Country);
      MaxOfReordering(SalesData(data), r);
      assert TopCountriesData(data)[0] == r[0];
    } else {
      assert KeyImage(data, Country) == {};
    }
  }

  /** The largest total of a list is the first total of any reordering of it that is non-increasing. */
  lemma MaxOfReordering(s: seq<Entry<string>>, r: seq<Entry<string>>)
    requires multiset(s) == multiset(r) && r != []
    requires forall i, j :: 0 <= i < j < |r| ==> r[i].total >= r[j].total
    ensures MaxTotal(s) == Some(r[0].total)
  {
    assert r[0] in multiset(s);
    var m := MaxTotal(s).value;
    var k :| 0 <= k < |s| && s[k].total == m;
    assert s[k] in multiset(r);
    var b :| 0 <= b < |r| && r[b] == s[k];
    var a :| 0 <= a < |s| && s[a] == r[0];
    assert r[b].total <= r[0].total;
  }

  /** Reordering the rows of the CSV changes no country's colour. */
  lemma MapIgnoresRowOrder(data: seq<Row>, shuffled: seq<Row>, f: Feature)
    requires multiset(data) == multiset(shuffled)
    ensures FillOf(SalesData(data), f) == FillOf(SalesData(shuffled), f)
    ensures TooltipSales(SalesData(data), f) == TooltipSales(SalesData(shuffled), f)
  {
    CountryJoinCorrect(data, f);
    CountryJoinCorrect(shuffled, f);
    RollupIgnoresRowOrder(data, shuffled, Country, Sales);
    RollupCorrect(data, Country, Sales);
    RollupCorrect(shuffled, Country, Sales);
    WithKeyPermutation(data, shuffled, Country, f.name);
    SumOfPermutation(WithKey(data, Country, f.name), WithKey(shuffled, Country, f.name), Sales);
  }

  // ---------------------------------------------------------------------------
  // A worked example
  // ---------------------------------------------------------------------------

  /** Two rows of category A (100 and 50) and one of B (75) give the bars A: 150, then B: 75. */
  lemma CategoryExample()
    ensures ChartData(ExampleRows()) == [Entry("A", 150.0), Entry("B", 75.0)]
  {
    var t := Rollup(ExampleRows(), Category, Sales);
    ExampleRollup();
    assert t[..1] == [Entry("A", 150.0)] && t[..1][..0] == [];
    assert SortBy(t[..1], ByTotalDescending) == [Entry("A", 150.0)];
  }

  function ExampleRows(): seq<Row>
  {
    var day := Date(2023, 1, 15);
    [Row("A", 100.0, day, "Spain", "Pen"), Row("A", 50.0, day, "Spain", "Ink"), Row("B", 75.0, day, "France", "Pad")]
  }

  /** The rollup of the example: A first, as it appears first. */
  lemma ExampleRollup()
    ensures Rollup(ExampleRows(), Category, Sales) == [Entry("A", 150.0), Entry("B", 75.0)]
  {
    var data := ExampleRows();
    var r0, r1, r2 := data[0], data[1], data[2];
    ExampleGroups();
    assert [r0, r1][..1] == [r0] && [r0][..0] == [] && [r2][..0] == [];
    assert Sales(r0) == 100.0 && Sales(r1) == 50.0 && Sales(r2) == 75.0;
    assert SumOf([r0], Sales) == 100.0;
    assert SumOf([r0, r1], Sales) == 150.0;
    assert SumOf([r2], Sales) == 75.0;
  }

  lemma ExampleGroups()
    ensures var data := ExampleRows();
      GroupBy(data, Category) == [Group("A", [data[0], data[1]]), Group("B", [data[2]])]
  {
    var data := ExampleRows();
    var r0, r1, r2 := data[0], data[1], data[2];
    assert data[..2] == [r0, r1] && data[..1] == [r0] && [r0, r1][..1] == [r0];
    assert [r0][..0] == [];
    var g1 := GroupBy(data[..1], Category);
    assert g1 == Place([], "A", r0);
    assert g1 == [Group("A", [r0])];
    assert GroupKeys(g1) == ["A"];
    var g2 := GroupBy(data[..2], Category);
    assert g2 == Place(g1, "A", r1);
    assert |g2| == 1 && g2[0] == Group("A", [r0] + [r1]);
    assert [r0] + [r1] == [r0, r1];
    assert g2 == [g2[0]];
    assert GroupKeys(g2) == ["A"];
    assert GroupBy(data, Category) == Place(g2, "B", r2);
  }
}
