/**
 * The choropleth's join of map features to country totals: each feature
 * looks up its properties.name in salesData with an exact === comparison.
 * A match is drawn through the colour scale and labelled with its amount; a
 * feature without a match is drawn grey and labelled "No data".
 */
module GeoJoin {
  import opened Options
  import opened Rollups

  /** A GeoJSON feature, of which the join reads only properties.name. */
  datatype Feature = Feature(name: string)

  /** The fill of a country path: the colour scale at a total, or a fixed CSS colour. */
  datatype Fill = Scaled(totalSales: real) | Css(colour: string)

  /** The sales line of the map tooltip: an amount, or a fixed text. */
  datatype SalesText = Amount(totalSales: real) | Text(text: string)

  const NoDataFill := "#ccc"
  const NoDataText := "No data"

  /** salesData.find(c => c.country === name): the first entry whose key is name. */
  function Find<K(==)>(salesData: seq<Entry<K>>, name: K): (r: Option<Entry<K>>)
    ensures r.None? <==> forall i :: 0 <= i < |salesData| ==> salesData[i].key != name
    ensures r.Some? ==> exists i :: 0 <= i < |salesData| && salesData[i] == r.value
    ensures r.Some? ==> r.value.key == name
    ensures r.Some? ==> exists i :: (0 <= i < |salesData| && salesData[i] == r.value &&
      forall j :: 0 <= j < i ==> salesData[j].key != name)
  {
    var n := FirstIndex(salesData, KeyOf, name);
    if n < |salesData| then Some(salesData[n]) else None
  }

  /**
   * d3.max(salesData, d => d.totalSales), the top of the colour scale's
   * domain: the largest total, or nothing for an empty list.
   */
  function MaxTotal<K>(salesData: seq<Entry<K>>): (m: Option<real>)
    ensures m.None? <==> salesData == []
    ensures m.Some? ==> forall i :: 0 <= i < |salesData| ==> salesData[i].total <= m.value
    ensures m.Some? ==> exists i :: 0 <= i < |salesData| && salesData[i].total == m.value
  {
    if salesData == [] then None
    else
      var n := |salesData| - 1;
      var last := salesData[n].total;
      match MaxTotal(salesData[..n])
      case None => Some(last)
      case Some(p) => Some(if p < last then last else p)
  }

  /** The "fill" attribute of a feature's path. */
  function FillOf(salesData: seq<Entry<string>>, f: Feature): Fill
  {
    match Find(salesData, f.name)
    case Some(c) => Scaled(c.total)
    case None => Css(NoDataFill)
  }

  /** The "Sales:" line of a feature's tooltip. */
  function TooltipSales(salesData: seq<Entry<string>>, f: Feature): SalesText
  {
    match Find(salesData, f.name)
    case Some(c) => Amount(c.total)
    case None => Text(NoDataText)
  }

  /** With unique keys the search can only find the one entry that carries the key. */
  lemma FindUnique<K>(salesData: seq<Entry<K>>, i: nat, name: K)
    requires DistinctKeys(salesData) && i < |salesData| && salesData[i].key == name
    ensures Find(salesData, name) == Some(salesData[i])
  {
    var n := FirstIndex(salesData, KeyOf, name);
    assert n <= i;
    assert KeyOf(salesData[n]) == name;
  }

  /**
   * A feature is drawn from the sales data exactly when some entry's key is
   * its name, and then with that entry's total; every other feature is grey
   * and reads "No data", never a zero amount.
   */
  lemma JoinCorrect(salesData: seq<Entry<string>>, f: Feature)
    requires DistinctKeys(salesData)
    ensures FillOf(salesData, f).Scaled? <==> f.name in KeySet(salesData)
    ensures TooltipSales(salesData, f).Amount? <==> f.name in KeySet(salesData)
    ensures forall i :: 0 <= i < |salesData| && salesData[i].key == f.name ==>
      FillOf(salesData, f) == Scaled(salesData[i].total) && TooltipSales(salesData, f) == Amount(salesData[i].total)
    ensures f.name !in KeySet(salesData) ==>
      FillOf(salesData, f) == Css("#ccc") && TooltipSales(salesData, f) == Text("No data")
  {
    forall i | 0 <= i < |salesData| && salesData[i].key == f.name
      ensures FillOf(salesData, f) == Scaled(salesData[i].total)
    {
      FindUnique(salesData, i, f.name);
    }
  }

  /**
   * The join depends on the (country, total) pairs only, not on the order in
   * which salesData lists them.
   */
  lemma JoinIgnoresOrder(a: seq<Entry<string>>, b: seq<Entry<string>>, f: Feature)
    requires DistinctKeys(a) && multiset(a) == multiset(b)
    ensures FillOf(a, f) == FillOf(b, f) && TooltipSales(a, f) == TooltipSales(b, f)
  {
    DistinctKeysPermutation(a, b);
    match Find(a, f.name)
    case Some(c) =>
      var i :| 0 <= i < |a| && a[i] == c;
      assert c in multiset(b);
      var j :| 0 <= j < |b| && b[j] == c;
      FindUnique(b, j, f.name);
    case None =>
      forall j | 0 <= j < |b| ensures b[j].key != f.name {
        assert b[j] in multiset(a);
        var i :| 0 <= i < |a| && a[i] == b[j];
      }
  }
}
