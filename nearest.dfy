/**
 * The nearest-point query (app.py, lines 79, 100 and 111-114): when the
 * browser supplies a location whose latitude and longitude are both truthy,
 * a distance to the observer is computed for every row of the master table
 * and the row at `idxmin` of that column, the first minimum, is reported.
 */
module Nearest {
  import opened Wrappers
  import opened Ingestion

  /**
   * `calculate_distance(lat1, lon1, lat2, lon2)` (app.py, lines 18-30), left
   * abstract: its haversine arithmetic is floating-point trigonometry.
   */
  type Distance = (real, real, real, real) -> real

  /** The dictionary returned by the geolocation component; a key may hold None. */
  datatype Geolocation = Geolocation(latitude: Option<real>, longitude: Option<real>)

  datatype Observer = Observer(lat: real, lon: real)

  /** The reported row, its position in the master table and its `distance_to_user`. */
  datatype QueryResult = QueryResult(index: nat, row: Row, distance: real)

  /** Python truthiness of an optional number: neither None nor zero. */
  predicate Truthy(c: Option<real>)
  {
    c.Some? && c.value != 0.0
  }

  /** The guard `location['latitude'] and location['longitude']`. */
  function ObserverOf(loc: Geolocation): (o: Option<Observer>)
    ensures o.None? <==>
      loc.latitude == None || loc.latitude == Some(0.0) || loc.longitude == None || loc.longitude == Some(0.0)
    ensures o.Some? ==> loc.latitude == Some(o.value.lat) && loc.longitude == Some(o.value.lon)
  {
    if Truthy(loc.latitude) && Truthy(loc.longitude)
    then Some(Observer(loc.latitude.value, loc.longitude.value))
    else None
  }

  /** One cell of the `distance_to_user` column. */
  function RowDistance(observer: Observer, row: Row, dist: Distance): real
    requires HasCoordinates(row)
  {
    dist(observer.lat, observer.lon, row.lat.value, row.lon.value)
  }

  /** A row's distance depends on its coordinates only, not on its other columns. */
  lemma RowDistanceIgnoresExtra(observer: Observer, r1: Row, r2: Row, dist: Distance)
    requires HasCoordinates(r1) && HasCoordinates(r2)
    requires r1.lat == r2.lat && r1.lon == r2.lon
    ensures RowDistance(observer, r1, dist) == RowDistance(observer, r2, dist)
  {
  }

  /** `master_data.apply(lambda row: calculate_distance(...), axis=1)`. */
  function DistanceColumn(table: seq<Row>, observer: Observer, dist: Distance): (d: seq<real>)
    requires forall i :: 0 <= i < |table| ==> HasCoordinates(table[i])
    ensures |d| == |table|
    ensures forall i :: 0 <= i < |table| ==> d[i] == RowDistance(observer, table[i], dist)
  {
    seq(|table|, i requires 0 <= i < |table| => RowDistance(observer, table[i], dist))
  }

  /** `k` is the first position holding the least value. */
  predicate IsFirstMinimum(values: seq<real>, k: nat)
  {
    && k < |values|
    && (forall j :: 0 <= j < |values| ==> values[k] <= values[j])
    && (forall j :: 0 <= j < k ==> values[k] < values[j])
  }

  /** At most one position is the first minimum, so `idxmin` is deterministic. */
  lemma FirstMinimumUnique(values: seq<real>, k1: nat, k2: nat)
    requires IsFirstMinimum(values, k1) && IsFirstMinimum(values, k2)
    ensures k1 == k2
  {
    assert values[k1] == values[k2];
  }

  /**
   * `Series.idxmin` on a positionally indexed series: the first position of
   * the minimum, or None where pandas raises on an empty series.
   */
  method IdxMin(values: seq<real>) returns (k: Option<nat>)
    ensures k.None? <==> values == []
    ensures k.Some? ==> IsFirstMinimum(values, k.value)
  {
    if values == [] {
      return None;
    }
    var best := 0;
    for i := 1 to |values|
      invariant best < i
      invariant forall j :: 0 <= j < i ==> values[best] <= values[j]
      invariant forall j :: 0 <= j < best ==> values[best] < values[j]
    {
      if values[i] < values[best] {
        best := i;
      }
    }
    return Some(best);
  }

  /**
   * `q` is what the query reports on `table`: a row of it, at its position,
   * with its own computed distance, no farther than any other row and
   * strictly nearer than every row before it.
   */
  predicate IsNearest(table: seq<Row>, observer: Observer, dist: Distance, q: QueryResult)
    requires forall i :: 0 <= i < |table| ==> HasCoordinates(table[i])
  {
    && q.index < |table|
    && q.row == table[q.index]
    && q.distance == RowDistance(observer, q.row, dist)
    && (forall j :: 0 <= j < |table| ==> q.distance <= RowDistance(observer, table[j], dist))
    && (forall j :: 0 <= j < q.index ==> q.distance < RowDistance(observer, table[j], dist))
  }

  /** Two results that both satisfy IsNearest are the same result. */
  lemma NearestUnique(table: seq<Row>, observer: Observer, dist: Distance, q1: QueryResult, q2: QueryResult)
    requires forall i :: 0 <= i < |table| ==> HasCoordinates(table[i])
    requires IsNearest(table, observer, dist, q1) && IsNearest(table, observer, dist, q2)
    ensures q1 == q2
  {
  }

  /** Lines 111-114: add the distance column, then take the row at its `idxmin`. */
  method NearestPoint(table: seq<Row>, observer: Observer, dist: Distance) returns (result: Option<QueryResult>)
    requires forall i :: 0 <= i < |table| ==> HasCoordinates(table[i])
    ensures result.None? <==> table == []
    ensures result.Some? ==> IsNearest(table, observer, dist, result.value)
  {
    var column := DistanceColumn(table, observer, dist);
    var k := IdxMin(column);
    if k.None? {
      return None;
    }
    var i := k.value;
    return Some(QueryResult(i, table[i], column[i]));
  }
}
