/**
 * Heatmap weights: every filtered row is tagged with the number of links
 * reported for its (Country, City), and each geocoded row becomes one
 * weighted heat point.
 */
module Heatmap {
  import opened Seqs
  import opened Incidents

  /** A row of the (Country, City) group whose Link cell is filled. */
  function LinkedIn(country: string, city: string): Incident -> bool {
    (r: Incident) => r.country == country && r.city == city && r.link.Some?
  }

  /** `groupby(['Country', 'City'])['Link'].count()` for one group: rows of the group with a link. */
  function LinkCount(rows: seq<Incident>, country: string, city: string): (n: nat)
    ensures n == |Filter(rows, LinkedIn(country, city))|
    ensures n <= |rows|
  {
    if |rows| == 0 then 0
    else
      var here := if LinkedIn(country, city)(rows[0]) then 1 else 0;
      here + LinkCount(rows[1..], country, city)
  }

  /** The number of rows in the (Country, City) group, with or without a link. */
  function GroupSize(rows: seq<Incident>, country: string, city: string): nat {
    if |rows| == 0 then 0
    else
      var here := if rows[0].country == country && rows[0].city == city then 1 else 0;
      here + GroupSize(rows[1..], country, city)
  }

  /**
   * A group's link count never exceeds the group's size, and a row that has a
   * link counts towards its own group, so its weight is at least one.
   */
  lemma {:induction false} LinkCountBounds(rows: seq<Incident>, country: string, city: string)
    ensures LinkCount(rows, country, city) <= GroupSize(rows, country, city)
    ensures (exists i :: 0 <= i < |rows| && rows[i].country == country && rows[i].city == city && rows[i].link.Some?)
      ==> LinkCount(rows, country, city) >= 1
  {
    if |rows| > 0 {
      LinkCountBounds(rows[1..], country, city);
      if exists i :: 0 <= i < |rows| && rows[i].country == country && rows[i].city == city && rows[i].link.Some? {
        var i :| 0 <= i < |rows| && rows[i].country == country && rows[i].city == city && rows[i].link.Some?;
        if i > 0 {
          assert rows[1..][i - 1] == rows[i];
        }
      }
    }
  }

  /** `pd.merge(part, link_counts, on=['Country', 'City'])`, the counts taken over `all`. */
  function Annotate(part: seq<Incident>, all: seq<Incident>): (a: seq<(Incident, nat)>)
    ensures |a| == |part|
    ensures forall k :: 0 <= k < |a| ==>
      a[k].0 == part[k] && a[k].1 == LinkCount(all, part[k].country, part[k].city) && a[k].1 <= |all|
  {
    if |part| == 0 then []
    else [(part[0], LinkCount(all, part[0].country, part[0].city))] + Annotate(part[1..], all)
  }

  datatype HeatPoint = HeatPoint(location: Coordinate, weight: nat)

  /** The merged rows whose Coordinates are present, as (lat, lon, LinkCount) points. */
  function Located(merged: seq<(Incident, nat)>): (h: seq<HeatPoint>)
    ensures |h| <= |merged|
  {
    if |merged| == 0 then []
    else
      var (r, n) := merged[0];
      if r.coordinates.Some? then [HeatPoint(r.coordinates.value, n)] + Located(merged[1..])
      else Located(merged[1..])
  }

  /** The heat layer of the folium maps for the filtered rows. */
  function HeatData(rows: seq<Incident>): (h: seq<HeatPoint>)
    ensures |h| == |Filter(rows, HasCoordinates)|
    ensures forall k :: 0 <= k < |h| ==> h[k].weight <= |rows|
  {
    LocatedAnnotate(rows, rows);
    Located(Annotate(rows, rows))
  }

  lemma {:induction false} LocatedAnnotate(part: seq<Incident>, all: seq<Incident>)
    ensures var located := Filter(part, HasCoordinates);
      var h := Located(Annotate(part, all));
      && |h| == |located|
      && forall k :: 0 <= k < |h| ==>
           HasCoordinates(located[k])
           && h[k] == HeatPoint(located[k].coordinates.value, LinkCount(all, located[k].country, located[k].city))
  {
    if |part| > 0 {
      LocatedAnnotate(part[1..], all);
      assert Annotate(part, all)[1..] == Annotate(part[1..], all);
    }
  }

  /**
   * One heat point per geocoded row, in row order, weighted by the link count
   * of the row's (Country, City) over all filtered rows, including those of
   * the group that have no coordinates.
   */
  lemma HeatDataSpec(rows: seq<Incident>)
    ensures var located := Filter(rows, HasCoordinates);
      var h := HeatData(rows);
      && |h| == |located|
      && forall k :: 0 <= k < |h| ==>
           HasCoordinates(located[k])
           && h[k].location == located[k].coordinates.value
           && h[k].weight == LinkCount(rows, located[k].country, located[k].city)
           && (located[k].link.Some? ==> h[k].weight >= 1)
  {
    LocatedAnnotate(rows, rows);
    var located := Filter(rows, HasCoordinates);
    forall k | 0 <= k < |located| && located[k].link.Some?
      ensures LinkCount(rows, located[k].country, located[k].city) >= 1
    {
      assert located[k] in rows;
      var i :| 0 <= i < |rows| && rows[i] == located[k];
      LinkCountBounds(rows, located[k].country, located[k].city);
    }
  }
}
