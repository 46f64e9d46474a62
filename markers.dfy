/**
 * Map markers: the icon and colour tables keyed by incident category, and the
 * loop that places one marker per geocoded row.
 */
module Markers {
  import opened Wrappers
  import opened Seqs
  import opened Incidents

  /** The five CBRNE categories that have an icon and a colour of their own. */
  const Categories: seq<string> := ["Explosive", "Biological", "Radiological", "Chemical", "Nuclear"]

  /** `get_marker_icon`: a fixed icon per category, "info-sign" for anything else. */
  function MarkerIcon(category: string): (icon: string)
    ensures category !in Categories <==> icon == "info-sign"
  {
    if category == "Explosive" then "bomb"
    else if category == "Biological" then "bug"
    else if category == "Radiological" then "radiation"
    else if category == "Chemical" then "flask"
    else if category == "Nuclear" then "atom"
    else "info-sign"
  }

  /** `get_marker_color` of the folium maps: a fixed colour per category, "gray" for anything else. */
  function MarkerColor(category: string): (color: string)
    ensures category !in Categories <==> color == "gray"
  {
    if category == "Explosive" then "black"
    else if category == "Biological" then "green"
    else if category == "Radiological" then "red"
    else if category == "Chemical" then "orange"
    else if category == "Nuclear" then "blue"
    else "gray"
  }

  /** `get_marker_color` of the plotly map, where Explosive is drawn gray. */
  function PlotlyMarkerColor(category: string): (color: string)
    ensures category !in Categories ==> color == "gray"
    ensures category == "Explosive" ==> color == "gray"
  {
    if category == "Explosive" then "gray"
    else if category == "Biological" then "green"
    else if category == "Radiological" then "red"
    else if category == "Chemical" then "orange"
    else if category == "Nuclear" then "blue"
    else "gray"
  }

  /**
   * Distinct categories get distinct icons and distinct colours on the folium
   * maps: only categories outside the five share the default.
   */
  lemma FoliumStylesDistinguishCategories(a: string, b: string)
    requires a != b && (a in Categories || b in Categories)
    ensures MarkerIcon(a) != MarkerIcon(b)
    ensures MarkerColor(a) != MarkerColor(b)
  {
  }

  /**
   * The plotly colours agree with the folium ones except on Explosive, which
   * the plotly map cannot tell apart from an unknown category.
   */
  lemma PlotlyColorConflatesExplosive(category: string)
    ensures category != "Explosive" ==> PlotlyMarkerColor(category) == MarkerColor(category)
    ensures category !in Categories ==> PlotlyMarkerColor(category) == PlotlyMarkerColor("Explosive")
  {
  }

  /** One marker as placed on a folium map; `color` is absent where the map leaves folium's default. */
  datatype Marker = Marker(location: Coordinate, icon: string, color: Option<string>, tooltip: string)

  /**
   * The marker for one geocoded row: at the row's coordinate, titled by the
   * row, with the category's icon and, on the coloured map, its colour.
   */
  function MarkerFor(r: Incident, colored: bool): (m: Marker)
    requires HasCoordinates(r)
    ensures m.location == r.coordinates.value && m.tooltip == r.title
    ensures m.icon == "info-sign" <==> r.category !in Categories
    ensures m.color.Some? <==> colored
    ensures m.color.Some? ==> (m.color.value == "gray" <==> r.category !in Categories)
  {
    Marker(r.coordinates.value, MarkerIcon(r.category),
      if colored then Some(MarkerColor(r.category)) else None, r.title)
  }

  /**
   * The marker loop of the folium maps: `for row in rows: if row['Coordinates']:`
   * add a marker. The map with colours passes `colored`; the simplest map does not.
   * Exactly one marker per geocoded row, in row order, and none for the rest.
   */
  method CreateMarkers(rows: seq<Incident>, colored: bool) returns (markers: seq<Marker>)
    ensures var located := Filter(rows, HasCoordinates);
      && |markers| == |located|
      && forall k :: 0 <= k < |markers| ==>
           HasCoordinates(located[k]) && markers[k] == MarkerFor(located[k], colored)
  {
    markers := [];
    var i := 0;
    while i < |rows|
      invariant 0 <= i <= |rows|
      invariant var located := Filter(rows[..i], HasCoordinates);
        && |markers| == |located|
        && forall k :: 0 <= k < |markers| ==>
             HasCoordinates(located[k]) && markers[k] == MarkerFor(located[k], colored)
    {
      var row := rows[i];
      assert rows[..i + 1] == rows[..i] + [row];
      FilterAppend(rows[..i], [row], HasCoordinates);
      if row.coordinates.Some? {
        markers := markers + [MarkerFor(row, colored)];
      }
      i := i + 1;
    }
    assert rows[..i] == rows;
  }
}
