/**
 * The incident record of the CBRNE (Chemical, Biological, Radiological,
 * Nuclear, Explosive) dashboards, and the geocoding service they consult.
 */
module Incidents {
  import opened Wrappers

  /** A latitude/longitude pair as the geocoding service reports it; the model never inspects the numbers. */
  datatype Coordinate = Coordinate(lat: real, lon: real)

  /**
   * One row of the incident spreadsheet. `date` stands for the Date
   * timestamp; `link` is absent where the spreadsheet cell is empty;
   * `coordinates` is absent until the row has been geocoded, and stays absent
   * when geocoding fails.
   */
  datatype Incident = Incident(
    title: string,
    incidentType: string,
    category: string,
    country: string,
    city: string,
    date: int,
    casualty: nat,
    injury: nat,
    impact: string,
    severity: string,
    link: Option<string>,
    coordinates: Option<Coordinate>)

  predicate HasCoordinates(r: Incident) {
    r.coordinates.Some?
  }

  /** What one request to the geocoding service can come back with. */
  datatype Lookup = Found(at: Coordinate) | NoMatch | ServiceError

  /** The geocoding service, asked for one free-form address. */
  type GeocodingService = string -> Lookup

  /** The free-form address the dashboards send: "City, Country". */
  function Address(city: string, country: string): string {
    city + ", " + country
  }

  /**
   * `geocode`: a found location gives its coordinate; no match and any failure
   * of the service are swallowed alike and give no coordinate.
   */
  function GeocodeAddress(service: GeocodingService, address: string): (r: Option<Coordinate>)
    ensures r.Some? <==> service(address).Found?
    ensures r.Some? ==> r.value == service(address).at
  {
    match service(address)
    case Found(c) => Some(c)
    case NoMatch => None
    case ServiceError => None
  }

  /** `geocode(city, country)`: the service is asked for "City, Country". */
  function Geocode(service: GeocodingService, city: string, country: string): (r: Option<Coordinate>)
    ensures r.Some? <==> service(city + ", " + country).Found?
    ensures r.Some? ==> r.value == service(city + ", " + country).at
  {
    GeocodeAddress(service, Address(city, country))
  }
}
