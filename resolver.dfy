/**
 * Location resolution: geocode "City, Country"; when that fails, ask the fuzzy
 * matcher for gazetteer city names close to City and geocode them in rank
 * order, keeping the first that succeeds and writing its name over City.
 */
module Resolver {
  import opened Wrappers
  import opened Seqs
  import opened Incidents

  /** Defaults of `fuzzy_match_city`: at most five candidates, score 70 or more. */
  const DefaultLimit: nat := 5
  const DefaultThreshold: int := 70

  /** One gazetteer city name with its similarity score (0..100) to the query. */
  datatype Scored = Scored(name: string, score: int)

  /** The string matcher: for a query, the distinct gazetteer city names ranked best first. */
  type Matcher = string -> seq<Scored>

  /** What the matcher hands back when asked for at most `limit` results: the best `limit`. */
  function Top(ranked: seq<Scored>, limit: nat): (r: seq<Scored>)
    ensures |r| <= limit && r <= ranked
    ensures |r| == |ranked| || |r| == limit
  {
    if |ranked| <= limit then ranked else ranked[..limit]
  }

  function Names(ms: seq<Scored>): (r: seq<string>)
    ensures |r| == |ms| && forall k :: 0 <= k < |ms| ==> r[k] == ms[k].name
  {
    seq(|ms|, k requires 0 <= k < |ms| => ms[k].name)
  }

  /** The names of the matches whose score reaches the threshold, in the matcher's order. */
  function AboveThreshold(ms: seq<Scored>, threshold: int): (names: seq<string>)
    ensures |names| <= |ms|
  {
    if |ms| == 0 then []
    else if ms[0].score >= threshold then [ms[0].name] + AboveThreshold(ms[1..], threshold)
    else AboveThreshold(ms[1..], threshold)
  }

  /** The comprehension's test `score >= threshold`, as a selection test. */
  function Reaches(threshold: int): Scored -> bool {
    (m: Scored) => m.score >= threshold
  }

  /** The comprehension yields the name of each match reaching the threshold, once per match, in order. */
  lemma {:induction false} AboveThresholdIsFilter(ms: seq<Scored>, threshold: int)
    ensures AboveThreshold(ms, threshold) == Names(Filter(ms, Reaches(threshold)))
  {
    if |ms| > 0 {
      AboveThresholdIsFilter(ms[1..], threshold);
      var rest := Filter(ms[1..], Reaches(threshold));
      if ms[0].score >= threshold {
        assert Filter(ms, Reaches(threshold)) == [ms[0]] + rest;
        assert Names([ms[0]] + rest) == [ms[0].name] + Names(rest);
      }
    }
  }

  /** `fuzzy_match_city(city_name, limit, threshold)`. */
  function FuzzyMatchCity(matcher: Matcher, cityName: string, limit: nat, threshold: int): (r: seq<string>)
    ensures |r| <= limit
  {
    AboveThreshold(Top(matcher(cityName), limit), threshold)
  }

  lemma {:induction false} AboveThresholdSpec(ms: seq<Scored>, threshold: int)
    ensures IsSubseq(AboveThreshold(ms, threshold), Names(ms))
    ensures forall n :: n in AboveThreshold(ms, threshold) <==>
      exists k :: 0 <= k < |ms| && ms[k].name == n && ms[k].score >= threshold
  {
    if |ms| > 0 {
      AboveThresholdSpec(ms[1..], threshold);
      var rest := AboveThreshold(ms[1..], threshold);
      assert Names(ms)[1..] == Names(ms[1..]);
      forall n ensures n in AboveThreshold(ms, threshold) <==>
        exists k :: 0 <= k < |ms| && ms[k].name == n && ms[k].score >= threshold
      {
        if exists k :: 0 <= k < |ms| && ms[k].name == n && ms[k].score >= threshold {
          var k :| 0 <= k < |ms| && ms[k].name == n && ms[k].score >= threshold;
          if k > 0 {
            assert ms[1..][k - 1] == ms[k];
          }
        }
        if n in rest {
          var k :| 0 <= k < |ms[1..]| && ms[1..][k].name == n && ms[1..][k].score >= threshold;
          assert ms[k + 1] == ms[1..][k];
        }
      }
      if ms[0].score >= threshold {
        assert ([ms[0].name] + rest)[1..] == rest;
      } else if |rest| > 0 {
        assert rest[0] in rest;
        var k :| 0 <= k < |ms[1..]| && ms[1..][k].name == rest[0] && ms[1..][k].score >= threshold;
        if rest[0] == Names(ms)[0] {
          // the greedy scan may match rest[0] against ms[0]; the remainder still embeds
          SubseqSkipFirst(rest, Names(ms));
        }
      }
    }
  }

  /**
   * The candidates returned are at most `limit` of the matcher's best, exactly
   * those among them scoring at least `threshold`, in the matcher's order.
   */
  lemma FuzzyMatchCitySpec(matcher: Matcher, cityName: string, limit: nat, threshold: int)
    ensures var top := Top(matcher(cityName), limit);
      var r := FuzzyMatchCity(matcher, cityName, limit, threshold);
      && |r| <= limit
      && r == Names(Filter(top, Reaches(threshold)))
      && IsSubseq(r, Names(top))
      && forall n :: n in r <==> exists k :: 0 <= k < |top| && top[k].name == n && top[k].score >= threshold
  {
    AboveThresholdIsFilter(Top(matcher(cityName), limit), threshold);
    AboveThresholdSpec(Top(matcher(cityName), limit), threshold);
  }

  /** The candidates `preprocess_data` asks for: the defaults of `fuzzy_match_city`. */
  function Candidates(matcher: Matcher, city: string): seq<string> {
    FuzzyMatchCity(matcher, city, DefaultLimit, DefaultThreshold)
  }

  /** Outcome of resolving one row: its coordinate, if any, and its (possibly corrected) city. */
  datatype Resolution = Resolution(coordinates: Option<Coordinate>, city: string)

  /** The fallback scan: the first candidate that geocodes wins; `city` is kept when none does. */
  function FirstHit(service: GeocodingService, candidates: seq<string>, country: string, city: string): (r: Resolution)
    ensures r.coordinates.Some? ==> r.city in candidates
    ensures r.coordinates.None? ==> r.city == city
  {
    if |candidates| == 0 then Resolution(None, city)
    else
      var c := Geocode(service, candidates[0], country);
      if c.Some? then Resolution(c, candidates[0])
      else FirstHit(service, candidates[1..], country, city)
  }

  /** The candidate names the scan geocodes: everything up to and including the first hit. */
  function Probes(service: GeocodingService, candidates: seq<string>, country: string): (r: seq<string>)
    ensures |r| <= |candidates|
    ensures |candidates| > 0 ==> |r| > 0
  {
    if |candidates| == 0 then []
    else if Geocode(service, candidates[0], country).Some? then [candidates[0]]
    else [candidates[0]] + Probes(service, candidates[1..], country)
  }

  /**
   * The scan looks candidates up in order, from the first, and stops only at
   * one that geocodes or after the last.
   */
  lemma {:induction false} ProbesSpec(service: GeocodingService, candidates: seq<string>, country: string)
    ensures var p := Probes(service, candidates, country);
      && p <= candidates
      && (p == candidates || (|p| > 0 && Geocode(service, p[|p| - 1], country).Some?))
  {
    if |candidates| > 0 && Geocode(service, candidates[0], country).None? {
      ProbesSpec(service, candidates[1..], country);
      assert candidates == [candidates[0]] + candidates[1..];
    }
  }

  /** `geocode_and_correct` as a function of the row's City and Country. */
  function Resolve(service: GeocodingService, matcher: Matcher, city: string, country: string): (r: Resolution)
    ensures r.coordinates.None? ==> r.city == city
    ensures r.city != city ==> r.city in Candidates(matcher, city)
  {
    var exact := Geocode(service, city, country);
    if exact.Some? then Resolution(exact, city)
    else FirstHit(service, Candidates(matcher, city), country, city)
  }

  /** The city names geocoded while resolving, in the order they are asked. */
  function Lookups(service: GeocodingService, matcher: Matcher, city: string, country: string): (r: seq<string>)
    ensures |r| > 0 && r[0] == city
    ensures |r| <= 1 + |Candidates(matcher, city)|
  {
    if Geocode(service, city, country).Some? then [city]
    else [city] + Probes(service, Candidates(matcher, city), country)
  }

  /** A successful scan stops at the first candidate that geocodes, having looked up nothing after it. */
  lemma {:induction false} FirstHitFound(service: GeocodingService, candidates: seq<string>, country: string, city: string)
    requires FirstHit(service, candidates, country, city).coordinates.Some?
    ensures var r := FirstHit(service, candidates, country, city);
      exists k :: 0 <= k < |candidates|
        && r.city == candidates[k]
        && r.coordinates == Geocode(service, candidates[k], country)
        && (forall j :: 0 <= j < k ==> Geocode(service, candidates[j], country).None?)
        && Probes(service, candidates, country) == candidates[..k + 1]
  {
    var r := FirstHit(service, candidates, country, city);
    if Geocode(service, candidates[0], country).Some? {
      assert candidates[..1] == [candidates[0]];
      assert Probes(service, candidates, country) == candidates[..0 + 1];
    } else {
      var tail := candidates[1..];
      assert r == FirstHit(service, tail, country, city);
      FirstHitFound(service, tail, country, city);
      var k :| 0 <= k < |tail| && r.city == tail[k]
        && r.coordinates == Geocode(service, tail[k], country)
        && (forall j :: 0 <= j < k ==> Geocode(service, tail[j], country).None?)
        && Probes(service, tail, country) == tail[..k + 1];
      assert candidates[k + 1] == tail[k];
      assert candidates[..k + 2] == [candidates[0]] + tail[..k + 1];
      assert Probes(service, candidates, country) == candidates[..(k + 1) + 1];
      forall j | 0 <= j < k + 1
        ensures Geocode(service, candidates[j], country).None?
      {
        if j > 0 { assert candidates[j] == tail[j - 1]; }
      }
    }
  }

  /** A scan that finds nothing has looked up every candidate, none of which geocodes, and keeps `city`. */
  lemma {:induction false} FirstHitMissed(service: GeocodingService, candidates: seq<string>, country: string, city: string)
    requires FirstHit(service, candidates, country, city).coordinates.None?
    ensures FirstHit(service, candidates, country, city).city == city
    ensures forall j :: 0 <= j < |candidates| ==> Geocode(service, candidates[j], country).None?
    ensures Probes(service, candidates, country) == candidates
  {
    if |candidates| > 0 {
      var tail := candidates[1..];
      FirstHitMissed(service, tail, country, city);
      forall j | 0 <= j < |candidates|
        ensures Geocode(service, candidates[j], country).None?
      {
        if j > 0 { assert candidates[j] == tail[j - 1]; }
      }
      assert candidates == [candidates[0]] + tail;
    }
  }

  /**
   * The fallback scan resolves iff some candidate geocodes; it then takes the
   * first such candidate and looks up nothing after it, and otherwise keeps
   * `city` after looking up every candidate.
   */
  lemma FirstHitSpec(service: GeocodingService, candidates: seq<string>, country: string, city: string)
    ensures var r := FirstHit(service, candidates, country, city);
      && (r.coordinates.Some? <==> exists j :: 0 <= j < |candidates| && Geocode(service, candidates[j], country).Some?)
      && (r.coordinates.Some? ==>
            exists k :: 0 <= k < |candidates|
              && r.city == candidates[k]
              && r.coordinates == Geocode(service, candidates[k], country)
              && (forall j :: 0 <= j < k ==> Geocode(service, candidates[j], country).None?)
              && Probes(service, candidates, country) == candidates[..k + 1])
      && (r.coordinates.None? ==> r.city == city && Probes(service, candidates, country) == candidates)
  {
    if FirstHit(service, candidates, country, city).coordinates.Some? {
      FirstHitFound(service, candidates, country, city);
    } else {
      FirstHitMissed(service, candidates, country, city);
    }
  }

  /** When "City, Country" geocodes, that is the coordinate and City is left as it is. */
  lemma ExactMatchWins(service: GeocodingService, matcher: Matcher, city: string, country: string)
    requires Geocode(service, city, country).Some?
    ensures Resolve(service, matcher, city, country) == Resolution(Geocode(service, city, country), city)
    ensures Lookups(service, matcher, city, country) == [city]
  {
  }

  /**
   * When the exact lookup fails, the candidates are tried in rank order: the
   * first that geocodes gives the coordinate and replaces City, no candidate
   * ranked above it geocodes, and none ranked below it is looked up.
   */
  lemma FallbackTakesFirstHit(service: GeocodingService, matcher: Matcher, city: string, country: string)
    requires Geocode(service, city, country).None?
    ensures var r := Resolve(service, matcher, city, country);
      var cands := Candidates(matcher, city);
      r.coordinates.Some? ==>
        exists k :: 0 <= k < |cands|
          && r.city == cands[k]
          && r.coordinates == Geocode(service, cands[k], country)
          && (forall j :: 0 <= j < k ==> Geocode(service, cands[j], country).None?)
          && Lookups(service, matcher, city, country) == [city] + cands[..k + 1]
  {
    FirstHitSpec(service, Candidates(matcher, city), country, city);
  }

  /**
   * A row is left unresolved exactly when neither the exact lookup nor any
   * candidate geocodes; it then keeps its City, after every candidate was tried.
   */
  lemma UnresolvedKeepsCity(service: GeocodingService, matcher: Matcher, city: string, country: string)
    ensures var r := Resolve(service, matcher, city, country);
      var cands := Candidates(matcher, city);
      && (r.coordinates.None? <==>
            Geocode(service, city, country).None? &&
            forall j :: 0 <= j < |cands| ==> Geocode(service, cands[j], country).None?)
      && (r.coordinates.None? ==> r.city == city && Lookups(service, matcher, city, country) == [city] + cands)
  {
    FirstHitSpec(service, Candidates(matcher, city), country, city);
  }

  /** One step of the scan from position `i`: look up candidate `i`, then stop or go on from `i + 1`. */
  lemma ScanStep(service: GeocodingService, matches: seq<string>, i: nat, country: string, city: string)
    requires i < |matches|
    ensures var hit := Geocode(service, matches[i], country);
      && FirstHit(service, matches[i..], country, city)
         == (if hit.Some? then Resolution(hit, matches[i]) else FirstHit(service, matches[i + 1..], country, city))
      && Probes(service, matches[i..], country)
         == (if hit.Some? then [matches[i]] else [matches[i]] + Probes(service, matches[i + 1..], country))
  {
    assert matches[i..][1..] == matches[i + 1..];
  }

  /**
   * The `for match in matches` loop of `geocode_and_correct`: geocode the
   * candidates in order and stop at the first that succeeds. `tried` records
   * the candidates looked up.
   */
  method TryCandidates(service: GeocodingService, matches: seq<string>, country: string, city: string)
    returns (coords: Option<Coordinate>, newCity: string, ghost tried: seq<string>)
    ensures Resolution(coords, newCity) == FirstHit(service, matches, country, city)
    ensures tried == Probes(service, matches, country)
  {
    coords, newCity, tried := None, city, [];
    var i := 0;
    while i < |matches|
      invariant 0 <= i <= |matches|
      invariant coords.None? && newCity == city
      invariant FirstHit(service, matches, country, city) == FirstHit(service, matches[i..], country, city)
      invariant Probes(service, matches, country) == tried + Probes(service, matches[i..], country)
    {
      ScanStep(service, matches, i, country, city);
      coords := Geocode(service, matches[i], country);
      tried := tried + [matches[i]];
      if coords.Some? {
        newCity := matches[i];
        break;
      }
      i := i + 1;
    }
  }

  /**
   * `geocode_and_correct`: the exact lookup, then the fuzzy candidates.
   * `tried` records the city names looked up.
   */
  method GeocodeAndCorrect(service: GeocodingService, matcher: Matcher, row: Incident)
    returns (coords: Option<Coordinate>, city: string, ghost tried: seq<string>)
    ensures Resolution(coords, city) == Resolve(service, matcher, row.city, row.country)
    ensures tried == Lookups(service, matcher, row.city, row.country)
  {
    city := row.city;
    coords := Geocode(service, row.city, row.country);
    tried := [row.city];
    if coords.None? {
      var matches := Candidates(matcher, row.city);
      if |matches| > 0 {
        ghost var probes;
        coords, city, probes := TryCandidates(service, matches, row.country, row.city);
        tried := tried + probes;
      }
    }
  }

  /**
   * A worked case: "Londres, France" has no match, the matcher ranks "London"
   * (85) above "Londrina" (60), and "London, France" geocodes; the row
   * resolves to London's coordinate and its City becomes "London".
   */
  lemma LondresBecomesLondon()
    ensures var london := Coordinate(51.5, -0.1);
      var service: GeocodingService := a => if a == "London, France" then Found(london) else NoMatch;
      var matcher: Matcher := q => [Scored("London", 85), Scored("Londrina", 60)];
      && Resolve(service, matcher, "Londres", "France") == Resolution(Some(london), "London")
      && Lookups(service, matcher, "Londres", "France") == ["Londres", "London"]
  {
    var london := Coordinate(51.5, -0.1);
    var service: GeocodingService := a => if a == "London, France" then Found(london) else NoMatch;
    var matcher: Matcher := q => [Scored("London", 85), Scored("Londrina", 60)];
    assert Address("Londres", "France") != "London, France";
    assert Address("London", "France") == "London, France";
    assert Candidates(matcher, "Londres") == ["London"];
  }

  /** A row after preprocessing: only its Coordinates and City are (re)written. */
  function Corrected(service: GeocodingService, matcher: Matcher, r: Incident): (c: Incident)
    ensures c.(coordinates := r.coordinates, city := r.city) == r
    ensures !HasCoordinates(c) ==> c.city == r.city
  {
    var res := Resolve(service, matcher, r.city, r.country);
    r.(coordinates := res.coordinates, city := res.city)
  }

  /**
   * Preprocessing writes nothing but Coordinates and City, and a row whose City
   * changed has been resolved.
   */
  lemma CorrectedWritesLocationOnly(service: GeocodingService, matcher: Matcher, r: Incident)
    ensures var c := Corrected(service, matcher, r);
      && c.(coordinates := r.coordinates, city := r.city) == r
      && (c.city != r.city ==> HasCoordinates(c) && c.city in Candidates(matcher, r.city))
  {
    FirstHitSpec(service, Candidates(matcher, r.city), r.country, r.city);
  }

  /**
   * `preprocess_data` of the map that keeps every row: each row is resolved
   * and its Coordinates and City columns are written in place.
   */
  method PreprocessData(service: GeocodingService, matcher: Matcher, data: array<Incident>)
    modifies data
    ensures forall i :: 0 <= i < data.Length ==> data[i] == Corrected(service, matcher, old(data[i]))
  {
    var i := 0;
    while i < data.Length
      invariant 0 <= i <= data.Length
      invariant forall j :: 0 <= j < i ==> data[j] == Corrected(service, matcher, old(data[j]))
      invariant forall j :: i <= j < data.Length ==> data[j] == old(data[j])
    {
      var coords, city, _ := GeocodeAndCorrect(service, matcher, data[i]);
      data[i] := data[i].(coordinates := coords, city := city);
      i := i + 1;
    }
  }

  /** `dropna(subset=['Coordinates'])`: the rows that were resolved, in order. */
  function DropUnresolved(rows: seq<Incident>): (kept: seq<Incident>)
    ensures forall i :: 0 <= i < |kept| ==> HasCoordinates(kept[i]) && kept[i] in rows
    ensures forall i :: 0 <= i < |rows| && HasCoordinates(rows[i]) ==> rows[i] in kept
  {
    Filter(rows, HasCoordinates)
  }

  /**
   * Every row that survives has coordinates, every resolved row survives, the
   * survivors keep their relative order, and the rows dropped are exactly the
   * unresolved ones.
   */
  lemma DropUnresolvedSpec(rows: seq<Incident>)
    ensures var kept := DropUnresolved(rows);
      && (forall i :: 0 <= i < |kept| ==> HasCoordinates(kept[i]))
      && (forall i :: 0 <= i < |rows| && HasCoordinates(rows[i]) ==> rows[i] in kept)
      && IsSubseq(kept, rows)
      && |kept| + |Filter(rows, (r: Incident) => !HasCoordinates(r))| == |rows|
  {
    FilterIsSubseq(rows, HasCoordinates);
    FilterSplit(rows, HasCoordinates, (r: Incident) => !HasCoordinates(r));
  }

  /**
   * `preprocess_data` of the map that drops unresolved rows: resolve every row
   * in place, then keep those with coordinates.
   */
  method PreprocessAndDrop(service: GeocodingService, matcher: Matcher, data: array<Incident>)
    returns (kept: seq<Incident>)
    modifies data
    ensures forall i :: 0 <= i < data.Length ==> data[i] == Corrected(service, matcher, old(data[i]))
    ensures kept == DropUnresolved(data[..])
    ensures forall i :: 0 <= i < |kept| ==> HasCoordinates(kept[i])
  {
    PreprocessData(service, matcher, data);
    kept := DropUnresolved(data[..]);
    DropUnresolvedSpec(data[..]);
  }

  /** The coordinate the map without fuzzy fallback gives a row: the exact lookup alone. */
  function ExactCoordinates(service: GeocodingService, r: Incident): (c: Option<Coordinate>)
    ensures c.Some? <==> service(r.city + ", " + r.country).Found?
    ensures c.Some? ==> c.value == service(r.city + ", " + r.country).at
  {
    GeocodeAddress(service, Address(r.city, r.country))
  }

  /**
   * The `app.py` map, which has no fuzzy fallback: every row's Coordinates
   * column is set, in place, to the answer for "City, Country"; nothing else
   * changes.
   */
  method AttachCoordinates(service: GeocodingService, data: array<Incident>)
    modifies data
    ensures forall i :: 0 <= i < data.Length ==>
      data[i] == old(data[i]).(coordinates := ExactCoordinates(service, old(data[i])))
  {
    var i := 0;
    while i < data.Length
      invariant 0 <= i <= data.Length
      invariant forall j :: 0 <= j < i ==> data[j] == old(data[j]).(coordinates := ExactCoordinates(service, old(data[j])))
      invariant forall j :: i <= j < data.Length ==> data[j] == old(data[j])
    {
      data[i] := data[i].(coordinates := GeocodeAddress(service, Address(data[i].city, data[i].country)));
      i := i + 1;
    }
  }

  /**
   * The fuzzy fallback only adds: where the exact lookup succeeds both variants
   * agree and keep City; where the fallback variant finds nothing, so does the
   * exact one.
   */
  lemma FallbackExtendsExact(service: GeocodingService, matcher: Matcher, r: Incident)
    ensures ExactCoordinates(service, r).Some? ==>
      Corrected(service, matcher, r) == r.(coordinates := ExactCoordinates(service, r))
    ensures !HasCoordinates(Corrected(service, matcher, r)) ==> ExactCoordinates(service, r).None?
  {
  }
}
