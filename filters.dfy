/**
 * The incident filter chain: five optional membership filters, an inclusive
 * date range and a case-insensitive search over Title, Country and City.
 */
module Filters {
  import opened Seqs
  import opened Text
  import opened Incidents

  /** The columns the sidebar offers a multiselect for. */
  datatype Column = Type | Category | Country | Impact | Severity

  function FieldOf(r: Incident, c: Column): string {
    match c
    case Type => r.incidentType
    case Category => r.category
    case Country => r.country
    case Impact => r.impact
    case Severity => r.severity
  }

  /** The values chosen in each multiselect; an empty choice means "no constraint". */
  datatype Selections = Selections(
    types: seq<string>,
    categories: seq<string>,
    countries: seq<string>,
    impacts: seq<string>,
    severities: seq<string>)

  /** A choice admits a value when nothing is chosen or the value is among the chosen. */
  predicate Admits(chosen: seq<string>, value: string) {
    |chosen| == 0 || value in chosen
  }

  /** One step `if chosen: rows = rows[rows[column].isin(chosen)]`. */
  function SelectIn(rows: seq<Incident>, c: Column, chosen: seq<string>): (r: seq<Incident>)
    ensures |r| <= |rows|
    ensures forall i :: 0 <= i < |r| ==> FieldOf(r[i], c) in chosen || |chosen| == 0
  {
    if |chosen| == 0 then rows else Filter(rows, r => FieldOf(r, c) in chosen)
  }

  /** The five membership steps, in the order the dashboards apply them. */
  function ApplySelections(rows: seq<Incident>, s: Selections): (r: seq<Incident>)
    ensures |r| <= |rows|
  {
    var byType := SelectIn(rows, Type, s.types);
    var byCategory := SelectIn(byType, Category, s.categories);
    var byCountry := SelectIn(byCategory, Country, s.countries);
    var byImpact := SelectIn(byCountry, Impact, s.impacts);
    SelectIn(byImpact, Severity, s.severities)
  }

  /** A row passes the membership filters when every one of the five admits it. */
  predicate PassesSelections(r: Incident, s: Selections) {
    && Admits(s.types, r.incidentType)
    && Admits(s.categories, r.category)
    && Admits(s.countries, r.country)
    && Admits(s.impacts, r.impact)
    && Admits(s.severities, r.severity)
  }

  /** `(Date >= start_date) & (Date <= end_date)`: both ends included. */
  predicate InDateRange(r: Incident, start: int, end: int) {
    start <= r.date <= end
  }

  /** The search term occurs, ignoring case, in the Title, the Country or the City. */
  predicate MatchesSearch(r: Incident, term: string) {
    ContainsIgnoringCase(r.title, term) || ContainsIgnoringCase(r.country, term) || ContainsIgnoringCase(r.city, term)
  }

  /** `if search_term:` guards the search, so an empty term keeps every row. */
  function SearchRows(rows: seq<Incident>, term: string): (r: seq<Incident>)
    ensures |r| <= |rows|
    ensures |term| == 0 ==> r == rows
    ensures forall i :: 0 <= i < |r| ==> |term| == 0 || MatchesSearch(r[i], term)
  {
    if |term| == 0 then rows else Filter(rows, r => MatchesSearch(r, term))
  }

  /** `filter_data`: membership filters, then the date range, then the search. */
  function FilterData(rows: seq<Incident>, s: Selections, start: int, end: int, term: string): (r: seq<Incident>)
    ensures |r| <= |rows|
    ensures forall i :: 0 <= i < |r| ==> InDateRange(r[i], start, end) && (|term| == 0 || MatchesSearch(r[i], term))
  {
    var selected := ApplySelections(rows, s);
    var dated := Filter(selected, r => InDateRange(r, start, end));
    SearchRows(dated, term)
  }

  /** Everything `filter_data` asks of one row. */
  predicate Keep(r: Incident, s: Selections, start: int, end: int, term: string) {
    PassesSelections(r, s) && InDateRange(r, start, end) && (|term| == 0 || MatchesSearch(r, term))
  }

  /** After rows already selected by `p`, one membership step selects by `p` and the step's test. */
  lemma SelectInAfter(rows: seq<Incident>, p: Incident -> bool, c: Column, chosen: seq<string>, pc: Incident -> bool)
    requires forall r :: r in rows ==> pc(r) == (p(r) && Admits(chosen, FieldOf(r, c)))
    ensures SelectIn(Filter(rows, p), c, chosen) == Filter(rows, pc)
  {
    if |chosen| == 0 {
      FilterExt(rows, p, pc);
    } else {
      FilterFuse(rows, p, r => FieldOf(r, c) in chosen, pc);
    }
  }

  /** The columns in the order the chain filters them. */
  function ColumnAt(n: nat): Column {
    if n == 0 then Type else if n == 1 then Category else if n == 2 then Country else if n == 3 then Impact else Severity
  }

  function ChosenFor(s: Selections, c: Column): seq<string> {
    match c
    case Type => s.types
    case Category => s.categories
    case Country => s.countries
    case Impact => s.impacts
    case Severity => s.severities
  }

  /** The row passes the first `n` membership steps of the chain. */
  predicate PassesFirst(r: Incident, s: Selections, n: nat) {
    n == 0 || (PassesFirst(r, s, n - 1) && Admits(ChosenFor(s, ColumnAt(n - 1)), FieldOf(r, ColumnAt(n - 1))))
  }

  /** Passing all five steps of the chain is passing the membership filters. */
  lemma PassesAllFive(r: Incident, s: Selections)
    ensures PassesFirst(r, s, 5) == PassesSelections(r, s)
  {
    assert PassesFirst(r, s, 1) == Admits(s.types, r.incidentType);
    assert PassesFirst(r, s, 2) == (PassesFirst(r, s, 1) && Admits(s.categories, r.category));
    assert PassesFirst(r, s, 3) == (PassesFirst(r, s, 2) && Admits(s.countries, r.country));
    assert PassesFirst(r, s, 4) == (PassesFirst(r, s, 3) && Admits(s.impacts, r.impact));
  }

  /** `PassesFirst` as a selection test, one closure per prefix length. */
  function PassesFirstTest(s: Selections, n: nat): Incident -> bool {
    r => PassesFirst(r, s, n)
  }

  /**
   * Step `n` of the chain, applied to the rows that passed the first `n`
   * steps, leaves the rows that pass the first `n + 1`.
   */
  lemma ChainStep(rows: seq<Incident>, prev: seq<Incident>, s: Selections, n: nat, c: Column, chosen: seq<string>)
    requires prev == Filter(rows, PassesFirstTest(s, n))
    requires c == ColumnAt(n) && chosen == ChosenFor(s, c)
    ensures SelectIn(prev, c, chosen) == Filter(rows, PassesFirstTest(s, n + 1))
  {
    SelectInAfter(rows, PassesFirstTest(s, n), c, chosen, PassesFirstTest(s, n + 1));
  }

  /** The Type and Category steps leave the rows that pass the first two. */
  lemma ChainFirstTwo(rows: seq<Incident>, s: Selections)
    ensures SelectIn(SelectIn(rows, Type, s.types), Category, s.categories) == Filter(rows, PassesFirstTest(s, 2))
  {
    FilterAll(rows, PassesFirstTest(s, 0));
    ChainStep(rows, rows, s, 0, Type, s.types);
    ChainStep(rows, SelectIn(rows, Type, s.types), s, 1, Category, s.categories);
  }

  /** The Country, Impact and Severity steps, after the first two, leave the rows that pass all five. */
  lemma ChainLastThree(rows: seq<Incident>, byCategory: seq<Incident>, s: Selections)
    requires byCategory == Filter(rows, PassesFirstTest(s, 2))
    ensures SelectIn(SelectIn(SelectIn(byCategory, Country, s.countries), Impact, s.impacts), Severity, s.severities)
      == Filter(rows, PassesFirstTest(s, 5))
  {
    var byCountry := SelectIn(byCategory, Country, s.countries);
    ChainStep(rows, byCategory, s, 2, Country, s.countries);
    var byImpact := SelectIn(byCountry, Impact, s.impacts);
    ChainStep(rows, byCountry, s, 3, Impact, s.impacts);
    ChainStep(rows, byImpact, s, 4, Severity, s.severities);
  }

  /** The five steps leave the rows that pass the first five. */
  lemma ApplySelectionsChain(rows: seq<Incident>, s: Selections)
    ensures ApplySelections(rows, s) == Filter(rows, PassesFirstTest(s, 5))
  {
    ChainFirstTwo(rows, s);
    ChainLastThree(rows, SelectIn(SelectIn(rows, Type, s.types), Category, s.categories), s);
  }

  /**
   * The membership chain keeps exactly the rows that every active filter
   * admits, in their original order and multiplicity.
   */
  lemma ApplySelectionsExact(rows: seq<Incident>, s: Selections)
    ensures ApplySelections(rows, s) == Filter(rows, r => PassesSelections(r, s))
  {
    ApplySelectionsChain(rows, s);
    forall r | r in rows
      ensures PassesFirstTest(s, 5)(r) == PassesSelections(r, s)
    {
      PassesAllFive(r, s);
    }
    FilterExt(rows, PassesFirstTest(s, 5), r => PassesSelections(r, s));
  }

  /**
   * The inline chain: its result is an order-preserving subsequence of the
   * input, and a row is in it exactly when it is in the input and every
   * non-empty selection contains its field.
   */
  lemma ApplySelectionsSubseq(rows: seq<Incident>, s: Selections)
    ensures var out := ApplySelections(rows, s);
      && IsSubseq(out, rows)
      && (forall i :: 0 <= i < |out| ==> PassesSelections(out[i], s))
      && (forall i :: 0 <= i < |rows| && PassesSelections(rows[i], s) ==> rows[i] in out)
  {
    ApplySelectionsExact(rows, s);
    FilterIsSubseq(rows, r => PassesSelections(r, s));
  }

  /** With nothing chosen in any multiselect, the chain returns the data unchanged. */
  lemma EmptySelectionsKeepAll(rows: seq<Incident>)
    ensures ApplySelections(rows, Selections([], [], [], [], [])) == rows
  {
  }

  /**
   * `filter_data` keeps exactly the rows that pass every active membership
   * filter, fall in the inclusive date range and, for a non-empty term, match
   * the search; order and multiplicity are those of the input.
   */
  lemma FilterDataExact(rows: seq<Incident>, s: Selections, start: int, end: int, term: string)
    ensures FilterData(rows, s, start, end, term) == Filter(rows, r => Keep(r, s, start, end, term))
  {
    ApplySelectionsExact(rows, s);
    var ps := (r: Incident) => PassesSelections(r, s);
    var pd := (r: Incident) => ps(r) && InDateRange(r, start, end);
    FilterFuse(rows, ps, r => InDateRange(r, start, end), pd);
    if |term| == 0 {
      FilterExt(rows, pd, r => Keep(r, s, start, end, term));
    } else {
      FilterFuse(rows, pd, r => MatchesSearch(r, term), r => Keep(r, s, start, end, term));
    }
  }

  /**
   * `filter_data` returns an order-preserving subsequence of its input, and a
   * row is in it exactly when it is in the input and meets every condition.
   */
  lemma FilterDataSubseq(rows: seq<Incident>, s: Selections, start: int, end: int, term: string)
    ensures var out := FilterData(rows, s, start, end, term);
      && IsSubseq(out, rows)
      && (forall i :: 0 <= i < |out| ==> Keep(out[i], s, start, end, term))
      && (forall i :: 0 <= i < |rows| && Keep(rows[i], s, start, end, term) ==> rows[i] in out)
  {
    FilterDataExact(rows, s, start, end, term);
    FilterIsSubseq(rows, r => Keep(r, s, start, end, term));
  }

  /** The date range keeps a row dated exactly at either end. */
  lemma DateRangeInclusive(rows: seq<Incident>, start: int, end: int)
    ensures forall i :: 0 <= i < |rows| && (rows[i].date == start || rows[i].date == end) && start <= end ==>
      rows[i] in FilterData(rows, Selections([], [], [], [], []), start, end, "")
  {
    FilterDataSubseq(rows, Selections([], [], [], [], []), start, end, "");
  }
}
