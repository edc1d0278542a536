/**
 * The knowledge base: a fixed, ordered list of Paris locations with a
 * case-insensitive exact-name lookup and a distance sentence for two names.
 */
module KnowledgeBase {
  import opened Wrappers
  import opened Text

  /** A stored location. Only the name is read by the routing; the
      coordinates are what the distance figures are computed from. */
  datatype Location = Location(name: string, lat: real, lon: real)

  /** The figures of a distance sentence, already rendered as text:
      kilometres and miles to two decimals, walking and metro minutes. */
  datatype Figures = Figures(km: string, miles: string, walking: string, metro: string)

  const EiffelTower: string := "Eiffel Tower"
  const LouvreMuseum: string := "Louvre Museum"
  const ArcDeTriomphe: string := "Arc de Triomphe"

  /** The three locations the knowledge base is built with, in order. */
  function ParisLocations(): (locations: seq<Location>)
    ensures |locations| == 3
  {
    [ Location(EiffelTower, 48.8584, 2.2945),
      Location(LouvreMuseum, 48.8606, 2.3376),
      Location(ArcDeTriomphe, 48.8738, 2.2950) ]
  }

  /** The stored name equals the requested one once both are lower-cased. */
  predicate NameMatches(loc: Location, name: string)
  {
    Lower(loc.name) == Lower(name)
  }

  /** Index `i` holds the first location whose name matches. */
  predicate FirstMatchAt(locations: seq<Location>, name: string, i: int)
  {
    0 <= i < |locations| && NameMatches(locations[i], name) &&
    forall j :: 0 <= j < i ==> !NameMatches(locations[j], name)
  }

  /** ParisKB.find: the first stored location whose name matches, if any. */
  function Find(locations: seq<Location>, name: string): (r: Option<Location>)
    ensures r.None? <==> forall i :: 0 <= i < |locations| ==> !NameMatches(locations[i], name)
    ensures r.Some? ==> exists i :: FirstMatchAt(locations, name, i) && locations[i] == r.value
  {
    if locations == [] then None
    else if NameMatches(locations[0], name) then
      assert FirstMatchAt(locations, name, 0);
      Some(locations[0])
    else
      var r := Find(locations[1..], name);
      if r.Some? then
        var i :| FirstMatchAt(locations[1..], name, i) && locations[1..][i] == r.value;
        assert FirstMatchAt(locations, name, i + 1);
        r
      else
        r
  }

  /** The spelling of the requested name does not matter, only its lower-case form. */
  lemma {:induction false} FindIgnoresCase(locations: seq<Location>, a: string, b: string)
    requires Lower(a) == Lower(b)
    ensures Find(locations, a) == Find(locations, b)
  {
    if locations != [] {
      FindIgnoresCase(locations[1..], a, b);
    }
  }

  /** Every stored name is found, and what is found is that very location. */
  lemma FindStored(i: nat)
    requires i < |ParisLocations()|
    ensures Find(ParisLocations(), ParisLocations()[i].name) == Some(ParisLocations()[i])
  {
    var locs := ParisLocations();
    // The three names have different lengths, so no other entry matches.
    forall j | 0 <= j < 3 && j != i
      ensures !NameMatches(locs[j], locs[i].name)
    {
      assert |Lower(locs[j].name)| != |Lower(locs[i].name)|;
    }
    assert FirstMatchAt(locs, locs[i].name, i);
  }

  /** The heading a distance sentence starts with: the two stored names. */
  function Heading(a: Location, b: Location): string
  {
    a.name + " → " + b.name + ": "
  }

  /** The figures part of a distance sentence. */
  function Details(f: Figures): string
  {
    f.km + " km (" + f.miles + " miles). " + "Walking ~" + f.walking + " min, Metro ~" + f.metro + " min."
  }

  /** The sentence for two found locations; the figures come from outside. */
  function Sentence(a: Location, b: Location, f: Figures): string
  {
    Heading(a, b) + Details(f)
  }

  /** ParisKB.distance_report: absent when either name is unknown, otherwise a
      sentence headed by the two STORED names. `measure` stands for the
      haversine distance and its rendering. */
  function DistanceReport(locations: seq<Location>, measure: (Location, Location) -> Figures,
                          a: string, b: string): (r: Option<string>)
    ensures r.None? <==> Find(locations, a).None? || Find(locations, b).None?
    ensures r.Some? ==> Heading(Find(locations, a).value, Find(locations, b).value) <= r.value
  {
    var A, B := Find(locations, a), Find(locations, b);
    if A.None? || B.None? then None
    else
      Some(Sentence(A.value, B.value, measure(A.value, B.value)))
  }

  /** The report does not depend on how the caller spelled the names. */
  lemma DistanceReportIgnoresCase(locations: seq<Location>, measure: (Location, Location) -> Figures,
                                  a: string, b: string, a': string, b': string)
    requires Lower(a) == Lower(a') && Lower(b) == Lower(b')
    ensures DistanceReport(locations, measure, a, b) == DistanceReport(locations, measure, a', b')
  {
    FindIgnoresCase(locations, a, a');
    FindIgnoresCase(locations, b, b');
  }

  /** The pair the router asks about: both names are stored, so the report
      exists, and it is headed by the two stored names. */
  lemma LouvreEiffelReport(measure: (Location, Location) -> Figures)
    ensures var louvre, eiffel := ParisLocations()[1], ParisLocations()[0];
      DistanceReport(ParisLocations(), measure, LouvreMuseum, EiffelTower) ==
        Some(Sentence(louvre, eiffel, measure(louvre, eiffel)))
    ensures LouvreMuseum + " → " + EiffelTower + ": " <= DistanceReport(ParisLocations(), measure, LouvreMuseum, EiffelTower).value
  {
    FindStored(0);
    FindStored(1);
  }
}
