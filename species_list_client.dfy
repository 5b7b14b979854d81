/** The client half of the species list page: the live search and its empty state. */
module SpeciesListClient {
  import opened Wrappers
  import opened Text
  import opened ArrayFilter
  import opened SpeciesRow

  /** The searchable columns of a record, in the order the page lists them. */
  function SearchFields(sp: Species): seq<Option<string>> {
    [sp.scientificName, sp.commonName, sp.description]
  }

  /** `.filter(Boolean)` on the column values: drops null and "" and keeps the rest in order. */
  function Truthy(fields: seq<Option<string>>): (r: seq<string>)
    ensures forall f :: f in r <==> f != "" && Some(f) in fields
  {
    if fields == [] then []
    else (if fields[0].Some? && fields[0].value != "" then [fields[0].value] else []) + Truthy(fields[1..])
  }

  /** `.some(field => field.toLowerCase().includes(query.toLowerCase()))`. */
  function SomeIncludes(fields: seq<string>, query: string): (b: bool)
    ensures b <==> exists f :: f in fields && Includes(Lower(f), Lower(query))
  {
    if fields == [] then false
    else if Includes(Lower(fields[0]), Lower(query)) then
      assert fields[0] in fields;
      true
    else
      var b := SomeIncludes(fields[1..], query);
      assert forall f :: f in fields ==> f == fields[0] || f in fields[1..];
      assert b ==> exists f :: f in fields[1..] && Includes(Lower(f), Lower(query));
      b
  }

  /** The callback that decides whether a record stays in the list. */
  predicate Matches(sp: Species, query: string) {
    SomeIncludes(Truthy(SearchFields(sp)), query)
  }

  /** `filteredSpecies`: the records the search keeps, in list order. */
  function Filter(species: seq<Species>, query: string): seq<Species> {
    FilterBy(species, sp => Matches(sp, query))
  }

  /** One column, taken on its own: present, non-empty, and containing the query. */
  predicate FieldMatches(field: Option<string>, query: string) {
    field.Some? && field.value != "" && Includes(Lower(field.value), Lower(query))
  }

  /** At least one searchable column holds a non-empty string. */
  predicate HasSearchableText(sp: Species) {
    || (sp.scientificName.Some? && sp.scientificName.value != "")
    || (sp.commonName.Some? && sp.commonName.value != "")
    || (sp.description.Some? && sp.description.value != "")
  }

  /** A record matches iff one of its three columns matches on its own. */
  lemma MatchesIff(sp: Species, query: string)
    ensures Matches(sp, query) <==>
      FieldMatches(sp.scientificName, query) || FieldMatches(sp.commonName, query) || FieldMatches(sp.description, query)
  {
    var fields := Truthy(SearchFields(sp));
    if FieldMatches(sp.scientificName, query) {
      assert sp.scientificName.value in fields;
    }
    if FieldMatches(sp.commonName, query) {
      assert sp.commonName.value in fields;
    }
    if FieldMatches(sp.description, query) {
      assert sp.description.value in fields;
    }
  }

  /** A record is kept iff it is in the list and one of its columns matches. */
  lemma FilterMembership(species: seq<Species>, query: string, sp: Species)
    ensures sp in Filter(species, query) <==>
      sp in species &&
      (FieldMatches(sp.scientificName, query) || FieldMatches(sp.commonName, query) || FieldMatches(sp.description, query))
  {
    FilterByMembership(species, sp => Matches(sp, query), sp);
    MatchesIff(sp, query);
  }

  /** The result is the input with records deleted: order kept, nothing added. */
  lemma FilterSubsequence(species: seq<Species>, query: string)
    ensures IsSubsequence(Filter(species, query), species)
  {
    FilterBySubsequence(species, sp => Matches(sp, query));
  }

  /** A kept record appears exactly as often as in the input; nothing is duplicated. */
  lemma FilterCount(species: seq<Species>, query: string, sp: Species)
    ensures multiset(Filter(species, query))[sp] == if Matches(sp, query) then multiset(species)[sp] else 0
  {
    FilterByCount(species, x => Matches(x, query), sp);
  }

  /** With the empty query only the records with some non-empty searchable column remain. */
  lemma EmptyQuery(species: seq<Species>)
    ensures Filter(species, "") == FilterBy(species, HasSearchableText)
  {
    forall sp | sp in species ensures Matches(sp, "") == HasSearchableText(sp) {
      MatchesIff(sp, "");
      IncludesEmpty(Lower(sp.scientificName.GetOr("")));
      IncludesEmpty(Lower(sp.commonName.GetOr("")));
      IncludesEmpty(Lower(sp.description.GetOr("")));
    }
    FilterByCongruent(species, sp => Matches(sp, ""), HasSearchableText);
  }

  /** A record whose searchable columns are all null or "" never shows, whatever the query. */
  lemma BlankRecordExcluded(species: seq<Species>, query: string, sp: Species)
    requires !HasSearchableText(sp)
    ensures sp !in Filter(species, query)
  {
    FilterMembership(species, query, sp);
  }

  /** When every record has some searchable text, the empty query shows the whole list. */
  lemma EmptyQueryShowsAll(species: seq<Species>)
    requires forall sp :: sp in species ==> HasSearchableText(sp)
    ensures Filter(species, "") == species
  {
    EmptyQuery(species);
    FilterByCongruent(species, HasSearchableText, _ => true);
    FilterByAll(species);
  }

  /** Queries with the same lower-case form give the same result. */
  lemma CaseInsensitive(species: seq<Species>, q1: string, q2: string)
    requires Lower(q1) == Lower(q2)
    ensures Filter(species, q1) == Filter(species, q2)
  {
    forall sp | sp in species ensures Matches(sp, q1) == Matches(sp, q2) {
      MatchesIff(sp, q1);
      MatchesIff(sp, q2);
    }
    FilterByCongruent(species, sp => Matches(sp, q1), sp => Matches(sp, q2));
  }

  /** Searching for the lower-cased query is the same as searching for the query. */
  lemma LowerQuery(species: seq<Species>, query: string)
    ensures Filter(species, Lower(query)) == Filter(species, query)
  {
    LowerIdempotent(query);
    CaseInsensitive(species, Lower(query), query);
  }

  /** Searching the result again with the same query changes nothing. */
  lemma FilterIdempotent(species: seq<Species>, query: string)
    ensures Filter(Filter(species, query), query) == Filter(species, query)
  {
    FilterByIdempotent(species, sp => Matches(sp, query));
  }

  /** Typing more narrows the list: a longer query keeps a sub-list of what its substring keeps. */
  lemma Narrowing(species: seq<Species>, q1: string, q2: string)
    requires Includes(q2, q1)
    ensures IsSubsequence(Filter(species, q2), Filter(species, q1))
  {
    IncludesLower(q2, q1);
    forall sp | sp in species && Matches(sp, q2) ensures Matches(sp, q1) {
      MatchesIff(sp, q2);
      MatchesIff(sp, q1);
      forall field: Option<string> | FieldMatches(field, q2) ensures FieldMatches(field, q1) {
        IncludesTransitive(Lower(field.value), Lower(q2), Lower(q1));
      }
    }
    FilterByMonotone(species, sp => Matches(sp, q2), sp => Matches(sp, q1));
  }

  /** A two-record list keeps each record on its own merits, in list order. */
  lemma FilterPair(a: Species, b: Species, query: string)
    ensures Filter([a, b], query) == (if Matches(a, query) then [a] else []) + (if Matches(b, query) then [b] else [])
  {
    var keep := sp => Matches(sp, query);
    assert [a, b][1..] == [b] && [b][1..] == [];
    assert FilterBy([b], keep) == (if keep(b) then [b] else []) + FilterBy([], keep);
    assert FilterBy([a, b], keep) == (if keep(a) then [a] else []) + FilterBy([b], keep);
  }

  // A worked example: a lion and a white oak, newest (highest id) first.

  predicate IsLion(sp: Species) {
    sp.id == 3 && sp.scientificName == Some("Panthera leo") && sp.commonName == Some("Lion") && sp.description == None
  }

  predicate IsOak(sp: Species) {
    sp.id == 1 && sp.scientificName == Some("Quercus alba") && sp.commonName == Some("White Oak") && sp.description == None
  }

  lemma PantheraLeoMissesOak(name: string, query: string)
    requires name == "Panthera leo" && query == "oak"
    ensures !FieldMatches(Some(name), query)
  {
    LowerPantheraLeo(name);
    assert Lower(query) == "oak";
    NotIncludes("panthera leo", "oak");
  }

  lemma LionMissesOakName(name: string, query: string)
    requires name == "Lion" && query == "oak"
    ensures !FieldMatches(Some(name), query)
  {
    LowerLion(name);
    assert Lower(query) == "oak";
    NotIncludes("lion", "oak");
  }

  lemma QuercusAlbaMissesLion(name: string, query: string)
    requires name == "Quercus alba" && query == "lion"
    ensures !FieldMatches(Some(name), query)
  {
    LowerQuercusAlba(name);
    assert Lower(query) == "lion";
    NotIncludes("quercus alba", "lion");
  }

  lemma WhiteOakMissesLion(name: string, query: string)
    requires name == "White Oak" && query == "lion"
    ensures !FieldMatches(Some(name), query)
  {
    LowerWhiteOak(name);
    assert Lower(query) == "lion";
    NotIncludes("white oak", "lion");
  }

  lemma LowerPantheraLeo(s: string) requires s == "Panthera leo" ensures Lower(s) == "panthera leo" {}
  lemma LowerLion(s: string) requires s == "Lion" ensures Lower(s) == "lion" {}
  lemma LowerQuercusAlba(s: string) requires s == "Quercus alba" ensures Lower(s) == "quercus alba" {}
  lemma LowerWhiteOak(s: string) requires s == "White Oak" ensures Lower(s) == "white oak" {}

  lemma LionMissesOak(lion: Species, query: string)
    requires IsLion(lion) && query == "oak"
    ensures !Matches(lion, query)
  {
    PantheraLeoMissesOak(lion.scientificName.value, query);
    LionMissesOakName(lion.commonName.value, query);
    MatchesIff(lion, query);
  }

  lemma OakMatchesOak(oak: Species, query: string)
    requires IsOak(oak) && query == "oak"
    ensures Matches(oak, query)
  {
    assert Lower(query) == "oak";
    LowerWhiteOak(oak.commonName.value);
    assert OccursAt("white oak", "oak", 6);
    IncludesAt("white oak", "oak", 6);
    MatchesIff(oak, query);
  }

  lemma OakMissesLion(oak: Species, query: string)
    requires IsOak(oak) && query == "lion"
    ensures !Matches(oak, query)
  {
    QuercusAlbaMissesLion(oak.scientificName.value, query);
    WhiteOakMissesLion(oak.commonName.value, query);
    MatchesIff(oak, query);
  }

  lemma LionMatchesLion(lion: Species, query: string)
    requires IsLion(lion) && query == "lion"
    ensures Matches(lion, query)
  {
    assert Lower(query) == "lion";
    LowerLion(lion.commonName.value);
    assert OccursAt("lion", "lion", 0);
    IncludesAt("lion", "lion", 0);
    MatchesIff(lion, query);
  }

  /** The query "oak" finds only the white oak. */
  lemma OakQuery(lion: Species, oak: Species, query: string)
    requires IsLion(lion) && IsOak(oak) && query == "oak"
    ensures Filter([lion, oak], query) == [oak]
  {
    LionMissesOak(lion, query);
    OakMatchesOak(oak, query);
    FilterPair(lion, oak, query);
  }

  /** The query "lion" finds only the lion. */
  lemma LionQuery(lion: Species, oak: Species, query: string)
    requires IsLion(lion) && IsOak(oak) && query == "lion"
    ensures Filter([lion, oak], query) == [lion]
  {
    LionMatchesLion(lion, query);
    OakMissesLion(oak, query);
    FilterPair(lion, oak, query);
  }

  /** The empty query shows both, in their original order. */
  lemma BlankQueryShowsBoth(lion: Species, oak: Species)
    requires IsLion(lion) && IsOak(oak)
    ensures Filter([lion, oak], "") == [lion, oak]
  {
    EmptyQueryShowsAll([lion, oak]);
  }

  // ------------------------------------------------------------- rendering

  /** What a card receives: the React key, the record and the viewer's id. */
  datatype Card = Card(key: int, species: Species, sessionId: string)

  /** The list area: one card per kept record, or the "No species found." message. */
  datatype Listing = Cards(cards: seq<Card>) | NoSpeciesFound

  function Render(species: seq<Species>, sessionId: string, searchQuery: string): (v: Listing)
    ensures v.NoSpeciesFound? <==> Filter(species, searchQuery) == []
    ensures v.Cards? ==>
      var shown := Filter(species, searchQuery);
      |v.cards| == |shown| &&
      forall i :: 0 <= i < |shown| ==> v.cards[i] == Card(shown[i].id, shown[i], sessionId)
  {
    var shown := Filter(species, searchQuery);
    if |shown| > 0 then
      Cards(seq(|shown|, i requires 0 <= i < |shown| => Card(shown[i].id, shown[i], sessionId)))
    else
      NoSpeciesFound
  }
}
