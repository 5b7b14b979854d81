/** The read-only "Learn More" dialog of one species. */
module SpeciesDetails {
  import opened Wrappers
  import opened Text

  /** The record as this dialog declares it: name and kingdom are never null. */
  datatype DetailsSpecies = DetailsSpecies(
    scientificName: string,
    commonName: Option<string>,
    totalPopulation: Option<int>,
    kingdom: string,
    description: Option<string>)

  /** The text the dialog shows, one string per slot. */
  datatype DetailsView = DetailsView(
    title: string,
    description: string,
    scientificName: string,
    kingdom: string,
    totalPopulation: string)

  const NoDescription := "No description available."
  const UnknownPopulation := "Unknown"

  /**
   * The displayed strings. Each fallback replaces null only: an empty
   * common name gives an empty title, and a population of 0 shows as "0".
   */
  function Details(sp: DetailsSpecies): (v: DetailsView)
    ensures sp.commonName.Some? ==> v.title == sp.commonName.value
    ensures sp.commonName.None? ==> v.title == sp.scientificName
    ensures sp.description.Some? ==> v.description == sp.description.value
    ensures sp.description.None? ==> v.description == NoDescription
    ensures v.scientificName == sp.scientificName && v.kingdom == sp.kingdom
    ensures sp.totalPopulation.Some? ==> v.totalPopulation == DecimalString(sp.totalPopulation.value)
    ensures sp.totalPopulation.None? ==> v.totalPopulation == UnknownPopulation
  {
    var population := if sp.totalPopulation.Some? then DecimalString(sp.totalPopulation.value) else UnknownPopulation;
    DetailsView(
      sp.commonName.GetOr(sp.scientificName),
      sp.description.GetOr(NoDescription),
      sp.scientificName,
      sp.kingdom,
      population)
  }

  /**
   * The population line determines the population: reading it back gives
   * the number shown, and only a null population reads as "Unknown".
   */
  lemma PopulationReadsBack(sp: DetailsSpecies)
    ensures ParseDecimal(Details(sp).totalPopulation) == sp.totalPopulation
    ensures Details(sp).totalPopulation == UnknownPopulation <==> sp.totalPopulation.None?
  {
    if sp.totalPopulation.Some? {
      DecimalRoundTrip(sp.totalPopulation.value);
    }
  }

  /** An empty common name is shown as an empty title, not replaced by the scientific name. */
  lemma EmptyCommonNameShown(sp: DetailsSpecies)
    requires sp.commonName == Some("")
    ensures Details(sp).title == ""
  {
  }

  /** A population of 0 is shown as "0", not as "Unknown". */
  lemma ZeroPopulationShown(sp: DetailsSpecies)
    requires sp.totalPopulation == Some(0)
    ensures Details(sp).totalPopulation == "0"
  {
  }

  /** Distinct known populations are shown as distinct text. */
  lemma PopulationDisplayInjective(a: DetailsSpecies, b: DetailsSpecies)
    requires Details(a).totalPopulation == Details(b).totalPopulation
    ensures a.totalPopulation == b.totalPopulation
  {
    PopulationReadsBack(a);
    PopulationReadsBack(b);
  }
}
