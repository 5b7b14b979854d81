/** The stored `species` record the pages receive from the store. */
module SpeciesRow {
  import opened Wrappers

  /**
   * One row of the `species` table. Every column but `id` is treated as
   * nullable, which is what the `??` fallbacks of the edit form allow for.
   */
  datatype Species = Species(
    id: int,
    scientificName: Option<string>,
    commonName: Option<string>,
    kingdom: Option<string>,
    totalPopulation: Option<int>,
    description: Option<string>)
}
