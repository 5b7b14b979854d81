# Species catalogue: search, edit form and details view

This project models three pieces of logic from a small species catalogue web
application and proves properties about them in Dafny:

- **The live search on the species list** (`app/species/pageClient.tsx`).
  The list keeps a record when the lower-cased query occurs in the lower-cased
  text of one of its `scientific_name`, `common_name` or `description` values.
  Null and `""` values are dropped first (`.filter(Boolean)`). When nothing is
  kept, the list shows "No species found." instead of the cards.
  This is modelled in module `SpeciesListClient`. It uses a generic model of
  `Array.prototype.filter` (module `ArrayFilter`) and the JavaScript string
  built-ins it relies on (module `Text`).
- **The edit dialog** (`components/EditSpeciesDialog.tsx`), in module `EditSpecies`:
  - the zod schema, with `.min(1)` checked on the raw name before `.trim()`,
    the six-value kingdom enum, and a positive-integer-or-null population;
  - the form's default values taken from the stored row;
  - the four registered inputs (kingdom has none);
  - the submit handler. It is a class `EditSpeciesDialog` whose `open` flag,
    form values and logs of store updates, notifications and reload requests
    are fields that the methods update.
- **The details dialog** (`components/SpeciesDetailsDialog.tsx`), in module
  `SpeciesDetails`. It is a pure projection from a record to the strings shown,
  with `??` fallbacks that replace null only.

Two behaviours of the code are modelled as written, and the lemmas state them:

- One might expect the empty query to list every record. It does not: a record
  whose three searchable columns are all null or `""` has nothing left after
  `.filter(Boolean)`, and `.some` over an empty array is false. So
  `EmptyQuery` shows that the empty query keeps exactly the records with some
  non-empty searchable column.
- A scientific name made only of spaces passes `.min(1)`, because the length
  is checked before trimming, and is stored as `""` (`BlankNameAccepted`).

The store's reply to an update, which the source awaits, is a parameter of
`Submit` (`storeError`). The notifications, the update request and the page
reload are recorded as the arguments they are called with.

## Model

| member | source | states |
|---|---|---|
| Text.LowerChar | app/species/pageClient.tsx:22 | the lower-cased character is never upper-case; upper-case ASCII letters move to their lower-case letter and every other character is unchanged |
| Text.Lower | app/species/pageClient.tsx:22 | `toLowerCase` keeps the length and maps each character on its own |
| Text.LowerIdempotent | app/species/pageClient.tsx:22 | lower-casing twice is lower-casing once |
| Text.Includes | app/species/pageClient.tsx:22 | `includes` scans from the left; `IncludesIffOccurs` states it holds iff the query occurs at some index |
| Text.IncludesIffOccurs | app/species/pageClient.tsx:22 | the left-to-right scan of `includes` holds iff the query occurs at some index, in both directions |
| Text.IncludesAt | app/species/pageClient.tsx:22 | an occurrence at any index makes `includes` true |
| Text.IncludesEmpty | app/species/pageClient.tsx:22 | every string includes the empty query |
| Text.NotIncludes | app/species/pageClient.tsx:22 | a non-empty query whose first character appears at no possible start position is not included |
| Text.IncludesTransitive | app/species/pageClient.tsx:22 | a string that includes a longer query also includes every substring of that query |
| Text.IncludesLower | app/species/pageClient.tsx:22 | an occurrence survives lower-casing of both sides, character by character |
| Text.TrimStart | components/EditSpeciesDialog.tsx:27 | the result is a suffix of the input; what was removed is all whitespace; the result does not start with whitespace |
| Text.TrimEnd | components/EditSpeciesDialog.tsx:27 | the result is a prefix of the input; what was removed is all whitespace; the result does not end with whitespace |
| Text.Trim | components/EditSpeciesDialog.tsx:27 | the trimmed name has no whitespace at either end |
| Text.TrimPadded | components/EditSpeciesDialog.tsx:27 | `trim` removes only whitespace, and only from the two ends of the string |
| Text.TrimStartUnique | components/EditSpeciesDialog.tsx:27 | any whitespace prefix in front of a non-whitespace start is removed exactly |
| Text.TrimEndUnique | components/EditSpeciesDialog.tsx:27 | any whitespace suffix after a non-whitespace end is removed exactly |
| Text.TrimUnique | components/EditSpeciesDialog.tsx:27 | the trim of a string is the one non-empty trimmed string that it pads with whitespace |
| Text.TrimIdempotent | components/EditSpeciesDialog.tsx:27 | trimming a trimmed name changes nothing |
| Text.TrimEmptyIff | components/EditSpeciesDialog.tsx:27 | `trim` gives `""` exactly for strings made only of whitespace |
| Text.DecimalString | components/SpeciesDetailsDialog.tsx:40 | the text of an integral population of magnitude up to 2^53: a minus sign for negatives, then the digits that `Digits` describes; `DecimalRoundTrip` states it reads back as the number |
| Text.DigitChar | components/SpeciesDetailsDialog.tsx:40 | a digit value below 10 becomes the decimal digit character of that value |
| Text.Digits | components/SpeciesDetailsDialog.tsx:40 | the rendering of a number is a non-empty string of digits with no leading zero unless the number is 0 |
| Text.ParseDigitsOfDigits | components/SpeciesDetailsDialog.tsx:40 | reading the digits of a natural number gives the number back |
| Text.DecimalRoundTrip | components/SpeciesDetailsDialog.tsx:40 | reading back the decimal text of any integer, negative ones included, gives that integer |
| ArrayFilter.FilterBy | app/species/pageClient.tsx:19 | `filter` never grows the array and keeps only elements of the input that satisfy the callback |
| ArrayFilter.FilterByCount | app/species/pageClient.tsx:19 | an element the callback accepts appears as often as in the input; any other element does not appear |
| ArrayFilter.FilterByMembership | app/species/pageClient.tsx:19 | a value is in the result iff it is in the input and the callback accepts it |
| ArrayFilter.FilterBySubsequence | app/species/pageClient.tsx:19 | the result is a subsequence of the input: order kept, nothing added or repeated |
| ArrayFilter.FilterByMonotone | app/species/pageClient.tsx:19 | a callback implied by another keeps a supersequence of what the other keeps |
| ArrayFilter.FilterByCongruent | app/species/pageClient.tsx:19 | callbacks that agree on the input's elements give the same result |
| ArrayFilter.FilterByAll | app/species/pageClient.tsx:19 | a callback that accepts everything returns the array unchanged |
| ArrayFilter.FilterByIdempotent | app/species/pageClient.tsx:19 | filtering twice with the same callback is filtering once |
| SpeciesListClient.Truthy | app/species/pageClient.tsx:21 | `.filter(Boolean)` keeps exactly the present, non-empty values |
| SpeciesListClient.SomeIncludes | app/species/pageClient.tsx:22 | `.some` is true iff some kept value, lower-cased, includes the lower-cased query |
| SpeciesListClient.Matches | app/species/pageClient.tsx:19-22 | the filter callback; `MatchesIff` states it holds iff one of the three columns is present, non-empty and contains the query case-insensitively |
| SpeciesListClient.Filter | app/species/pageClient.tsx:19-23 | `filteredSpecies`; `FilterMembership` states which records it keeps, `FilterSubsequence` and `FilterCount` that it keeps them in order without adding or repeating any, and `EmptyQuery` what the empty query keeps |
| SpeciesListClient.MatchesIff | app/species/pageClient.tsx:20-22 | a record matches iff one of its three columns is present, non-empty and contains the query case-insensitively |
| SpeciesListClient.FilterMembership | app/species/pageClient.tsx:19-23 | a record is listed iff it is in the input and one of its three columns matches, in both directions |
| SpeciesListClient.FilterSubsequence | app/species/pageClient.tsx:19-23 | the listed records are a subsequence of the fetched records |
| SpeciesListClient.FilterCount | app/species/pageClient.tsx:19-23 | a matching record is listed as often as it was fetched, and any other record not at all |
| SpeciesListClient.EmptyQuery | app/species/pageClient.tsx:21-22 | the empty query keeps exactly the records with some non-empty searchable column, in order |
| SpeciesListClient.BlankRecordExcluded | app/species/pageClient.tsx:20-22 | a record whose three columns are null or `""` is excluded for every query, the empty one included |
| SpeciesListClient.EmptyQueryShowsAll | app/species/pageClient.tsx:19-23 | when every record has some searchable text, the empty query lists them all, unchanged |
| SpeciesListClient.CaseInsensitive | app/species/pageClient.tsx:22 | two queries with the same lower-case form give identical results |
| SpeciesListClient.LowerQuery | app/species/pageClient.tsx:22 | lower-casing the query does not change the result |
| SpeciesListClient.FilterIdempotent | app/species/pageClient.tsx:19-23 | searching the search result again with the same query changes nothing |
| SpeciesListClient.Narrowing | app/species/pageClient.tsx:22 | extending the query to one that contains it keeps a subsequence of the earlier result, with the query lower-cased character by character |
| SpeciesListClient.FilterPair | app/species/pageClient.tsx:19-23 | a two-record list keeps each record iff it matches, in list order |
| SpeciesListClient.OakQuery | app/species/pageClient.tsx:19-23 | for a lion and a white oak, the query "oak" lists only the oak |
| SpeciesListClient.LionQuery | app/species/pageClient.tsx:19-23 | for the same two records, "lion" lists only the lion |
| SpeciesListClient.BlankQueryShowsBoth | app/species/pageClient.tsx:19-23 | the empty query lists both records, in order |
| SpeciesListClient.Render | app/species/pageClient.tsx:37-43 | "No species found." is shown iff the filtered list is empty; otherwise one card per listed record, in order, keyed by its id |
| EditSpecies.ParseKingdom | components/EditSpeciesDialog.tsx:29 | a string parses to the kingdom it names, and to none when it names no kingdom |
| EditSpecies.KingdomRoundTrip | components/EditSpeciesDialog.tsx:29 | every kingdom's name parses back to that kingdom |
| EditSpecies.ParseScientificName | components/EditSpeciesDialog.tsx:27 | the name passes iff it is non-empty before trimming; the value is the trimmed name; failure is one minimum-length issue |
| EditSpecies.ParseKingdomField | components/EditSpeciesDialog.tsx:29 | the kingdom passes iff it is one of the six names; failure is one enum issue carrying the received value |
| EditSpecies.ParsePopulation | components/EditSpeciesDialog.tsx:30 | the population passes iff it is null or greater than 0, and is passed on unchanged; failure is one "greater than 0" issue |
| EditSpecies.Validate | components/EditSpeciesDialog.tsx:26-32 | `speciesSchema` on a whole form; `ValidateAccepts` states when it passes, `ValidateOutput` what a passing form yields, and `ValidateIssues` which issues a failing form reports |
| EditSpecies.ValidateAccepts | components/EditSpeciesDialog.tsx:26-32 | a form passes iff the raw name is non-empty, the kingdom is in the enum and the population is null or positive |
| EditSpecies.ValidateOutput | components/EditSpeciesDialog.tsx:26-32 | a passing form yields the trimmed name, the named kingdom, and the common name, population and description unchanged |
| EditSpecies.ValidateIssues | components/EditSpeciesDialog.tsx:26-32 | a failing form reports at least one issue, and an issue for a field iff that field fails its check |
| EditSpecies.BlankNameAccepted | components/EditSpeciesDialog.tsx:27 | a name made of one space passes and is stored as `""` |
| EditSpecies.AcceptedNameTrimmed | components/EditSpeciesDialog.tsx:27 | an accepted name has no whitespace at either end, and trimming it again changes nothing |
| EditSpecies.NonPositivePopulationRejected | components/EditSpeciesDialog.tsx:30 | a population of 0 or less fails validation with the population issue |
| EditSpecies.Defaults | components/EditSpeciesDialog.tsx:42-48 | null name, common name and description start as `""`; a null kingdom starts as "Animalia"; the population is copied, null included; present values are copied |
| EditSpecies.UntouchedFormResubmitsRow | components/EditSpeciesDialog.tsx:42-48 | for a row that meets the schema, saving the untouched form passes and writes the row back, with the name trimmed and null texts as `""` |
| EditSpecies.DefaultsHaveNoNullText | components/EditSpeciesDialog.tsx:42-48 | the form never starts with a null common name or description |
| EditSpecies.ApplyInput | components/EditSpeciesDialog.tsx:84-87 | no registered input changes the kingdom |
| EditSpecies.ApplyInputs | components/EditSpeciesDialog.tsx:84-87 | no sequence of edits changes the kingdom |
| EditSpecies.SubmittedKingdomIsDefault | components/EditSpeciesDialog.tsx:45 | whatever the user types, a submitted kingdom is the one the form started with |
| EditSpecies.BadKingdomBlocksEverySubmit | components/EditSpeciesDialog.tsx:45 | a row whose kingdom is outside the enum can never be saved through the form |
| EditSpecies.EditSpeciesDialog.constructor | components/EditSpeciesDialog.tsx:37-48 | the dialog starts closed, with the form holding the defaults and no store, notification or reload calls |
| EditSpecies.EditSpeciesDialog.SetOpen | components/EditSpeciesDialog.tsx:73 | the trigger, close and Cancel controls set `open` and nothing else |
| EditSpecies.EditSpeciesDialog.Change | components/EditSpeciesDialog.tsx:84-87 | an edit updates the form values through one registered input and leaves the kingdom as it was |
| EditSpecies.EditSpeciesDialog.Submit | components/EditSpeciesDialog.tsx:51-70 | an invalid form reaches no store and keeps the dialog open; a valid form sends one update of this row's id with exactly the validated data; a store error keeps the dialog open and raises a destructive toast with the error message; success closes the dialog, raises the success toast and requests a reload |
| SpeciesDetails.Details | components/SpeciesDetailsDialog.tsx:29-40 | the title is the common name unless it is null, then the scientific name; the description falls back to "No description available." and the population to "Unknown", only for null; name and kingdom are shown unchanged |
| SpeciesDetails.PopulationReadsBack | components/SpeciesDetailsDialog.tsx:40 | the population line reads back as the population, and is "Unknown" iff the population is null |
| SpeciesDetails.EmptyCommonNameShown | components/SpeciesDetailsDialog.tsx:29 | an empty common name gives an empty title, not the scientific name |
| SpeciesDetails.ZeroPopulationShown | components/SpeciesDetailsDialog.tsx:40 | a population of 0 is shown as "0", not as "Unknown" |
| SpeciesDetails.PopulationDisplayInjective | components/SpeciesDetailsDialog.tsx:40 | different populations are never shown as the same text |

## Left out

- `app/species/page.tsx`: the session lookup, the redirect and the store query are I/O. The list is an input to `Filter`. Its newest-first order comes from the store, so the model takes the order as given.
- The store, `toast` and `window.location.reload()` are not modelled beyond the arguments they are called with. `Submit` takes the store's reply as its `storeError` parameter. The model does not capture awaiting or concurrent submits.
- React rendering, the dialog widgets, the Cancel button and the card component are not modelled. `SetOpen` stands for every control that opens or closes the dialog. `Render` stops at the props each card receives.
- react-hook-form and zod internals are not modelled. Validation of the whole form is `EditSpecies.Validate`, with issues listed in the schema's key order. Issue messages and zod's other issue fields are not modelled.
- EditSpecies.ApplyInput: the population input carries an `Option<int>`. In the source, the `type="number"` input is registered without number coercion, so a value the user typed reaches the schema as text. The model does not capture that string-to-number step or its outcome.
- EditSpecies.ParsePopulation: the population is an integer. Non-integral, NaN and infinite `number` values, which `z.number().int()` would refuse, are not modelled.
- Text.Lower: only the ASCII letters A-Z are mapped. Full Unicode `toLowerCase`, with its non-ASCII and multi-character mappings, is not modelled.
- Text.IncludesLower: the lemma is a fact about the character-by-character `Lower` only. JavaScript's `toLowerCase` also applies the Greek final-sigma rule, which depends on the neighbouring letters: `"ΑΣ".toLowerCase()` is `"ας"` but `"Σ".toLowerCase()` is `"σ"`, so `"ΑΣ"` includes `"Σ"` while `"ας"` does not include `"σ"`.
- SpeciesListClient.Narrowing: for the same reason it holds only under the character-by-character `Lower`. In the program, a record whose common name is `"ας"` is kept for the query `"ΑΣ"` but dropped for `"Σ"`, which the first query contains.
- Text: JavaScript strings are UTF-16 code units. Here a string is a sequence of Dafny `char`s, which are Unicode scalar values, so lone surrogates are not represented.
- Text.DecimalString: the text of an integral `number` is its exact decimal digits, which is what JavaScript prints only for magnitudes up to 2^53. Above 2^53 JavaScript prints the fewest digits that read back as the same double and pads them with zeros: 2^60 shows as `1152921504606847000`, where the model gives `1152921504606846976`. The exponent form for magnitudes of 10^21 and above is not modelled either.
- SpeciesRow.Species: only the columns the three components read are modelled. Every column but `id` is treated as nullable, because the generated database types are not part of this model.
- SpeciesDetails.DetailsSpecies follows the details dialog's own declaration (`components/SpeciesDetailsDialog.tsx:13-19`), where the scientific name and kingdom are never null. It narrows that declaration's `number | null` population to `Option<int>`, so a non-integral population, which the dialog would show with its fraction, is not modelled.
