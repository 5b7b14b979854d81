/**
 * The edit dialog of one species: the form schema, the form's initial
 * values, the registered inputs and the submit handler.
 */
module EditSpecies {
  import opened Wrappers
  import opened Text
  import opened SpeciesRow

  // ------------------------------------------------------------- kingdom

  /** The six values the kingdom enum admits. */
  datatype Kingdom = Animalia | Plantae | Fungi | Protista | Archaea | Bacteria

  function KingdomName(k: Kingdom): string {
    match k
    case Animalia => "Animalia"
    case Plantae => "Plantae"
    case Fungi => "Fungi"
    case Protista => "Protista"
    case Archaea => "Archaea"
    case Bacteria => "Bacteria"
  }

  /** The enum check: the kingdom named exactly `s`, if any. */
  function ParseKingdom(s: string): (r: Option<Kingdom>)
    ensures r.Some? ==> KingdomName(r.value) == s
    ensures r.None? ==> forall k :: KingdomName(k) != s
  {
    if s == "Animalia" then Some(Animalia)
    else if s == "Plantae" then Some(Plantae)
    else if s == "Fungi" then Some(Fungi)
    else if s == "Protista" then Some(Protista)
    else if s == "Archaea" then Some(Archaea)
    else if s == "Bacteria" then Some(Bacteria)
    else None
  }

  /** Every kingdom's name parses back to that kingdom. */
  lemma KingdomRoundTrip(k: Kingdom)
    ensures ParseKingdom(KingdomName(k)) == Some(k)
  {
  }

  // ---------------------------------------------------------- the schema

  /** What the form holds before validation. */
  datatype FormValues = FormValues(
    scientificName: string,
    commonName: Option<string>,
    kingdom: string,
    totalPopulation: Option<int>,
    description: Option<string>)

  /** What validation hands to the submit handler. */
  datatype FormData = FormData(
    scientificName: string,
    commonName: Option<string>,
    kingdom: Kingdom,
    totalPopulation: Option<int>,
    description: Option<string>)

  datatype Field = ScientificNameField | CommonNameField | KingdomField | TotalPopulationField | DescriptionField

  /** A failed check: `TooSmall` for a length or value below its bound, `InvalidEnumValue` for the enum. */
  datatype IssueCode = TooSmall(minimum: int, inclusive: bool) | InvalidEnumValue(received: string)

  datatype Issue = Issue(path: Field, code: IssueCode)

  /** The kingdom names, written out independently of `Kingdom`. */
  predicate IsKingdomName(s: string) {
    s in ["Animalia", "Plantae", "Fungi", "Protista", "Archaea", "Bacteria"]
  }

  /** `z.string().min(1).trim()`: the length is checked on the raw string, then it is trimmed. */
  function ParseScientificName(s: string): (r: Result<string, seq<Issue>>)
    ensures r.Success? <==> s != ""
    ensures r.Success? ==> r.value == Trim(s)
    ensures r.Failure? ==> r.error == [Issue(ScientificNameField, TooSmall(1, true))]
  {
    if |s| < 1 then Failure([Issue(ScientificNameField, TooSmall(1, true))]) else Success(Trim(s))
  }

  /** `z.enum([...])` over the six kingdom names. */
  function ParseKingdomField(s: string): (r: Result<Kingdom, seq<Issue>>)
    ensures r.Success? <==> IsKingdomName(s)
    ensures r.Success? ==> KingdomName(r.value) == s
    ensures r.Failure? ==> r.error == [Issue(KingdomField, InvalidEnumValue(s))]
  {
    match ParseKingdom(s)
    case Some(k) => Success(k)
    case None => Failure([Issue(KingdomField, InvalidEnumValue(s))])
  }

  /** `z.number().int().positive().nullable()`, on integers. */
  function ParsePopulation(p: Option<int>): (r: Result<Option<int>, seq<Issue>>)
    ensures r.Success? <==> p.None? || p.value > 0
    ensures r.Success? ==> r.value == p
    ensures r.Failure? ==> r.error == [Issue(TotalPopulationField, TooSmall(0, false))]
  {
    match p
    case None => Success(None)
    case Some(n) => if n > 0 then Success(p) else Failure([Issue(TotalPopulationField, TooSmall(0, false))])
  }

  function IssuesOf<T>(r: Result<T, seq<Issue>>): seq<Issue> {
    if r.Failure? then r.error else []
  }

  /**
   * `speciesSchema` parsing a whole form. Every field is checked and the
   * issues come in the order of the schema's keys; what it accepts and
   * returns is stated by the three lemmas below.
   */
  function Validate(v: FormValues): Result<FormData, seq<Issue>> {
    var name := ParseScientificName(v.scientificName);
    var kingdom := ParseKingdomField(v.kingdom);
    var population := ParsePopulation(v.totalPopulation);
    if name.Success? && kingdom.Success? && population.Success? then
      Success(FormData(name.value, v.commonName, kingdom.value, population.value, v.description))
    else
      Failure(IssuesOf(name) + IssuesOf(kingdom) + IssuesOf(population))
  }

  /** The form passes iff the name is non-empty, the kingdom is in the enum and the population is null or positive. */
  lemma ValidateAccepts(v: FormValues)
    ensures Validate(v).Success? <==>
      v.scientificName != "" && IsKingdomName(v.kingdom) && (v.totalPopulation.None? || v.totalPopulation.value > 0)
  {
  }

  /**
   * What a passing form hands on: the trimmed name, the enum value of the
   * kingdom, and the other three fields exactly as entered.
   */
  lemma ValidateOutput(v: FormValues)
    requires Validate(v).Success?
    ensures var d := Validate(v).value;
      && d.scientificName == Trim(v.scientificName)
      && d.commonName == v.commonName
      && KingdomName(d.kingdom) == v.kingdom
      && d.totalPopulation == v.totalPopulation
      && d.description == v.description
  {
  }

  /** A failing form reports an issue for exactly the fields that fail their check. */
  lemma ValidateIssues(v: FormValues)
    requires Validate(v).Failure?
    ensures var issues := Validate(v).error;
      && issues != []
      && (Issue(ScientificNameField, TooSmall(1, true)) in issues <==> v.scientificName == "")
      && (Issue(KingdomField, InvalidEnumValue(v.kingdom)) in issues <==> !IsKingdomName(v.kingdom))
      && (Issue(TotalPopulationField, TooSmall(0, false)) in issues <==>
            v.totalPopulation.Some? && v.totalPopulation.value <= 0)
  {
    var name := ParseScientificName(v.scientificName);
    var kingdom := ParseKingdomField(v.kingdom);
    var population := ParsePopulation(v.totalPopulation);
    var issues := Validate(v).error;
    assert issues == IssuesOf(name) + IssuesOf(kingdom) + IssuesOf(population);
    var nameIssue := Issue(ScientificNameField, TooSmall(1, true));
    var kingdomIssue := Issue(KingdomField, InvalidEnumValue(v.kingdom));
    var populationIssue := Issue(TotalPopulationField, TooSmall(0, false));
    assert nameIssue in issues <==> nameIssue in IssuesOf(name);
    assert kingdomIssue in issues <==> kingdomIssue in IssuesOf(kingdom);
    assert populationIssue in issues <==> populationIssue in IssuesOf(population);
  }

  /** The length check comes before trimming: a name of spaces is accepted and stored empty. */
  lemma BlankNameAccepted(v: FormValues)
    requires v.scientificName == " " && IsKingdomName(v.kingdom) && v.totalPopulation.None?
    ensures Validate(v).Success? && Validate(v).value.scientificName == ""
  {
    ValidateAccepts(v);
    ValidateOutput(v);
    TrimEmptyIff(v.scientificName);
  }

  /** An accepted name has no surrounding whitespace, and trimming it again changes nothing. */
  lemma AcceptedNameTrimmed(v: FormValues)
    requires Validate(v).Success?
    ensures IsTrimmed(Validate(v).value.scientificName)
    ensures Trim(Validate(v).value.scientificName) == Validate(v).value.scientificName
  {
    ValidateOutput(v);
    TrimIdempotent(v.scientificName);
  }

  /** Zero and negative populations are refused before any store call. */
  lemma NonPositivePopulationRejected(v: FormValues, n: int)
    requires v.totalPopulation == Some(n) && n <= 0
    ensures Validate(v).Failure?
    ensures Issue(TotalPopulationField, TooSmall(0, false)) in Validate(v).error
  {
    ValidateAccepts(v);
    ValidateIssues(v);
  }

  // ------------------------------------------------------------ defaults

  /** The initial form values derived from the stored row. */
  function Defaults(sp: Species): (v: FormValues)
    ensures sp.scientificName.Some? ==> v.scientificName == sp.scientificName.value
    ensures sp.scientificName.None? ==> v.scientificName == ""
    ensures sp.commonName.Some? ==> v.commonName == sp.commonName
    ensures sp.commonName.None? ==> v.commonName == Some("")
    ensures sp.kingdom.Some? ==> v.kingdom == sp.kingdom.value
    ensures sp.kingdom.None? ==> v.kingdom == "Animalia"
    ensures v.totalPopulation == sp.totalPopulation
    ensures sp.description.Some? ==> v.description == sp.description
    ensures sp.description.None? ==> v.description == Some("")
  {
    FormValues(
      sp.scientificName.GetOr(""),
      Some(sp.commonName.GetOr("")),
      sp.kingdom.GetOr("Animalia"),
      sp.totalPopulation,
      Some(sp.description.GetOr("")))
  }

  /** The row satisfies the schema's constraints on the columns the form edits. */
  predicate ConformingRow(sp: Species) {
    && sp.scientificName.Some? && sp.scientificName.value != ""
    && (sp.kingdom.None? || IsKingdomName(sp.kingdom.value))
    && (sp.totalPopulation.None? || sp.totalPopulation.value > 0)
  }

  /**
   * Saving the form untouched writes back the row's own values, except that
   * the name is trimmed and a null common name or description becomes "".
   */
  lemma UntouchedFormResubmitsRow(sp: Species)
    requires ConformingRow(sp)
    ensures Validate(Defaults(sp)).Success?
    ensures var d := Validate(Defaults(sp)).value;
      && d.scientificName == Trim(sp.scientificName.value)
      && d.commonName == Some(sp.commonName.GetOr(""))
      && KingdomName(d.kingdom) == sp.kingdom.GetOr("Animalia")
      && d.totalPopulation == sp.totalPopulation
      && d.description == Some(sp.description.GetOr(""))
  {
    ValidateAccepts(Defaults(sp));
    ValidateOutput(Defaults(sp));
  }

  /** The form never starts with a null text field, whatever the row holds. */
  lemma DefaultsHaveNoNullText(sp: Species)
    ensures Defaults(sp).commonName.Some? && Defaults(sp).description.Some?
  {
  }

  // -------------------------------------------------------------- inputs

  /** A change made through one of the four registered inputs; kingdom has none. */
  datatype Input =
    | ScientificNameInput(text: string)
    | CommonNameInput(text: string)
    | TotalPopulationInput(value: Option<int>)
    | DescriptionInput(text: string)

  function ApplyInput(v: FormValues, i: Input): (r: FormValues)
    ensures r.kingdom == v.kingdom
  {
    match i
    case ScientificNameInput(t) => v.(scientificName := t)
    case CommonNameInput(t) => v.(commonName := Some(t))
    case TotalPopulationInput(p) => v.(totalPopulation := p)
    case DescriptionInput(t) => v.(description := Some(t))
  }

  /** The form values after a sequence of edits. */
  function ApplyInputs(v: FormValues, inputs: seq<Input>): (r: FormValues)
    ensures r.kingdom == v.kingdom
    decreases |inputs|
  {
    if inputs == [] then v else ApplyInputs(ApplyInput(v, inputs[0]), inputs[1..])
  }

  /** Whatever the user types, a submitted kingdom is the one the form started with. */
  lemma SubmittedKingdomIsDefault(sp: Species, inputs: seq<Input>)
    requires Validate(ApplyInputs(Defaults(sp), inputs)).Success?
    ensures KingdomName(Validate(ApplyInputs(Defaults(sp), inputs)).value.kingdom) == Defaults(sp).kingdom
  {
    ValidateOutput(ApplyInputs(Defaults(sp), inputs));
  }

  /** A row whose kingdom is outside the enum can never be saved through this form. */
  lemma BadKingdomBlocksEverySubmit(sp: Species, inputs: seq<Input>)
    requires sp.kingdom.Some? && !IsKingdomName(sp.kingdom.value)
    ensures Validate(ApplyInputs(Defaults(sp), inputs)).Failure?
  {
    ValidateAccepts(ApplyInputs(Defaults(sp), inputs));
  }

  // -------------------------------------------------------------- submit

  /** The arguments of a `toast` call. */
  datatype Toast = Toast(title: string, description: string, destructive: bool)

  const UpdateFailedTitle := "Update failed"
  const UpdatedTitle := "Species updated!"
  const UpdatedDescription := "The species information has been successfully updated."

  /** An update of the row with this id, setting exactly these columns. */
  datatype UpdateRequest = UpdateRequest(id: int, data: FormData)

  /** How a press of "Save Changes" ended. */
  datatype SubmitOutcome = Invalid(issues: seq<Issue>) | UpdateFailed(message: string) | Updated

  /**
   * The dialog of one species. `open` is the dialog's visibility; the form
   * keeps `values`; `updates`, `toasts` and `reloadRequested` record the
   * calls made to the store, the notifier and the page.
   */
  class EditSpeciesDialog {
    const species: Species
    var open: bool
    var values: FormValues
    var updates: seq<UpdateRequest>
    var toasts: seq<Toast>
    var reloadRequested: bool

    /** The dialog starts closed, with the form filled from the row. */
    constructor (species: Species)
      ensures this.species == species
      ensures !open && values == Defaults(species)
      ensures updates == [] && toasts == [] && !reloadRequested
    {
      this.species := species;
      open := false;
      values := Defaults(species);
      updates := [];
      toasts := [];
      reloadRequested := false;
    }

    /** The trigger button, the close button or Cancel. */
    method SetOpen(o: bool)
      modifies this`open
      ensures open == o
    {
      open := o;
    }

    /** The user edits one registered input. */
    method Change(i: Input)
      requires open
      modifies this`values
      ensures values == ApplyInput(old(values), i)
      ensures values.kingdom == old(values).kingdom
    {
      values := ApplyInput(values, i);
    }

    /**
     * "Save Changes": validate the form; if it is valid, send the update for
     * this row, whose outcome `storeError` reports (null on success). A failure
     * leaves the dialog and the form as they were and raises a destructive
     * notification with the store's message; success closes the dialog,
     * notifies and asks for a reload.
     */
    method Submit(storeError: Option<string>) returns (outcome: SubmitOutcome)
      requires open
      modifies this`open, this`updates, this`toasts, this`reloadRequested
      ensures values == old(values)
      ensures Validate(values).Failure? ==>
        && outcome == Invalid(Validate(values).error)
        && open && updates == old(updates) && toasts == old(toasts) && reloadRequested == old(reloadRequested)
      ensures Validate(values).Success? ==>
        updates == old(updates) + [UpdateRequest(species.id, Validate(values).value)]
      ensures Validate(values).Success? && storeError.Some? ==>
        && outcome == UpdateFailed(storeError.value)
        && open
        && toasts == old(toasts) + [Toast(UpdateFailedTitle, storeError.value, true)]
        && reloadRequested == old(reloadRequested)
      ensures Validate(values).Success? && storeError.None? ==>
        && outcome == Updated
        && !open
        && toasts == old(toasts) + [Toast(UpdatedTitle, UpdatedDescription, false)]
        && reloadRequested
    {
      var parsed := Validate(values);
      if parsed.Failure? {
        return Invalid(parsed.error);
      }
      updates := updates + [UpdateRequest(species.id, parsed.value)];
      if storeError.Some? {
        toasts := toasts + [Toast(UpdateFailedTitle, storeError.value, true)];
        return UpdateFailed(storeError.value);
      }
      open := false;
      toasts := toasts + [Toast(UpdatedTitle, UpdatedDescription, false)];
      reloadRequested := true;
      outcome := Updated;
    }
  }

  /** A stored population of 0 is refused locally: nothing reaches the store and the dialog stays open. */
  method ZeroPopulationSession(sp: Species)
    requires sp.totalPopulation == Some(0)
  {
    var dialog := new EditSpeciesDialog(sp);
    assert !dialog.open;
    dialog.SetOpen(true);
    dialog.Change(CommonNameInput("Lion"));
    ValidateAccepts(dialog.values);
    assert Validate(dialog.values).Failure?;
    var outcome := dialog.Submit(None);
    assert outcome.Invalid? && dialog.open && dialog.updates == [];
  }

  /** A store error keeps the dialog open, with the user's edit still in the form. */
  method StoreErrorSession(sp: Species, message: string)
    requires ConformingRow(sp)
  {
    var dialog := new EditSpeciesDialog(sp);
    dialog.SetOpen(true);
    dialog.Change(CommonNameInput("Lion"));
    ValidateAccepts(dialog.values);
    assert Validate(dialog.values).Success?;
    var outcome := dialog.Submit(Some(message));
    assert outcome == UpdateFailed(message) && dialog.open;
    assert dialog.values.commonName == Some("Lion");
  }

  /** A successful save sends one update, closes the dialog and asks for a reload. */
  method SuccessSession(sp: Species)
    requires ConformingRow(sp)
  {
    var dialog := new EditSpeciesDialog(sp);
    dialog.SetOpen(true);
    dialog.Change(CommonNameInput("Lion"));
    ValidateAccepts(dialog.values);
    assert Validate(dialog.values).Success?;
    var outcome := dialog.Submit(None);
    assert outcome == Updated && !dialog.open && dialog.reloadRequested;
    assert |dialog.updates| == 1;
  }
}
