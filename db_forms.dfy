/**
 * The field validators of the database search forms. Each `clean_*`
 * either returns the cleaned value or raises a validation error, modelled
 * as `Result`. The adjacency-list parser, the float parser and the
 * solvent critical-temperature lookup belong to other libraries and are
 * parameters.
 */
module DbForms {
  import opened Common
  import PyText
  import MainForms

  datatype FormError =
    | InvalidAdjacencyList
    | NonNumericTemperature
    | TemperatureOutOfRange
    | TooManyInputs(limit: nat)
    | NoOptionSelected
    | NoEstimatorSelected

  /** `DivErrorList.as_divs` of the database forms: the error divs inside one outer div. */
  function AsDivs(errors: seq<string>): (r: string)
    ensures errors == [] ==> r == ""
    ensures errors != [] ==> r == "<div>" + MainForms.AsDivs(errors) + "</div>"
  {
    if |errors| == 0 then "" else "<div>" + MainForms.ErrorDivs(errors) + "</div>"
  }

  /** A required adjacency-list field (`reactant1`, `detergent`, `deposit`, the thermo `species`): the input is kept iff it parses. */
  function CleanRequiredAdjlist(adjlist: string, parses: string -> bool): (r: Result<string, FormError>)
    ensures r.Ok? <==> parses(adjlist)
    ensures r.Ok? ==> r.value == adjlist
    ensures r.Err? ==> r.error == InvalidAdjacencyList
  {
    if parses(adjlist) then Ok(adjlist) else Err(InvalidAdjacencyList)
  }

  /** `clean_reactant2`, `clean_product1`, `clean_product2`: whitespace-only input gives '' without parsing. */
  function CleanOptionalSpecies(adjlist: string, parses: string -> bool): (r: Result<string, FormError>)
    ensures PyText.Blank(adjlist) ==> r == Ok("")
    ensures !PyText.Blank(adjlist) ==> r == CleanRequiredAdjlist(adjlist, parses)
  {
    PyText.StripEmptyIffBlank(adjlist);
    if PyText.Strip(adjlist) == "" then Ok("")
    else CleanRequiredAdjlist(adjlist, parses)
  }

  /** The molecule `species`, solvation `adjlist` and `group` fields: only the exact empty string skips the parser. */
  function CleanEmptyOrAdjlist(adjlist: string, parses: string -> bool): (r: Result<string, FormError>)
    ensures adjlist == "" ==> r == Ok("")
    ensures adjlist != "" ==> r == CleanRequiredAdjlist(adjlist, parses)
  {
    if adjlist == "" then Ok("") else CleanRequiredAdjlist(adjlist, parses)
  }

  /** Whitespace reaches the parser in the exact-empty fields but not in the optional species fields. */
  lemma BlankShortCircuitsDiffer(parses: string -> bool)
    requires !parses(" ")
    ensures CleanOptionalSpecies(" ", parses) == Ok("")
    ensures CleanEmptyOrAdjlist(" ", parses) == Err(InvalidAdjacencyList)
  {
    assert PyText.IsSpace(" "[0]);
  }

  /**
   * `clean_temp`: a temperature that does not parse as a float is
   * rejected; with a solvent chosen it must lie in [280, Tc), Tc being
   * that solvent's critical temperature.
   */
  function CleanTemp(temp: string, solvent: string, parseFloat: string -> Option<real>, criticalTemperature: string -> real): (r: Result<real, FormError>)
    ensures parseFloat(temp).None? ==> r == Err(NonNumericTemperature)
    ensures parseFloat(temp).Some? && solvent == "" ==> r == Ok(parseFloat(temp).value)
    ensures parseFloat(temp).Some? && solvent != "" ==>
      (r.Ok? <==> 280.0 <= parseFloat(temp).value < criticalTemperature(solvent))
    ensures r.Ok? ==> r == Ok(parseFloat(temp).value)
  {
    match parseFloat(temp)
    case None => Err(NonNumericTemperature)
    case Some(t) =>
      if solvent != "" && (t < 280.0 || t >= criticalTemperature(solvent)) then Err(TemperatureOutOfRange)
      else Ok(t)
  }

  /** A whitespace-separated list is accepted, unchanged, iff it has at most `limit` tokens. */
  function CleanTokenCount(text: string, limit: nat): (r: Result<string, FormError>)
    ensures r.Ok? <==> |PyText.Words(text)| <= limit
    ensures r.Ok? ==> r.value == text
    ensures r.Err? ==> r.error == TooManyInputs(limit)
  {
    if |PyText.Words(text)| > limit then Err(TooManyInputs(limit)) else Ok(text)
  }

  /** `clean_solvent_solute_smiles` and `clean_solvent_solute_temp`: at most 200 inputs. */
  function CleanSolventSoluteList(text: string): (r: Result<string, FormError>)
    ensures r.Ok? <==> |PyText.Words(text)| <= 200
    ensures r.Ok? ==> r.value == text
  {
    CleanTokenCount(text, 200)
  }

  /** `clean_solute_smiles`: at most 100 solutes. */
  function CleanSoluteSmiles(text: string): (r: Result<string, FormError>)
    ensures r.Ok? <==> |PyText.Words(text)| <= 100
    ensures r.Ok? ==> r.value == text
  {
    CleanTokenCount(text, 100)
  }

  /** Whitespace-only input is never over a limit. */
  lemma BlankListAccepted(text: string, limit: nat)
    requires PyText.Blank(text)
    ensures CleanTokenCount(text, limit) == Ok(text)
  {
    PyText.WordsOfBlank(text);
  }

  /** `clean_solute_estimator`: an estimator must be chosen. */
  function CleanSoluteEstimator(estimator: string): (r: Result<string, FormError>)
    ensures r.Ok? <==> estimator != ""
    ensures r.Ok? ==> r.value == estimator
  {
    if estimator == "" then Err(NoEstimatorSelected) else Ok(estimator)
  }

  /** `clean_option_selected` of both solvation forms: `any` over the five calculation flags. */
  function CleanOptionSelected(flags: seq<bool>): (r: Result<bool, FormError>)
    requires |flags| == 5
    ensures r.Err? <==> forall i :: 0 <= i < 5 ==> !flags[i]
    ensures r.Ok? ==> r.value
  {
    if flags[0] || flags[1] || flags[2] || flags[3] || flags[4] then Ok(true)
    else Err(NoOptionSelected)
  }
}
