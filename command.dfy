/** The uniform command protocol of the device base: `validate_perform`
    checks a request's shape, `perform` decides whether to run it. The only
    command is `set` with a `name` parameter. `JSON.parse` is a parameter
    of the model, and so is what it makes of each body. */
module Command {
  import opened Values

  type Params = map<string, Value>

  /** What `JSON.parse(body)` gives: it throws, it yields `null`, or it
      yields a value whose own properties are `props` (none for a number,
      a string or a boolean). */
  datatype Parsed = Throws | Null | Props(props: Params)

  /** The result of a JavaScript call: a value, or a `TypeError` thrown
      out of it. */
  datatype Answer<T> = Returns(value: T) | TypeError

  datatype Validation = Validation(invalid: seq<string>, required: seq<string>)  // the `invalid` and `requires` lists

  /** `!!params.name`. */
  predicate HasName(params: Params) {
    "name" in params && Truthy(params["name"])
  }

  /** `validate_perform(perform, parameter)` as written: a body that parses
      to `null` makes `params.name` throw. */
  function ValidatePerformAsWritten(perform: string, parameter: string, parse: string -> Parsed): (r: Answer<Validation>)
    ensures r.TypeError? <==> perform == "set" && parameter != "" && parse(parameter).Null?
  {
    if perform != "set" then Returns(Validation(["perform"], []))
    else if parameter == "" then Returns(Validation([], ["parameter"]))
    else
      match parse(parameter)
      case Throws => Returns(Validation(["parameter"], ["name"]))
      case Null => TypeError
      case Props(params) => Returns(Validation([], if HasName(params) then [] else ["name"]))
  }

  /** `validate_perform('set', 'null')` throws instead of reporting the
      missing name. */
  lemma ValidateNullBodyThrows(parse: string -> Parsed)
    requires parse("null").Null?
    ensures ValidatePerformAsWritten("set", "null", parse) == TypeError
  {
  }

  /** `validate_perform(perform, parameter)`, with a `null` body read as a
      body without properties, as the `try` around `JSON.parse` intends. */
  function ValidatePerform(perform: string, parameter: string, parse: string -> Parsed): (r: Validation)
    ensures perform != "set" ==> r == Validation(["perform"], [])
    ensures perform == "set" && parameter == "" ==> r == Validation([], ["parameter"])
    ensures perform == "set" && parameter != "" && parse(parameter).Throws? ==>
              r == Validation(["parameter"], ["name"])
    ensures perform == "set" && parameter != "" && parse(parameter).Null? ==>
              r == Validation([], ["name"])
    ensures perform == "set" && parameter != "" && parse(parameter).Props? ==>
              r == Validation([], if HasName(parse(parameter).props) then [] else ["name"])
  {
    if perform != "set" then Validation(["perform"], [])
    else if parameter == "" then Validation([], ["parameter"])
    else
      match parse(parameter)
      // the parameters stay `{}`, so `name` is missing as well
      case Throws => Validation(["parameter"], ["name"])
      case Null => Validation([], ["name"])
      case Props(params) => Validation([], if HasName(params) then [] else ["name"])
  }

  /** Wherever the source answers, the corrected validation answers the same. */
  lemma ValidatePerformAgrees(perform: string, parameter: string, parse: string -> Parsed)
    ensures ValidatePerformAsWritten(perform, parameter, parse).Returns? ==>
              ValidatePerformAsWritten(perform, parameter, parse).value == ValidatePerform(perform, parameter, parse)
  {
  }

  /** The parameters `perform` acts on: a body that does not parse counts
      as `{}`, and so, once corrected, does `null`. */
  function ParamsOf(parameter: string, parse: string -> Parsed): Params {
    match parse(parameter)
    case Props(params) => params
    case _ => map[]
  }

  /** The name `perform` hands to `setName`, as written: the check for
      `set` comes first, then `params.name` throws on a `null` body. */
  function PerformNameAsWritten(perform: string, parameter: string, parse: string -> Parsed): (r: Answer<Option<Value>>)
    ensures r.TypeError? <==> perform == "set" && parse(parameter).Null?
  {
    if perform != "set" then Returns(None)
    else if parse(parameter).Null? then TypeError
    else
      var params := ParamsOf(parameter, parse);
      Returns(if HasName(params) then Some(params["name"]) else None)
  }

  /** `perform(self, taskID, 'set', 'null')` throws. */
  lemma PerformNullBodyThrows(parse: string -> Parsed)
    requires parse("null").Null?
    ensures PerformNameAsWritten("set", "null", parse) == TypeError
  {
  }

  /** The name `perform` hands to `setName`, if it gets that far, with a
      `null` body read as `{}`. */
  function PerformName(perform: string, parameter: string, parse: string -> Parsed): (r: Option<Value>)
    ensures r.Some? <==> perform == "set" && HasName(ParamsOf(parameter, parse))
    ensures r.Some? ==> Truthy(r.value) && parse(parameter).Props? && r.value == parse(parameter).props["name"]
  {
    var params := ParamsOf(parameter, parse);
    if perform != "set" then None
    else if HasName(params) then Some(params["name"])
    else None
  }

  /** Wherever the source's `perform` answers, the corrected one agrees. */
  lemma PerformNameAgrees(perform: string, parameter: string, parse: string -> Parsed)
    ensures PerformNameAsWritten(perform, parameter, parse).Returns? ==>
              PerformNameAsWritten(perform, parameter, parse).value == PerformName(perform, parameter, parse)
  {
  }

  /** Given that the empty body does not parse (as `JSON.parse('')` throws),
      `perform` acts exactly on the requests that `validate_perform` passes. */
  lemma PerformAgreesWithValidation(perform: string, parameter: string, parse: string -> Parsed)
    requires parse("").Throws?
    ensures PerformName(perform, parameter, parse).Some? <==>
              ValidatePerform(perform, parameter, parse) == Validation([], [])
  {
  }
}
