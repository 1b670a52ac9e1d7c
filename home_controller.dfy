/**
  The request handlers of the diff service (`HomeController`).

  The controller keeps two tables, `left` and `right`, from a client-chosen
  identifier to the base64 text submitted for it. `SubmitLeft` and
  `SubmitRight` validate a request and store its text, overwriting whatever
  was stored for the identifier; `CheckDifference` compares the two texts of
  one identifier and, when their decoded forms have the same length, reports
  the mismatch runs found by `DiffTools.DiffString`.

  The web framework is abstracted: a request body is a `Body`, a response a
  `SubmitResponse` or a `DiffResponse`. The base64 check and the base64
  decoder (with the conversion of bytes to text) are not modelled; a
  controller is built with them as functions.
 */
module Controllers {

  import opened DiffTools

  /**
    A request body as the handlers see it: not JSON at all, or JSON in which
    the search for a field "input" found a textual value (`Some`) or not.
   */
  datatype Body = NotJson | Json(input: Option<string>)

  /** The outcome of the checks both submit handlers make before storing. */
  datatype Validated = Valid(content: string) | Invalid(message: string)

  /** The response of a submit handler: a bad request, or the stored text echoed back. */
  datatype SubmitResponse =
    | BadRequest(message: string)
    | Stored(id: string, content: string, result: string)

  /**
    The response of the comparison: "missing input" (a bad request), or one
    of "inputs are equal", "inputs have the same size" with the rendered run
    list as `offset`, and "inputs are not equal".
   */
  datatype DiffResponse =
    | MissingInput
    | InputsEqual
    | SameSize(offset: string)
    | NotEqual

  const ExpectingJson := "Expecting Json data"
  const MissingParameter := "Missing parameter [input]"
  const NotBase64 := "Input is not Base64"
  const Created := "created"

  /**
    The checks of a submit handler, in order: a JSON body, a textual "input"
    field in it, and base64 text in that field.
   */
  function ValidateInput(body: Body, checkBase64: string -> bool): (v: Validated)
    ensures v.Valid? <==> body.Json? && body.input.Some? && checkBase64(body.input.value)
    ensures v.Valid? ==> v.content == body.input.value
  {
    match body
    case NotJson => Invalid(ExpectingJson)
    case Json(None) => Invalid(MissingParameter)
    case Json(Some(content)) => if checkBase64(content) then Valid(content) else Invalid(NotBase64)
  }

  class HomeController {
    /** Identifier to base64 text, one table per side. */
    var left: map<string, string>
    var right: map<string, string>

    /** The base64 check of `DiffTools.checkBase64`. */
    const checkBase64: string -> bool
    /** Base64 decoding followed by the conversion of the bytes to text. */
    const decode: string -> string

    constructor (checkBase64: string -> bool, decode: string -> string)
      ensures left == map[] && right == map[]
      ensures this.checkBase64 == checkBase64 && this.decode == decode
    {
      left := map[];
      right := map[];
      this.checkBase64 := checkBase64;
      this.decode := decode;
    }

    /** `submitRight`: validate, then store the text under `id`, overwriting any earlier one. */
    method SubmitRight(id: string, body: Body) returns (response: SubmitResponse)
      modifies this
      ensures body.NotJson? ==> response == BadRequest(ExpectingJson)
      ensures body.Json? && body.input.None? ==> response == BadRequest(MissingParameter)
      ensures body.Json? && body.input.Some? && !checkBase64(body.input.value) ==> response == BadRequest(NotBase64)
      ensures response.BadRequest? ==> left == old(left) && right == old(right)
      ensures body.Json? && body.input.Some? && checkBase64(body.input.value) ==>
        var content := body.input.value;
        response == Stored(id, content, Created) && right == old(right)[id := content] && left == old(left)
    {
      var v := ValidateInput(body, checkBase64);
      match v
      case Invalid(message) =>
        response := BadRequest(message);
      case Valid(content) =>
        right := right[id := content];
        response := Stored(id, content, Created);
    }

    /** `submitLeft`: the mirror image of `SubmitRight`, on the left table. */
    method SubmitLeft(id: string, body: Body) returns (response: SubmitResponse)
      modifies this
      ensures body.NotJson? ==> response == BadRequest(ExpectingJson)
      ensures body.Json? && body.input.None? ==> response == BadRequest(MissingParameter)
      ensures body.Json? && body.input.Some? && !checkBase64(body.input.value) ==> response == BadRequest(NotBase64)
      ensures response.BadRequest? ==> left == old(left) && right == old(right)
      ensures body.Json? && body.input.Some? && checkBase64(body.input.value) ==>
        var content := body.input.value;
        response == Stored(id, content, Created) && left == old(left)[id := content] && right == old(right)
    {
      var v := ValidateInput(body, checkBase64);
      match v
      case Invalid(message) =>
        response := BadRequest(message);
      case Valid(content) =>
        left := left[id := content];
        response := Stored(id, content, Created);
    }

    /**
      `checkDifference`: missing input when either side is absent; equal when
      the stored texts are the same (nothing is decoded then); otherwise the
      decoded texts are compared by length, and equal lengths give the
      rendered run list. Neither table is changed.
     */
    method CheckDifference(id: string) returns (response: DiffResponse)
      ensures response == MissingInput <==> id !in left || id !in right
      ensures response == InputsEqual <==> id in left && id in right && left[id] == right[id]
      ensures response.SameSize? <==>
        id in left && id in right && left[id] != right[id] && |decode(left[id])| == |decode(right[id])|
      ensures response.SameSize? ==>
        response.offset == ListToString(RenderRuns(DiffRuns(decode(left[id]), decode(right[id]))))
    {
      if id !in left || id !in right {
        return MissingInput;
      }
      var leftEncoded, rightEncoded := left[id], right[id];
      if leftEncoded == rightEncoded {
        return InputsEqual;
      }
      var leftDecoded, rightDecoded := decode(leftEncoded), decode(rightEncoded);
      if |leftDecoded| == |rightDecoded| {
        var strList := [];
        if |leftDecoded| == |rightDecoded| {
          strList := DiffString(leftDecoded, rightDecoded);
        }
        response := SameSize(ListToString(strList));
      } else {
        response := NotEqual;
      }
    }
  }

  // ---------------------------------------------------------------------
  // Request sequences from the unit tests, applied to a fresh controller

  /** The same base64 text submitted on both sides compares as equal. */
  method EqualInputsScenario(checkBase64: string -> bool, decode: string -> string, id: string, content: string)
    returns (leftResponse: SubmitResponse, rightResponse: SubmitResponse, diff: DiffResponse)
    requires checkBase64(content)
    ensures leftResponse == Stored(id, content, Created) && rightResponse == Stored(id, content, Created)
    ensures diff == InputsEqual
  {
    var c := new HomeController(checkBase64, decode);
    leftResponse := c.SubmitLeft(id, Json(Some(content)));
    rightResponse := c.SubmitRight(id, Json(Some(content)));
    diff := c.CheckDifference(id);
  }

  /**
    A second submission on the same side is accepted like the first (there
    is no conflict) and replaces it: the comparison then sees the second text.
   */
  method ResubmitScenario(checkBase64: string -> bool, decode: string -> string, id: string, first: string, second: string)
    returns (firstResponse: SubmitResponse, secondResponse: SubmitResponse, diff: DiffResponse)
    requires checkBase64(first) && checkBase64(second)
    ensures firstResponse == Stored(id, first, Created) && secondResponse == Stored(id, second, Created)
    ensures diff == InputsEqual
  {
    var c := new HomeController(checkBase64, decode);
    firstResponse := c.SubmitLeft(id, Json(Some(first)));
    secondResponse := c.SubmitLeft(id, Json(Some(second)));
    var _ := c.SubmitRight(id, Json(Some(second)));
    diff := c.CheckDifference(id);
  }

  /** Comparing when only the left side was submitted reports missing input. */
  method OnlyLeftSubmittedScenario(checkBase64: string -> bool, decode: string -> string, id: string, content: string)
    returns (diff: DiffResponse)
    ensures diff == MissingInput
  {
    var c := new HomeController(checkBase64, decode);
    var _ := c.SubmitLeft(id, Json(Some(content)));
    diff := c.CheckDifference(id);
  }

  /**
    Different texts whose decoded forms have the same length are reported
    with the same size, and the offset list is that of the decoded texts.
   */
  method SameSizeScenario(checkBase64: string -> bool, decode: string -> string, id: string, l: string, r: string)
    returns (diff: DiffResponse)
    requires checkBase64(l) && checkBase64(r)
    requires l != r && |decode(l)| == |decode(r)|
    ensures diff == SameSize(ListToString(RenderRuns(DiffRuns(decode(l), decode(r)))))
  {
    var c := new HomeController(checkBase64, decode);
    var _ := c.SubmitRight(id, Json(Some(r)));
    var _ := c.SubmitLeft(id, Json(Some(l)));
    diff := c.CheckDifference(id);
  }

  /** Texts whose decoded forms differ in length are reported as not equal. */
  method DifferentSizesScenario(checkBase64: string -> bool, decode: string -> string, id: string, l: string, r: string)
    returns (diff: DiffResponse)
    requires checkBase64(l) && checkBase64(r)
    requires |decode(l)| != |decode(r)|
    ensures diff == NotEqual
  {
    var c := new HomeController(checkBase64, decode);
    var _ := c.SubmitRight(id, Json(Some(r)));
    var _ := c.SubmitLeft(id, Json(Some(l)));
    diff := c.CheckDifference(id);
  }
}
