/**
  The tolerant result extractor: from the webhook's decoded JSON response, find
  the JSON payload (inside a "```json" fence of the first element's `output`
  string, or that whole string) and return its `detected_objects` field. Every
  exception the Python code can raise on the way is an explicit branch here.
 */
module Extractor {
  import opened Wrappers
  import opened Json
  import opened Fence

  /** `json.loads`: the value a text decodes to, or None when decoding raises. */
  type Parser = string -> Option<Json>

  /**
    What the extractor returns, and whether it reported a diagnostic with
    `st.error` (only the outer `except Exception` handler does).
   */
  datatype Extraction = Extraction(objects: Json, reported: bool)

  /** The outer handler: an exception escaped the body; `[]` after a diagnostic. */
  const Failed: Extraction := Extraction(EmptyList, true)

  /** `[]` without a diagnostic: the response is no non-empty list, or the inner bare `except` fired. */
  const Nothing: Extraction := Extraction(EmptyList, false)

  /** The field the extractor returns from a decoded dictionary, `[]` when it is missing. */
  const Field: string := "detected_objects"

  /** The first element of `response` is a dictionary whose `output` is the string `text`. */
  ghost predicate HeadOutputIs(response: Json, text: string) {
    && response.JArray? && |response.items| > 0
    && response.items[0].JObject?
    && "output" in response.items[0].fields
    && response.items[0].fields["output"] == JString(text)
  }

  /** `extract_detected_objects(api_response)` with `json.loads` given as `parse`. */
  function ExtractDetectedObjects(response: Json, parse: Parser): (r: Extraction)
    ensures r.reported ==> r.objects == EmptyList
    ensures r.objects != EmptyList ==>
      && response.JArray? && |response.items| > 0 && response.items[0].JObject?
      && exists text: string, data: map<string, Json> ::
           parse(text) == Some(JObject(data)) && Field in data && r.objects == data[Field]
  {
    if !(response.JArray? && |response.items| > 0) then Nothing
    else
      match response.items[0]
      case JObject(head) => (
        match GetOr(head, "output", JString(""))
        case JString(output) => (
          match FindFence(output)
          case Some(body) => (
            match parse(body)
            case Some(JObject(data)) => Extraction(GetOr(data, Field, EmptyList), false)
            // json.loads raised, or .get was called on a value that is not a dict
            case _ => Failed)
          case None => (
            match parse(output)
            case Some(JObject(data)) => Extraction(GetOr(data, Field, EmptyList), false)
            // caught by the bare except around the whole-string parse
            case _ => Nothing))
        // re.search was handed something that is not a string
        case _ => Failed)
      // .get was called on an element that is not a dict
      case _ => Failed
  }

  /**
    Totality on malformed responses: each way the response can be malformed
    gives `[]`, with a diagnostic exactly when Python raised past the inner handler.
   */
  lemma MalformedResponseYieldsEmpty(response: Json, parse: Parser)
    ensures !(response.JArray? && |response.items| > 0) ==>
      ExtractDetectedObjects(response, parse) == Nothing
    ensures response.JArray? && |response.items| > 0 && !response.items[0].JObject? ==>
      ExtractDetectedObjects(response, parse) == Failed
    ensures
      && response.JArray? && |response.items| > 0 && response.items[0].JObject?
      && "output" in response.items[0].fields && !response.items[0].fields["output"].JString?
      ==> ExtractDetectedObjects(response, parse) == Failed
  {
  }

  /** Only element 0 of a non-empty list is looked at. */
  lemma OnlyFirstElementExamined(r1: Json, r2: Json, parse: Parser)
    requires r1.JArray? && r2.JArray? && |r1.items| > 0 && |r2.items| > 0
    requires r1.items[0] == r2.items[0]
    ensures ExtractDetectedObjects(r1, parse) == ExtractDetectedObjects(r2, parse)
  {
  }

  /** A first element without `output` behaves as one whose `output` is the empty string. */
  lemma MissingOutputReadsAsEmpty(head: map<string, Json>, rest: seq<Json>, parse: Parser)
    requires "output" !in head
    ensures ExtractDetectedObjects(JArray([JObject(head)] + rest), parse)
         == ExtractDetectedObjects(JArray([JObject(head["output" := JString("")])] + rest), parse)
    ensures FindFence("") == None
  {
  }

  /**
    The fenced path: once a fence is found only its body is decoded. A body that
    does not decode, or decodes to something other than a dictionary, gives `[]`
    with a diagnostic; a dictionary gives its field unchanged, or `[]` without it.
   */
  lemma FencedPath(response: Json, parse: Parser, text: string, body: string)
    requires HeadOutputIs(response, text) && FindFence(text) == Some(body)
    ensures parse(body).None? ==> ExtractDetectedObjects(response, parse) == Failed
    ensures parse(body).Some? && !parse(body).value.JObject? ==>
      ExtractDetectedObjects(response, parse) == Failed
    ensures parse(body).Some? && parse(body).value.JObject? && Field in parse(body).value.fields ==>
      ExtractDetectedObjects(response, parse) == Extraction(parse(body).value.fields[Field], false)
    ensures parse(body).Some? && parse(body).value.JObject? && Field !in parse(body).value.fields ==>
      ExtractDetectedObjects(response, parse) == Nothing
  {
  }

  /**
    No fallback after a fence: when a fence is found, how the whole `output`
    string would decode makes no difference to the result; two decoders that
    agree on the body give the same result.
   */
  lemma FencedIgnoresWholeText(response: Json, p1: Parser, p2: Parser, text: string, body: string)
    requires HeadOutputIs(response, text) && FindFence(text) == Some(body)
    requires p1(body) == p2(body)
    ensures ExtractDetectedObjects(response, p1) == ExtractDetectedObjects(response, p2)
  {
  }

  /**
    The fallback path: with no fence the whole `output` string is decoded. A
    failure or a value that is not a dictionary gives `[]` without a diagnostic;
    a dictionary gives its field unchanged, or `[]` without it.
   */
  lemma UnfencedPath(response: Json, parse: Parser, text: string)
    requires HeadOutputIs(response, text) && FindFence(text) == None
    ensures !(parse(text).Some? && parse(text).value.JObject?) ==>
      ExtractDetectedObjects(response, parse) == Nothing
    ensures parse(text).Some? && parse(text).value.JObject? && Field in parse(text).value.fields ==>
      ExtractDetectedObjects(response, parse) == Extraction(parse(text).value.fields[Field], false)
    ensures parse(text).Some? && parse(text).value.JObject? && Field !in parse(text).value.fields ==>
      ExtractDetectedObjects(response, parse) == Nothing
  {
  }

  /**
    End to end: an `output` holding a fenced body whose decoding is a dictionary
    with `detected_objects` yields that field's value, element order and all,
    whatever text surrounds the fence and whatever follows element 0.
   */
  lemma {:induction false} FencedOutputRoundTrip(
    head: map<string, Json>, rest: seq<Json>, parse: Parser,
    prefix: string, body: string, suffix: string, data: map<string, Json>)
    requires !Contains(prefix, Opener) && !Contains(body, Closer)
    requires "output" in head && head["output"] == JString(prefix + Opener + body + Closer + suffix)
    requires parse(body) == Some(JObject(data)) && Field in data
    ensures ExtractDetectedObjects(JArray([JObject(head)] + rest), parse) == Extraction(data[Field], false)
  {
    FenceRoundTrip(prefix, body, suffix);
  }

  /**
    Exact tag: an output opened by "```JSON", "```json " or "```json" + carriage
    return takes the whole-string path, so its result is that of decoding the
    entire output, never of decoding the body alone.
   */
  lemma {:induction false} VariantTagTakesWholeTextPath(
    response: Json, parse: Parser, tag: string, body: string)
    requires tag in {"```JSON\n", "```json \n", "```json\r\n"}
    requires !Contains(body, OpenerTag)
    requires HeadOutputIs(response, tag + body + Closer)
    ensures !(parse(tag + body + Closer).Some? && parse(tag + body + Closer).value.JObject?) ==>
      ExtractDetectedObjects(response, parse) == Nothing
    ensures parse(tag + body + Closer).Some? && parse(tag + body + Closer).value.JObject? ==>
      ExtractDetectedObjects(response, parse)
      == Extraction(GetOr(parse(tag + body + Closer).value.fields, Field, EmptyList), false)
  {
    VariantTagFindsNoFence(tag, body);
  }
}
