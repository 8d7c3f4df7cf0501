/** Decoded JSON, as `encoding/json` hands it to a handler, and what counts as an empty one.
    A number is kept as the text it prints as. */
module JsonValues {
  import opened Wrappers
  import opened Text

  datatype Json =
    | JNull
    | JBool(value: bool)
    | JNumber(digits: string)
    | JString(text: string)
    | JArray(items: seq<Json>)
    | JObject(fields: map<string, Json>)

  /** Raw tool arguments: no bytes, bytes that are not JSON, or a JSON value. */
  datatype Arguments = Absent | Undecodable | Decoded(value: Json)

  /** Arguments read into a map: a null reads as no entries, and any other non-object fails. */
  function DecodeArgs(args: Arguments): Option<map<string, Json>> {
    match args
    case Absent => Some(map[])
    case Undecodable => None
    case Decoded(JObject(m)) => Some(m)
    case Decoded(JNull) => Some(map[])
    case Decoded(_) => None
  }

  /** `emptyJSONValue`: null, blank text, and empty containers; never `false` or a number. */
  predicate EmptyJson(v: Json) {
    match v
    case JNull => true
    case JString(s) => TrimSpace(s) == ""
    case JArray(items) => items == []
    case JObject(fields) => fields == map[]
    case _ => false
  }

  /** `unwrapCoverage`: past the two-field envelope, and only past that. */
  function UnwrapCoverage(v: Json): Json {
    if v.JObject? && |v.fields| == 2 && "coverage" in v.fields && "result" in v.fields then v.fields["result"] else v
  }

  datatype Content = TextContent(text: string, decoded: Option<Json>) | OtherContent

  predicate EmptyContent(c: Content) {
    c.TextContent? && (TrimSpace(c.text) == "" || (c.decoded.Some? && EmptyJson(UnwrapCoverage(c.decoded.value))))
  }

  /** A tool result. `prompt` is the confirmation message an input request carries, if this is one. */
  datatype ToolResult = ToolResult(isError: bool, structured: Option<Json>, content: seq<Content>, prompt: Option<string>)

  predicate EmptyResult(r: ToolResult) {
    if r.structured.Some? then EmptyJson(UnwrapCoverage(r.structured.value))
    else forall i :: 0 <= i < |r.content| ==> EmptyContent(r.content[i])
  }

  /** `emptyResult`, which stops at the first content that says something. */
  method IsEmptyResult(r: ToolResult) returns (empty: bool)
    ensures empty == EmptyResult(r)
  {
    if r.structured.Some? {
      return EmptyJson(UnwrapCoverage(r.structured.value));
    }
    for i := 0 to |r.content|
      invariant forall j :: 0 <= j < i ==> EmptyContent(r.content[j])
    {
      var c := r.content[i];
      if !c.TextContent? { return false; }
      if TrimSpace(c.text) == "" { continue; }
      if c.decoded.None? || !EmptyJson(UnwrapCoverage(c.decoded.value)) { return false; }
    }
    empty := true;
  }

  lemma {:induction false} TrimLeftBlank(s: string)
    ensures TrimLeft(s) == "" <==> forall i :: 0 <= i < |s| ==> IsSpace(s[i])
    decreases |s|
  {
    if s != [] && IsSpace(s[0]) {
      TrimLeftBlank(s[1..]);
      if TrimLeft(s) == "" {
        forall i | 0 <= i < |s| ensures IsSpace(s[i]) { if i > 0 { assert s[i] == s[1..][i - 1]; } }
      }
    }
  }

  /** A grant's answer inside its envelope is empty exactly when the answer itself is: null, a string of
      white space, or a container with nothing in it. An answer of `false` or `0` never is. */
  lemma EnvelopeEmptyIff(coverage: Json, answer: Json, content: seq<Content>)
    ensures EmptyResult(ToolResult(false, Some(JObject(map["coverage" := coverage, "result" := answer])), content, None))
            <==> answer == JNull || answer == JArray([]) || answer == JObject(map[])
                 || (answer.JString? && forall i :: 0 <= i < |answer.text| ==> IsSpace(answer.text[i]))
  {
    var envelope := map["coverage" := coverage, "result" := answer];
    assert "coverage" != "result" by { assert |"coverage"| != |"result"|; }
    assert |envelope| == 2 by { assert envelope.Keys == {"coverage", "result"}; assert |envelope.Keys| == |envelope|; }
    assert UnwrapCoverage(JObject(envelope)) == answer;
    if answer.JString? {
      TrimLeftBlank(answer.text);
      TrimLeftStarts(answer.text);
      TrimRightOfUnspaced(TrimLeft(answer.text));
    }
  }

  lemma {:induction false} TrimRightOfUnspaced(s: string)
    requires s != "" ==> !IsSpace(s[0])
    ensures TrimRight(s) == "" <==> s == ""
    decreases |s|
  {
    if s != "" && IsSpace(s[|s| - 1]) {
      TrimRightOfUnspaced(s[..|s| - 1]);
    }
  }

  /** A value is empty exactly when it is null, white space, or a container with nothing in it. */
  lemma EmptyJsonIff(v: Json)
    ensures EmptyJson(v) <==>
      || v == JNull || v == JArray([]) || v == JObject(map[])
      || (v.JString? && forall i :: 0 <= i < |v.text| ==> IsSpace(v.text[i]))
  {
    if v.JString? { BlankIff(v.text); }
  }

  lemma BlankIff(s: string)
    ensures TrimSpace(s) == "" <==> forall i :: 0 <= i < |s| ==> IsSpace(s[i])
  {
    TrimLeftBlank(s);
    TrimLeftStarts(s);
    TrimRightOfUnspaced(TrimLeft(s));
  }

  /** An answer without a structured part is empty exactly when every content is text that says nothing:
      white space, or JSON that is empty past its envelope. */
  lemma UnstructuredEmptyIff(content: seq<Content>)
    ensures EmptyResult(ToolResult(false, None, content, None)) <==>
      forall i :: 0 <= i < |content| ==>
        && content[i].TextContent?
        && ((forall j :: 0 <= j < |content[i].text| ==> IsSpace(content[i].text[j]))
            || (content[i].decoded.Some? && EmptyJson(UnwrapCoverage(content[i].decoded.value))))
  {
    forall i | 0 <= i < |content| && content[i].TextContent?
      ensures TrimSpace(content[i].text) == "" <==> forall j :: 0 <= j < |content[i].text| ==> IsSpace(content[i].text[j])
    {
      BlankIff(content[i].text);
    }
  }

  /** Only an object of exactly `coverage` and `result` is an envelope. */
  lemma UnwrapsIff(v: Json)
    ensures UnwrapCoverage(v) ==
      if v.JObject? && v.fields.Keys == {"coverage", "result"} then v.fields["result"] else v
  {
    if v.JObject? {
      assert |v.fields.Keys| == |v.fields|;
      assert "coverage" != "result" by { assert |"coverage"| != |"result"|; }
      assert |{"coverage", "result"}| == 2;
      if |v.fields| == 2 && "coverage" in v.fields && "result" in v.fields {
        SameSize({"coverage", "result"}, v.fields.Keys);
      }
    }
  }

  lemma SameSize<T>(a: set<T>, b: set<T>)
    requires a <= b && |a| == |b|
    ensures a == b
  {
    assert b == a + (b - a);
    assert |b| == |a| + |b - a|;
  }

  /** Arguments read as a map exactly when they are absent, null or an object. */
  lemma ArgumentsReadIff(args: Arguments, m: map<string, Json>)
    ensures DecodeArgs(args) == Some(m) <==> args == Decoded(JObject(m)) || (m == map[] && (args == Absent || args == Decoded(JNull)))
  {
  }
}
