/** The HTTP layer of backend/main.py: the messages of the ingest and add-rule endpoints,
    and the normalisation calculate_endpoint applies to what get_tax_calculation returns. */
module Api {
  import opened Wrappers
  import opened Text
  import opened Json
  import opened Rag

  // ---------------------------------------------------------------------------
  // str.find and str.rfind for one character
  // ---------------------------------------------------------------------------

  /** s.find(c, i): the first index at or after i holding c, or -1. */
  function FindFrom(s: string, c: char, i: nat): (r: int)
    requires i <= |s|
    ensures r == -1 || i <= r < |s|
    ensures r == -1 ==> forall k :: i <= k < |s| ==> s[k] != c
    ensures r != -1 ==> s[r] == c && forall k :: i <= k < r ==> s[k] != c
    decreases |s| - i
  {
    if i == |s| then -1 else if s[i] == c then i else FindFrom(s, c, i + 1)
  }

  /** s.find(c). */
  function Find(s: string, c: char): int {
    FindFrom(s, c, 0)
  }

  /** s.rfind(c, 0, j): the last index before j holding c, or -1. */
  function RFindBefore(s: string, c: char, j: nat): (r: int)
    requires j <= |s|
    ensures r == -1 || 0 <= r < j
    ensures r == -1 ==> forall k :: 0 <= k < j ==> s[k] != c
    ensures r != -1 ==> s[r] == c && forall k :: r < k < j ==> s[k] != c
  {
    if j == 0 then -1 else if s[j - 1] == c then j - 1 else RFindBefore(s, c, j - 1)
  }

  /** s.rfind(c). */
  function RFind(s: string, c: char): int {
    RFindBefore(s, c, |s|)
  }

  /** Python's s[a:b] for non-negative bounds: the end is clamped to the length, and a
      start at or past the end gives the empty string. */
  function Slice(s: string, a: nat, b: nat): (r: string)
    ensures |r| <= |s|
    ensures a <= b <= |s| ==> r == s[a..b]
    ensures a <= |s| < b ==> r == s[a..]
    ensures b <= a ==> r == ""
  {
    var e := if b <= |s| then b else |s|;
    if a < e then s[a..e] else ""
  }

  // ---------------------------------------------------------------------------
  // calculate_endpoint
  // ---------------------------------------------------------------------------

  /** json.loads on the candidate text: the parsed value, or None when it raises. */
  type Parse = string -> Option<Value>

  /** What the normalisation relies on about json.loads: the empty string does not
      parse, and a document that starts with '{' parses to an object if at all. */
  ghost predicate ParserSound(parse: Parse) {
    && parse("").None?
    && forall s :: |s| > 0 && s[0] == '{' && parse(s).Some? ==> parse(s).value.Object?
  }

  const Unparsed: string := "Could not parse structured response from LLM. See raw result."

  /** The three-field record the frontend expects. */
  function Record(result: Value, explanation: Value): Value {
    Object(map["result" := result, "calculated_value" := Int(0), "explanation" := explanation])
  }

  /** The record returned when the raw reply holds no JSON that parses. */
  function Fallback(raw: string): Value {
    Record(Str(raw), Str(Unparsed))
  }

  /** The text calculate_endpoint hands to json.loads, from the first '{' up to and
      including the last '}'; None when the `start != -1 and end != -1` test fails,
      which happens exactly when the reply holds no '{'. */
  function Candidate(raw: string): (c: Option<string>)
    ensures c.None? <==> '{' !in raw
    ensures c.Some? ==> |c.value| <= |raw|
    ensures c.Some? && c.value != "" ==> c.value[0] == '{'
  {
    var start := Find(raw, '{');
    var end := RFind(raw, '}') + 1;
    if start != -1 && end != -1 then Some(Slice(raw, start, end)) else None
  }

  /** calculate_endpoint once get_tax_calculation has returned: a dictionary becomes an
      object, and a reply text becomes what its candidate parses to or the fallback. */
  function Normalize(reply: Reply, parse: Parse): (v: Value)
    ensures reply.DictReply? ==> v.Object?
    ensures reply.DictReply? && "error" !in reply.fields ==> v == Object(reply.fields)
    ensures reply.TextReply? ==>
      v == Fallback(reply.text) || (Candidate(reply.text).Some? && parse(Candidate(reply.text).value) == Some(v))
    ensures reply.TextReply? && Candidate(reply.text).None? ==> v == Fallback(reply.text)
  {
    match reply
    case DictReply(fields) =>
      if "error" in fields then Record(fields["error"], fields["error"]) else Object(fields)
    case TextReply(raw) =>
      match Candidate(raw)
      case None => Fallback(raw)
      case Some(json) =>
        match parse(json)
        case Some(data) => data
        case None => Fallback(raw)
  }

  /** An error dictionary becomes the three-field record, its message in both text fields. */
  lemma ErrorDictWrapped(fields: map<string, Value>, parse: Parse)
    requires "error" in fields
    ensures var v := Normalize(DictReply(fields), parse);
      && v.Object?
      && v.fields.Keys == {"result", "calculated_value", "explanation"}
      && v.fields["result"] == fields["error"] == v.fields["explanation"]
      && v.fields["calculated_value"] == Int(0)
  {
  }

  /** Any other dictionary is passed through untouched. */
  lemma OtherDictUnchanged(fields: map<string, Value>, parse: Parse)
    requires "error" !in fields
    ensures Normalize(DictReply(fields), parse) == Object(fields)
  {
  }

  /** The candidate runs from the first '{' through the last '}' when such a '}'
      follows the first '{'. */
  lemma CandidateIsBraced(raw: string, i: nat, j: nat)
    requires i < j < |raw| && raw[i] == '{' && raw[j] == '}'
    requires forall k :: 0 <= k < i ==> raw[k] != '{'
    requires forall k :: j < k < |raw| ==> raw[k] != '}'
    ensures Candidate(raw) == Some(raw[i..j + 1])
    ensures Candidate(raw).value[0] == '{' && Candidate(raw).value[|Candidate(raw).value| - 1] == '}'
  {
    assert Find(raw, '{') == i;
    assert RFind(raw, '}') == j;
  }

  /** The `end != -1` test never fails: rfind gives at least -1, so end is at least 0. */
  lemma EndGuardVacuous(raw: string)
    ensures RFind(raw, '}') + 1 >= 0
  {
  }

  /** A reply without '{' falls back to the raw-text record. */
  lemma NoBraceFallback(raw: string, parse: Parse)
    requires '{' !in raw
    ensures Normalize(TextReply(raw), parse) == Fallback(raw)
  {
  }

  /** A '{' that no '}' follows leaves an empty candidate, which does not parse, so
      the reply falls back to the raw-text record as well. */
  lemma UnclosedBraceFallback(raw: string, parse: Parse)
    requires ParserSound(parse)
    requires '{' in raw && forall k :: Find(raw, '{') <= k < |raw| ==> raw[k] != '}'
    ensures Candidate(raw) == Some("")
    ensures Normalize(TextReply(raw), parse) == Fallback(raw)
  {
    var k :| 0 <= k < |raw| && raw[k] == '{';
    var start := Find(raw, '{');
    var end := RFind(raw, '}') + 1;
    assert end <= start;
  }

  /** A candidate that parses is returned exactly as parsed; under a sound parser it is
      an object whenever the candidate is not empty. */
  lemma ParsedReturnedExactly(raw: string, parse: Parse, v: Value)
    requires '{' in raw && parse(Candidate(raw).value) == Some(v)
    ensures Normalize(TextReply(raw), parse) == v
    ensures ParserSound(parse) ==> v.Object?
  {
  }

  /** Every reply text normalises either to what the candidate parses to or to the
      fallback record; with a sound parser the result is always an object. */
  lemma NormalizeTotal(raw: string, parse: Parse)
    ensures ParserSound(parse) ==> Normalize(TextReply(raw), parse).Object?
  {
    if '{' in raw && parse(Candidate(raw).value).Some? {
      ParsedReturnedExactly(raw, parse, parse(Candidate(raw).value).value);
    }
  }

  // ---------------------------------------------------------------------------
  // Endpoint messages and responses
  // ---------------------------------------------------------------------------

  const IngestedAfterReset: string := "Resetted and ingested"
  const Ingested: string := "Ingested"
  const AddedPrefix: string := "Rule added successfully with ID "

  /** The message of ingest_endpoint. */
  function IngestMessage(reset: bool, count: nat): (m: string)
    ensures reset ==> |m| > |IngestedAfterReset| && m[..|IngestedAfterReset|] == IngestedAfterReset
    ensures !reset ==> |m| > |Ingested| && m[..|Ingested|] == Ingested
    ensures |m| > 7 && m[|m| - 7..] == " rules."
  {
    (if reset then IngestedAfterReset else Ingested) + " " + NatToString(count) + " rules."
  }

  /** The message of add_rule_endpoint. */
  function AddRuleMessage(id: nat): (m: string)
    ensures |m| > |AddedPrefix| && m[..|AddedPrefix|] == AddedPrefix
    ensures m[|AddedPrefix|..] == NatToString(id)
  {
    AddedPrefix + NatToString(id)
  }

  /** Different numbers are never written the same way. */
  lemma NumeralInjective(m: nat, n: nat)
    requires NatToString(m) == NatToString(n)
    ensures m == n
  {
  }

  /** The add-rule message determines the id it reports. */
  lemma AddRuleMessageReadBack(a: nat, b: nat)
    requires AddRuleMessage(a) == AddRuleMessage(b)
    ensures a == b
  {
    assert AddRuleMessage(a)[|AddedPrefix|..] == NatToString(a);
    assert AddRuleMessage(b)[|AddedPrefix|..] == NatToString(b);
  }

  /** In p + x + q, x sits right after p. */
  lemma MiddleOf(p: string, x: string, q: string)
    ensures (p + x + q)[|p|..|p| + |x|] == x
  {
    assert (p + x + q)[..|p| + |x|] == p + x;
  }

  /** The ingest message determines whether the collection was reset and how many rules
      were ingested. */
  lemma IngestMessageReadBack(r1: bool, n1: nat, r2: bool, n2: nat)
    requires IngestMessage(r1, n1) == IngestMessage(r2, n2)
    ensures r1 == r2 && n1 == n2
  {
    var m := IngestMessage(r1, n1);
    assert m[0] == (if r1 then 'R' else 'I') == (if r2 then 'R' else 'I');
    var p := (if r1 then IngestedAfterReset else Ingested) + " ";
    var d1, d2 := NatToString(n1), NatToString(n2);
    assert |d1| == |d2|;
    MiddleOf(p, d1, " rules.");
    MiddleOf(p, d2, " rules.");
    NumeralInjective(n1, n2);
  }

  /** What an endpoint answers: a JSON body, or status 500 carrying the error. */
  datatype Response = Ok(body: Value) | ServerError(error: Error)

  /** The body of a successful ingest or add-rule call. */
  function SuccessBody(message: string): (v: Value)
    ensures v.Object? && v.fields.Keys == {"status", "message"}
    ensures v.fields["status"] == Str("success") && v.fields["message"] == Str(message)
  {
    Object(map["status" := Str("success"), "message" := Str(message)])
  }

  /** POST /add_rule. */
  method AddRuleEndpoint(rb: RuleBase, text: string) returns (resp: Response)
    modifies rb
    ensures rb.corpus == Some(old(rb.corpus).GetOr("") + FormatRule(NextRuleId(old(rb.corpus)), text))
    ensures old(rb.collection).None? ==> resp == ServerError(CollectionMissing) && rb.collection.None?
    ensures old(rb.collection).Some? ==> resp == Ok(SuccessBody(AddRuleMessage(NextRuleId(old(rb.corpus)))))
    ensures old(rb.collection).Some? ==>
      rb.collection == Some(old(rb.collection).value + [Rule(NextRuleId(old(rb.corpus)), text)])
  {
    var r := rb.AddRule(text);
    match r
    case Success(id) => resp := Ok(SuccessBody(AddRuleMessage(id)));
    case Failure(e) => resp := ServerError(e);
  }

  /** POST /ingest. */
  method IngestEndpoint(rb: RuleBase, reset: bool) returns (resp: Response)
    modifies rb
    ensures rb.corpus == old(rb.corpus)
    ensures old(rb.corpus).None? ==>
      resp == ServerError(FileNotFound) && rb.collection == Some(OpenedRows(old(rb.collection), reset))
    ensures old(rb.corpus).Some? ==>
      && resp == Ok(SuccessBody(IngestMessage(reset, |ParsedRules(old(rb.corpus).value)|)))
      && rb.collection == Some(OpenedRows(old(rb.collection), reset) + ParsedRules(old(rb.corpus).value))
  {
    var r := rb.Ingest(reset);
    match r
    case Success(count) => resp := Ok(SuccessBody(IngestMessage(reset, count)));
    case Failure(e) => resp := ServerError(e);
  }

  /** POST /calculate. */
  function CalculateEndpoint(rb: RuleBase, query: string, search: Search, generate: Generate, parse: Parse): (resp: Response)
    reads rb
    ensures resp.ServerError? <==> rb.collection.None?
  {
    match rb.GetTaxCalculation(query, search, generate)
    case Failure(e) => ServerError(e)
    case Success(reply) => Ok(Normalize(reply, parse))
  }

  /** Without a matching rule, /calculate answers with the three-field record carrying
      "No relevant rule found". */
  lemma CalculateWithoutHit(rb: RuleBase, query: string, search: Search, generate: Generate, parse: Parse)
    requires rb.collection.Some? && search(rb.collection.value, query).None?
    ensures CalculateEndpoint(rb, query, search, generate, parse) == Ok(Record(Str(NoRuleFound), Str(NoRuleFound)))
  {
  }
}
