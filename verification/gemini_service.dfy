/**
 * The analysis client: the agent code taken from the file name, the record
 * assembled from the provider's reply, the messages failures are rethrown
 * with, and the payload taken out of a data URL.
 *
 * The provider call itself is not modelled: its reply is a parameter, either
 * the response text, the error the call failed with, or the error thrown
 * while the client was being built. `JSON.parse` is a parameter too.
 */
module GeminiService {
  import opened Wrappers
  import opened Strings
  import Json
  import opened Types

  const AGENT_UNIDENTIFIED := "AGENT_UNIDENTIFIED"
  // The two long messages are written in pieces: the verifier sees the
  // characters of short literals only, and the quota lemma needs them.
  const QUOTA_MESSAGE := "Quota Exceeded. " + "System limits reached. " + "Please try again later."
  const ANALYSIS_FAILED := "Surgical analysis failed. " + "Audio stream may be unreadable."
  const DECODE_FAILED := "Audio decoding failed."

  // ---------------------------------------------------------------------------
  // Agent code: the first match of /IN\d+/i, upper-cased.
  // ---------------------------------------------------------------------------

  predicate IsI(c: char) { c == 'I' || c == 'i' }

  predicate IsN(c: char) { c == 'N' || c == 'n' }

  /** The pattern matches starting at index `i`: an I, an N, then a digit. */
  predicate MatchAt(s: string, i: int) {
    0 <= i && i + 2 < |s| && IsI(s[i]) && IsN(s[i + 1]) && IsDigit(s[i + 2])
  }

  /** `i` is where the regular expression's search finds its match. */
  predicate LeftmostMatch(s: string, i: int) {
    MatchAt(s, i) && forall j :: 0 <= j < i ==> !MatchAt(s, j)
  }

  /** Where the greedy `\d+` starting at `j` stops. */
  function DigitRunEnd(s: string, j: nat): (k: nat)
    requires j <= |s|
    ensures j <= k <= |s|
    ensures forall m :: j <= m < k ==> IsDigit(s[m])
    ensures k == |s| || !IsDigit(s[k])
    decreases |s| - j
  {
    if j < |s| && IsDigit(s[j]) then DigitRunEnd(s, j + 1) else j
  }

  /** The search for the first match at or after `from`. */
  function FindMatch(s: string, from: nat): (r: Option<nat>)
    requires from <= |s|
    ensures r.Some? ==> from <= r.value && MatchAt(s, r.value)
    ensures r.Some? ==> forall j :: from <= j < r.value ==> !MatchAt(s, j)
    ensures r.None? ==> forall j :: from <= j ==> !MatchAt(s, j)
    decreases |s| - from
  {
    if from == |s| then None
    else if MatchAt(s, from) then Some(from)
    else FindMatch(s, from + 1)
  }

  /** An agent code: "IN" followed by one or more digits. */
  predicate IsAgentCode(code: string) {
    |code| >= 3 && code[0] == 'I' && code[1] == 'N' && forall k :: 2 <= k < |code| ==> IsDigit(code[k])
  }

  function ExtractAgentCode(fileName: string): (code: string)
    ensures code == AGENT_UNIDENTIFIED <==> forall i :: !MatchAt(fileName, i)
    ensures code == AGENT_UNIDENTIFIED || IsAgentCode(code)
  {
    match FindMatch(fileName, 0)
    case None => AGENT_UNIDENTIFIED
    case Some(i) =>
      var code := ToUpper(fileName[i..DigitRunEnd(fileName, i + 2)]);
      assert code[0] == 'I' && code[1] == 'N';
      code
  }

  /** With a match, the code is "IN" and the whole digit run of the leftmost
      match. */
  lemma AgentCodeOfLeftmostMatch(s: string, i: int)
    requires LeftmostMatch(s, i)
    ensures ExtractAgentCode(s) == "IN" + s[i + 2..DigitRunEnd(s, i + 2)]
  {
    var found := FindMatch(s, 0);
    assert found == Some(i);
    var code := ExtractAgentCode(s);
    var expected := "IN" + s[i + 2..DigitRunEnd(s, i + 2)];
    assert |code| == |expected|;
    forall k | 0 <= k < |code|
      ensures code[k] == expected[k]
    {
      if k >= 2 {
        assert code[k] == UpperChar(s[i + k]);
      }
    }
  }

  lemma AgentCodeExample()
    ensures ExtractAgentCode("call_in4521x.mp3") == "IN4521"
  {
    var s := "call_in4521x.mp3";
    assert MatchAt(s, 5);
    assert forall j :: 0 <= j < 5 ==> !MatchAt(s, j);
    assert DigitRunEnd(s, 7) == 11;
    AgentCodeOfLeftmostMatch(s, 5);
    assert s[7..11] == "4521";
  }

  lemma {:induction false} DigitRunToEnd(s: string, j: nat)
    requires j <= |s|
    requires forall m :: j <= m < |s| ==> IsDigit(s[m])
    ensures DigitRunEnd(s, j) == |s|
    decreases |s| - j
  {
    if j < |s| {
      DigitRunToEnd(s, j + 1);
    }
  }

  /** Extracting from an extracted code, or from the sentinel, gives it back. */
  lemma ExtractAgentCodeIdempotent(fileName: string)
    ensures ExtractAgentCode(ExtractAgentCode(fileName)) == ExtractAgentCode(fileName)
  {
    var code := ExtractAgentCode(fileName);
    if code == AGENT_UNIDENTIFIED {
      assert forall k :: 0 <= k < |code| ==> !IsDigit(code[k]);
    } else {
      assert LeftmostMatch(code, 0);
      DigitRunToEnd(code, 2);
      AgentCodeOfLeftmostMatch(code, 0);
      assert code == "IN" + code[2..];
    }
  }

  // ---------------------------------------------------------------------------
  // Failures: the message each caught error is rethrown with.
  // ---------------------------------------------------------------------------

  /** What the handler reads off a caught error: its `message` and `status`. */
  datatype ErrorInfo = ErrorInfo(message: Option<string>, status: Option<int>)

  predicate IsQuotaError(e: ErrorInfo) {
    (e.message.Some? && Contains(ToLower(e.message.value), "quota")) || e.status == Some(429)
  }

  function RethrownMessage(e: ErrorInfo): (m: string)
    ensures m != ""
    ensures IsQuotaError(e) ==> m == QUOTA_MESSAGE
    ensures !IsQuotaError(e) && e.message.Some? && e.message.value != "" ==> m == e.message.value
    ensures !IsQuotaError(e) && (e.message.None? || e.message.value == "") ==> m == ANALYSIS_FAILED
  {
    if IsQuotaError(e) then QUOTA_MESSAGE
    else if e.message.Some? && e.message.value != "" then e.message.value
    else ANALYSIS_FAILED
  }

  /** The quota message comes out exactly for quota failures: no other failure
      can carry it, since it mentions "quota" itself. */
  lemma QuotaMessageExactlyForQuota(e: ErrorInfo)
    ensures RethrownMessage(e) == QUOTA_MESSAGE <==> IsQuotaError(e)
  {
    var low := ToLower(QUOTA_MESSAGE);
    assert QUOTA_MESSAGE[..5] == "Quota";
    assert low[..5] == "quota";
    assert OccursAt(low, "quota", 0);
    assert ANALYSIS_FAILED[0] != QUOTA_MESSAGE[0];
  }

  // ---------------------------------------------------------------------------
  // Data URLs: the payload is the text after the first comma.
  // ---------------------------------------------------------------------------

  function Base64Payload(dataUrl: string): (r: Result<string, string>)
    ensures r.Failure? <==> ',' !in dataUrl
    ensures r.Failure? ==> r.error == DECODE_FAILED
    ensures r.Success? ==> ',' !in r.value
  {
    if dataUrl == "" || ',' !in dataUrl then Failure(DECODE_FAILED)
    else
      var pieces := Split(dataUrl, ',');
      JoinSplit(dataUrl, ',');
      Success(pieces[1])
  }

  /** A header, a comma and a payload decode to the payload; anything after a
      second comma is dropped. */
  lemma Base64PayloadAfterFirstComma(header: string, payload: string, rest: string)
    requires ',' !in header && ',' !in payload
    ensures Base64Payload(header + [','] + payload) == Success(payload)
    ensures Base64Payload(header + [','] + payload + [','] + rest) == Success(payload)
  {
    SplitAtFirst(header, ',', payload);
    assert IndexOf(payload, ',') == -1;
    assert Split(payload, ',') == [payload];
    var url := header + [','] + payload + [','] + rest;
    assert url == header + [','] + (payload + [','] + rest);
    SplitAtFirst(header, ',', payload + [','] + rest);
    SplitAtFirst(payload, ',', rest);
    assert url[|header|] == ',';
  }

  // ---------------------------------------------------------------------------
  // The record: local fields first, then everything the parsed reply holds.
  // ---------------------------------------------------------------------------

  /** The four fields the client fills in itself. */
  function LocalFields(id: string, timestamp: string, fileName: string, agentCode: string): (r: map<string, Json.Value>)
    ensures r.Keys == {"id", "timestamp", "fileName", "agentCode"}
    ensures r["id"] == Json.Str(id) && r["timestamp"] == Json.Str(timestamp)
    ensures r["fileName"] == Json.Str(fileName) && r["agentCode"] == Json.Str(agentCode)
  {
    map["id" := Json.Str(id), "timestamp" := Json.Str(timestamp),
        "fileName" := Json.Str(fileName), "agentCode" := Json.Str(agentCode)]
  }

  /** `{ id, timestamp, fileName, agentCode, ...parsed }`: the spread comes
      last, so any key it brings overrides a local one. */
  function AssembleRecord(id: string, timestamp: string, fileName: string, parsed: Json.Value): (r: map<string, Json.Value>)
    ensures r.Keys == {"id", "timestamp", "fileName", "agentCode"} + Json.SpreadEntries(parsed).Keys
    ensures forall k :: k in Json.SpreadEntries(parsed) ==> r[k] == Json.SpreadEntries(parsed)[k]
    ensures "id" !in Json.SpreadEntries(parsed) ==> r["id"] == Json.Str(id)
    ensures "timestamp" !in Json.SpreadEntries(parsed) ==> r["timestamp"] == Json.Str(timestamp)
    ensures "fileName" !in Json.SpreadEntries(parsed) ==> r["fileName"] == Json.Str(fileName)
    ensures "agentCode" !in Json.SpreadEntries(parsed) ==> r["agentCode"] == Json.Str(ExtractAgentCode(fileName))
  {
    LocalFields(id, timestamp, fileName, ExtractAgentCode(fileName)) + Json.SpreadEntries(parsed)
  }

  /** What the provider call came back with. The client is built before the
      `try`, so an error thrown there (`Unbuilt`) escapes the handler as it is. */
  datatype ProviderReply = Responded(text: Option<string>) | Rejected(error: ErrorInfo) | Unbuilt(error: ErrorInfo)

  /** The message an unhandled error reaches the caller with; the empty string
      when it has none. */
  function RawMessage(e: ErrorInfo): (m: string)
    ensures e.message.Some? ==> m == e.message.value
    ensures e.message.None? ==> m == ""
  {
    if e.message.Some? then e.message.value else ""
  }

  /** What `JSON.parse` makes of a text: a value, or a syntax error. */
  datatype ParseOutcome = Parsed(value: Json.Value) | SyntaxError(error: ErrorInfo)

  /** `response.text || "{}"`. */
  function ResponseText(text: Option<string>): (r: string)
    ensures r != ""
    ensures text.Some? && text.value != "" ==> r == text.value
    ensures text.None? || text.value == "" ==> r == "{}"
  {
    if text.None? || text.value == "" then "{}" else text.value
  }

  /** `analyzeCallAudio` after the provider has answered: the assembled record,
      or the message the failure is rethrown with. A parse failure is caught
      by the same handler as a provider failure; a failure to build the client
      is not caught. */
  function AnalyzeCallAudio(fileName: string, id: string, timestamp: string, reply: ProviderReply,
                            parse: string -> ParseOutcome): (r: Result<map<string, Json.Value>, string>)
    ensures r.Failure? && !reply.Unbuilt? ==> r.error != ""
  {
    match reply
    case Unbuilt(e) => Failure(RawMessage(e))
    case Rejected(e) => Failure(RethrownMessage(e))
    case Responded(text) =>
      match parse(ResponseText(text))
      case SyntaxError(e) => Failure(RethrownMessage(e))
      case Parsed(v) => Success(AssembleRecord(id, timestamp, fileName, v))
  }

  /** Success exactly when the provider answered and its text parsed; then the
      record holds the four local fields unless the reply overrides them, and
      every field of the reply. A provider error and a syntax error are both
      rethrown through the handler; an error building the client is not. */
  lemma AnalyzeOutcome(fileName: string, id: string, timestamp: string, reply: ProviderReply,
                       parse: string -> ParseOutcome)
    ensures var r := AnalyzeCallAudio(fileName, id, timestamp, reply, parse);
      r.Success? <==> reply.Responded? && parse(ResponseText(reply.text)).Parsed?
    ensures var r := AnalyzeCallAudio(fileName, id, timestamp, reply, parse);
      reply.Rejected? ==> r == Failure(RethrownMessage(reply.error))
    ensures var r := AnalyzeCallAudio(fileName, id, timestamp, reply, parse);
      reply.Responded? && parse(ResponseText(reply.text)).SyntaxError? ==>
        r == Failure(RethrownMessage(parse(ResponseText(reply.text)).error))
    ensures var r := AnalyzeCallAudio(fileName, id, timestamp, reply, parse);
      reply.Unbuilt? ==> r == Failure(RawMessage(reply.error))
    ensures var r := AnalyzeCallAudio(fileName, id, timestamp, reply, parse);
      r.Success? ==> r.value == AssembleRecord(id, timestamp, fileName, parse(ResponseText(reply.text)).value)
    ensures var r := AnalyzeCallAudio(fileName, id, timestamp, reply, parse);
      r.Success? ==>
        var fields := Json.SpreadEntries(parse(ResponseText(reply.text)).value);
        && (forall k :: k in fields ==> k in r.value && r.value[k] == fields[k])
        && "id" in r.value && "timestamp" in r.value && "fileName" in r.value && "agentCode" in r.value
        && ("fileName" !in fields ==> r.value["fileName"] == Json.Str(fileName))
        && ("agentCode" !in fields ==> r.value["agentCode"] == Json.Str(ExtractAgentCode(fileName)))
  {
  }

  /** An empty or missing response text is parsed as "{}": the record then
      holds the four local fields and nothing else. */
  lemma AnalyzeEmptyResponse(fileName: string, id: string, timestamp: string, text: Option<string>,
                             parse: string -> ParseOutcome)
    requires text.None? || text == Some("")
    requires parse("{}") == Parsed(Json.Obj(map[]))
    ensures AnalyzeCallAudio(fileName, id, timestamp, Responded(text), parse)
         == Success(LocalFields(id, timestamp, fileName, ExtractAgentCode(fileName)))
    ensures |LocalFields(id, timestamp, fileName, ExtractAgentCode(fileName)).Keys| == 4
  {
    var local := LocalFields(id, timestamp, fileName, ExtractAgentCode(fileName));
    assert local + map[] == local;
    assert local.Keys == {"id", "timestamp", "fileName", "agentCode"};
  }

  // ---------------------------------------------------------------------------
  // The typed view: what the record is declared to be. Nothing checks it at run
  // time; it holds when the provider honours its response schema.
  // ---------------------------------------------------------------------------

  predicate HasString(m: map<string, Json.Value>, k: string) {
    k in m && m[k].Str?
  }

  predicate AllStrings(items: seq<Json.Value>) {
    forall i :: 0 <= i < |items| ==> items[i].Str?
  }

  /** The provider's response schema: the required fields with their types,
      and the two enum-constrained strings. */
  predicate ProviderSchema(m: map<string, Json.Value>) {
    && HasString(m, "recordedDisposition")
    && HasString(m, "suggestedDisposition") && FromValue(m["suggestedDisposition"].s).Some?
    && ("confidence" in m ==> m["confidence"].Number?)
    && HasString(m, "summary")
    && HasString(m, "detailedNarrative")
    && "failurePoints" in m && m["failurePoints"].Arr? && AllStrings(m["failurePoints"].items)
    && HasString(m, "customerSentiment") && SentimentFromValue(m["customerSentiment"].s).Some?
    && HasString(m, "nextSteps")
    && HasString(m, "duration")
    && "scorecard" in m && m["scorecard"].Obj?
    && HasString(m["scorecard"].members, "discoveryPhase")
    && HasString(m["scorecard"].members, "objectionHandling")
    && HasString(m["scorecard"].members, "strictAdherence")
  }

  /** A record whose fields have the declared types. */
  predicate Conforms(m: map<string, Json.Value>) {
    && ProviderSchema(m)
    && HasString(m, "id") && HasString(m, "timestamp") && HasString(m, "fileName") && HasString(m, "agentCode")
  }

  function ToRecord(m: map<string, Json.Value>): (a: AuditRecord)
    requires Conforms(m)
    ensures Value(a.suggestedDisposition) == m["suggestedDisposition"].s
    ensures SentimentValue(a.customerSentiment) == m["customerSentiment"].s
    ensures |a.failurePoints| == |m["failurePoints"].items|
    ensures forall i :: 0 <= i < |a.failurePoints| ==> a.failurePoints[i] == m["failurePoints"].items[i].s
    ensures a.id == m["id"].s && a.timestamp == m["timestamp"].s
    ensures a.agentCode == m["agentCode"].s && a.fileName == m["fileName"].s
    ensures a.recordedDisposition == m["recordedDisposition"].s
    ensures a.summary == m["summary"].s && a.detailedNarrative == m["detailedNarrative"].s
    ensures a.nextSteps == m["nextSteps"].s && a.duration == m["duration"].s
    ensures a.confidence == (if "confidence" in m then Some(m["confidence"].n) else None)
    ensures a.scorecard.discoveryPhase == m["scorecard"].members["discoveryPhase"].s
    ensures a.scorecard.objectionHandling == m["scorecard"].members["objectionHandling"].s
    ensures a.scorecard.strictAdherence == m["scorecard"].members["strictAdherence"].s
  {
    var items := m["failurePoints"].items;
    var card := m["scorecard"].members;
    AuditRecord(
      m["id"].s, m["timestamp"].s, m["agentCode"].s, m["recordedDisposition"].s,
      FromValue(m["suggestedDisposition"].s).value,
      if "confidence" in m then Some(m["confidence"].n) else None,
      m["summary"].s, m["detailedNarrative"].s,
      seq(|items|, i requires 0 <= i < |items| => items[i].s),
      SentimentFromValue(m["customerSentiment"].s).value,
      m["nextSteps"].s, m["duration"].s, m["fileName"].s,
      Scorecard(card["discoveryPhase"].s, card["objectionHandling"].s, card["strictAdherence"].s))
  }

  /** A schema-conforming reply yields a well-typed record that carries the
      file name and the extracted agent code, unless the reply overrides them,
      and the reply's disposition and summary. */
  lemma AssembledRecordConforms(id: string, timestamp: string, fileName: string, fields: map<string, Json.Value>)
    requires ProviderSchema(fields)
    requires "id" in fields ==> fields["id"].Str?
    requires "timestamp" in fields ==> fields["timestamp"].Str?
    requires "fileName" in fields ==> fields["fileName"].Str?
    requires "agentCode" in fields ==> fields["agentCode"].Str?
    ensures Conforms(AssembleRecord(id, timestamp, fileName, Json.Obj(fields)))
    ensures var a := ToRecord(AssembleRecord(id, timestamp, fileName, Json.Obj(fields)));
      && ("fileName" !in fields ==> a.fileName == fileName)
      && ("agentCode" !in fields ==> a.agentCode == ExtractAgentCode(fileName))
      && ("id" !in fields ==> a.id == id)
      && Value(a.suggestedDisposition) == fields["suggestedDisposition"].s
      && a.summary == fields["summary"].s
  {
    var r := AssembleRecord(id, timestamp, fileName, Json.Obj(fields));
    assert forall k :: k in fields ==> r[k] == fields[k];
  }
}
