/**
 * The data model: the call dispositions, the customer sentiment, the audit
 * record produced for one recording and the application state.
 */
module Types {
  import opened Wrappers

  /** The ten dispositions, named as the enum's members are. */
  datatype Disposition = SALE | CALLBK | CC | CNP | NI | DNC | DNQ | TS | LB | OTHER

  /** The string value each member stands for at run time. */
  function Value(d: Disposition): string {
    match d
    case SALE => "SALE"
    case CALLBK => "CALLBACK"
    case CC => "CallCut"
    case CNP => "CNP"
    case NI => "Not Interested"
    case DNC => "Do Not Call"
    case DNQ => "Do Not Qualify"
    case TS => "TroubleShooter"
    case LB => "LanguageBarrier"
    case OTHER => "OTHER"
  }

  /** The member's name as written in the enum declaration. */
  function Name(d: Disposition): string {
    match d
    case SALE => "SALE"
    case CALLBK => "CALLBK"
    case CC => "CC"
    case CNP => "CNP"
    case NI => "NI"
    case DNC => "DNC"
    case DNQ => "DNQ"
    case TS => "TS"
    case LB => "LB"
    case OTHER => "OTHER"
  }

  /** The members in declaration order (`Object.values(Disposition)`). */
  const ALL_DISPOSITIONS: seq<Disposition> := [SALE, CALLBK, CC, CNP, NI, DNC, DNQ, TS, LB, OTHER]

  /** The enum has exactly ten members, each listed once. */
  lemma DispositionsEnumerated()
    ensures |ALL_DISPOSITIONS| == 10
    ensures forall d :: d in ALL_DISPOSITIONS
    ensures forall i, j :: 0 <= i < j < |ALL_DISPOSITIONS| ==> ALL_DISPOSITIONS[i] != ALL_DISPOSITIONS[j]
  {
    forall d: Disposition
      ensures d in ALL_DISPOSITIONS
    {
      match d
      case SALE => assert ALL_DISPOSITIONS[0] == d;
      case CALLBK => assert ALL_DISPOSITIONS[1] == d;
      case CC => assert ALL_DISPOSITIONS[2] == d;
      case CNP => assert ALL_DISPOSITIONS[3] == d;
      case NI => assert ALL_DISPOSITIONS[4] == d;
      case DNC => assert ALL_DISPOSITIONS[5] == d;
      case DNQ => assert ALL_DISPOSITIONS[6] == d;
      case TS => assert ALL_DISPOSITIONS[7] == d;
      case LB => assert ALL_DISPOSITIONS[8] == d;
      case OTHER => assert ALL_DISPOSITIONS[9] == d;
    }
  }

  /** Distinct members have distinct string values. */
  lemma ValueInjective(d: Disposition, e: Disposition)
    ensures Value(d) == Value(e) ==> d == e
  {
  }

  /** Exactly seven members have a value that differs from their name. */
  lemma ValueDiffersFromName(d: Disposition)
    ensures Value(d) != Name(d) <==> d in {CALLBK, CC, NI, DNC, DNQ, TS, LB}
  {
  }

  /** The member whose value is `s`, if any: the membership test the
      provider's response schema applies to `suggestedDisposition`. */
  function FromValue(s: string): (r: Option<Disposition>)
    ensures r.Some? ==> Value(r.value) == s
    ensures r.None? ==> forall d :: Value(d) != s
  {
    if s == "SALE" then Some(SALE)
    else if s == "CALLBACK" then Some(CALLBK)
    else if s == "CallCut" then Some(CC)
    else if s == "CNP" then Some(CNP)
    else if s == "Not Interested" then Some(NI)
    else if s == "Do Not Call" then Some(DNC)
    else if s == "Do Not Qualify" then Some(DNQ)
    else if s == "TroubleShooter" then Some(TS)
    else if s == "LanguageBarrier" then Some(LB)
    else if s == "OTHER" then Some(OTHER)
    else None
  }

  lemma FromValueOfValue(d: Disposition)
    ensures FromValue(Value(d)) == Some(d)
  {
    ValueInjective(d, FromValue(Value(d)).value);
  }

  datatype Sentiment = Positive | Neutral | Negative

  function SentimentValue(s: Sentiment): string {
    match s
    case Positive => "Positive"
    case Neutral => "Neutral"
    case Negative => "Negative"
  }

  /** Membership in the three sentiment strings the schema allows. */
  function SentimentFromValue(s: string): (r: Option<Sentiment>)
    ensures r.Some? ==> SentimentValue(r.value) == s
    ensures r.None? ==> forall t :: SentimentValue(t) != s
  {
    if s == "Positive" then Some(Positive)
    else if s == "Neutral" then Some(Neutral)
    else if s == "Negative" then Some(Negative)
    else None
  }

  lemma SentimentRoundTrip(t: Sentiment)
    ensures SentimentFromValue(SentimentValue(t)) == Some(t)
  {
  }

  /** The three qualitative evaluations of one call. */
  datatype Scorecard = Scorecard(discoveryPhase: string, objectionHandling: string, strictAdherence: string)

  /** One audit. `confidence` is absent when the provider leaves it out: its
      response schema does not require it. */
  datatype AuditRecord = AuditRecord(
    id: string,
    timestamp: string,
    agentCode: string,
    recordedDisposition: string,
    suggestedDisposition: Disposition,
    confidence: Option<real>,
    summary: string,
    detailedNarrative: string,
    failurePoints: seq<string>,
    customerSentiment: Sentiment,
    nextSteps: string,
    duration: string,
    fileName: string,
    scorecard: Scorecard)

  /** The audits, newest first, whether an analysis is pending, and the
      current error message. */
  datatype AuditState = AuditState(audits: seq<AuditRecord>, isAnalyzing: bool, error: Option<string>)
}
