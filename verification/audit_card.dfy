/**
 * What the audit card derives from a record before drawing it: the
 * discrepancy flag, whether critiques are shown, the reference label, the
 * scorecard text, the sentiment colour, and the narrative's expanded state.
 */
module AuditCard {
  import opened Strings
  import opened Types

  const NO_DATA := "No data provided."
  const ROSE := "text-rose-400"
  const EMERALD := "text-emerald-400"
  const AMBER := "text-amber-400"

  /** `s.toUpperCase().trim()`: no lower-case ASCII letter is left, nor any
      white space at either end. */
  function Normalize(s: string): (r: string)
    ensures r == [] || (!IsWhitespace(r[0]) && !IsWhitespace(r[|r| - 1]))
    ensures forall i :: 0 <= i < |r| ==> !IsLower(r[i])
  {
    var upper := ToUpper(s);
    TrimKeepsNoLower(upper);
    Trim(upper)
  }

  /** The agent's logged disposition and the suggested one differ once both
      are upper-cased and trimmed. */
  predicate Differs(recorded: string, suggested: string) {
    Normalize(recorded) != Normalize(suggested)
  }

  predicate IsDiscrepancy(audit: AuditRecord) {
    Differs(audit.recordedDisposition, Value(audit.suggestedDisposition))
  }

  /** The comparison is symmetric and never flags a string against itself. */
  lemma DiffersSymmetricIrreflexive(a: string, b: string)
    ensures Differs(a, b) <==> Differs(b, a)
    ensures !Differs(a, a)
  {
  }

  /** Strings that agree up to ASCII case, with any white space around one of
      them, are never flagged. */
  lemma CaseAndPaddingNotFlagged(a: string, b: string, ws1: string, ws2: string)
    requires ToUpper(a) == ToUpper(b)
    requires AllWhitespace(ws1) && AllWhitespace(ws2)
    ensures !Differs(ws1 + a + ws2, b)
  {
    ToUpperAppend(ws1, a);
    ToUpperAppend(ws1 + a, ws2);
    ToUpperWhitespace(ws1);
    ToUpperWhitespace(ws2);
    TrimIgnoresPadding(ws1, ToUpper(a), ws2);
  }

  /** Logging a disposition by its enum member name rather than its value is
      flagged when the two differ, as for CALLBK. */
  lemma MemberNameIsFlagged()
    ensures Differs("CALLBK", Value(CALLBK))
  {
    var upper := ToUpper("CALLBK");
    assert TrimStart(upper) == upper by { assert !IsWhitespace(upper[0]); }
    assert TrimEnd(upper) == upper by { assert !IsWhitespace(upper[5]); }
    var value := ToUpper(Value(CALLBK));
    assert |value| == 8;
    assert TrimStart(value) == value by { assert !IsWhitespace(value[0]); }
    assert TrimEnd(value) == value by { assert !IsWhitespace(value[7]); }
  }

  /** An agent who logs a disposition's value in lower case, with blanks
      around it, is not flagged. */
  lemma LowerCasePaddedValueNotFlagged(d: Disposition, ws1: string, ws2: string)
    requires AllWhitespace(ws1) && AllWhitespace(ws2)
    ensures !Differs(ws1 + ToLower(Value(d)) + ws2, Value(d))
  {
    ToUpperOfToLower(Value(d));
    CaseAndPaddingNotFlagged(ToLower(Value(d)), Value(d), ws1, ws2);
  }

  /** The critiques section is drawn exactly when there is at least one. */
  predicate HasFailures(audit: AuditRecord) {
    |audit.failurePoints| > 0
  }

  /** The label after "REF:": the id up to its first '-', upper-cased. */
  function RefLabel(id: string): (tag: string)
    ensures '-' !in tag
    ensures '-' !in id ==> tag == ToUpper(id)
    ensures '-' in id ==> tag == ToUpper(id[..IndexOf(id, '-')])
  {
    var tag := ToUpper(Split(id, '-')[0]);
    assert forall i :: 0 <= i < |tag| ==> tag[i] != '-';
    tag
  }

  /** An empty scorecard field is shown as the placeholder. */
  function ScoreText(content: string): (shown: string)
    ensures shown != ""
    ensures content != "" ==> shown == content
    ensures content == "" ==> shown == NO_DATA
  {
    if content != "" then content else NO_DATA
  }

  /** The sentiment colour, chosen by comparing the sentiment's string. */
  function SentimentClass(sentiment: string): (cls: string)
    ensures sentiment == "Negative" <==> cls == ROSE
    ensures sentiment == "Positive" <==> cls == EMERALD
    ensures sentiment != "Negative" && sentiment != "Positive" <==> cls == AMBER
  {
    if sentiment == "Negative" then ROSE
    else if sentiment == "Positive" then EMERALD
    else AMBER
  }

  /** Each of the three sentiments has its own colour. */
  lemma SentimentColours()
    ensures SentimentClass(SentimentValue(Negative)) == ROSE
    ensures SentimentClass(SentimentValue(Positive)) == EMERALD
    ensures SentimentClass(SentimentValue(Neutral)) == AMBER
  {
  }

  /** The card's one piece of local state: whether the narrative is shown in
      full. */
  class CardView {
    var showFullNarrative: bool

    constructor ()
      ensures !showFullNarrative
    {
      showFullNarrative := false;
    }

    /** The expand/collapse button. */
    method ToggleNarrative()
      modifies this
      ensures showFullNarrative == !old(showFullNarrative)
    {
      showFullNarrative := !showFullNarrative;
    }

    function ButtonLabel(): (caption: string)
      reads this
      ensures showFullNarrative <==> caption == "Collapse"
    {
      if showFullNarrative then "Collapse" else "Expand Details"
    }

    /** The narrative is clamped to three lines while collapsed. */
    predicate Clamped()
      reads this
    {
      !showFullNarrative
    }
  }

  /** Pressing the button twice returns a fresh card to its collapsed state. */
  method ToggleTwiceCollapses() returns (clamped: bool)
    ensures clamped
  {
    var card := new CardView();
    card.ToggleNarrative();
    card.ToggleNarrative();
    clamped := card.Clamped();
  }
}
