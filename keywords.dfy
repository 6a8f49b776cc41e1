/**
 * The keyword rules `receive_message` applies to a reply from a known
 * professional. "ACCEPT" and "COMPLETE" are searched for in the upper-cased,
 * stripped text; the Hebrew phrases are searched for in the raw text. The
 * accept rule is tried first.
 */
module Keywords {
  import opened Text

  const AcceptToken := "ACCEPT"
  const CompleteToken := "COMPLETE"
  /** "mekabel", I accept. */
  const AcceptPhrase := "\U{5DE}\U{5E7}\U{5D1}\U{5DC}"
  /** "maskim", I agree. */
  const AgreePhrase := "\U{5DE}\U{5E1}\U{5DB}\U{5D9}\U{5DD}"
  /** "histayem", it is over. */
  const FinishedPhrase := "\U{5D4}\U{5E1}\U{5EA}\U{5D9}\U{5D9}\U{5DD}"
  /** "siyamti", I have finished. */
  const DonePhrase := "\U{5E1}\U{5D9}\U{5D9}\U{5DE}\U{5EA}\U{5D9}"

  datatype Keyword = AcceptKeyword | CompleteKeyword | NoKeyword

  /** The accept test of the source, as the code computes it. */
  predicate AcceptTest(text: string) {
    Contains(Strip(Upper(text)), AcceptToken) || Contains(text, AcceptPhrase) || Contains(text, AgreePhrase)
  }

  /** The complete test of the source, as the code computes it. */
  predicate CompleteTest(text: string) {
    Contains(Strip(Upper(text)), CompleteToken) || Contains(text, FinishedPhrase) || Contains(text, DonePhrase)
  }

  /** What the accept test means: "accept" in any case, or one of the two Hebrew phrases. */
  ghost predicate SaysAccept(text: string) {
    Occurs(Upper(text), AcceptToken) || Occurs(text, AcceptPhrase) || Occurs(text, AgreePhrase)
  }

  /** What the complete test means: "complete" in any case, or one of the two Hebrew phrases. */
  ghost predicate SaysComplete(text: string) {
    Occurs(Upper(text), CompleteToken) || Occurs(text, FinishedPhrase) || Occurs(text, DonePhrase)
  }

  /** The tests are the substring conditions they stand for; the strip changes nothing. */
  lemma TestsMeanOccurrence(text: string)
    ensures AcceptTest(text) <==> SaysAccept(text)
    ensures CompleteTest(text) <==> SaysComplete(text)
  {
    TokenTestMeansOccurrence(text, AcceptToken);
    TokenTestMeansOccurrence(text, CompleteToken);
    ContainsIsOccurs(text, AcceptPhrase);
    ContainsIsOccurs(text, AgreePhrase);
    ContainsIsOccurs(text, FinishedPhrase);
    ContainsIsOccurs(text, DonePhrase);
  }

  /** Searching the stripped, upper-cased text finds a token exactly when the upper-cased text has it. */
  lemma TokenTestMeansOccurrence(text: string, token: string)
    requires |token| > 0 && NoSpace(token)
    ensures Contains(Strip(Upper(text)), token) <==> Occurs(Upper(text), token)
  {
    ContainsIsOccurs(Strip(Upper(text)), token);
    StripKeepsOccurrences(Upper(text), token);
  }

  /**
   * The first rule that matches wins: accept, then complete, then neither.
   */
  function Classify(text: string): Keyword {
    if AcceptTest(text) then AcceptKeyword
    else if CompleteTest(text) then CompleteKeyword
    else NoKeyword
  }

  /** What the classification means, rule by rule, in precedence order. */
  lemma ClassifyMeaning(text: string)
    ensures Classify(text) == AcceptKeyword <==> SaysAccept(text)
    ensures Classify(text) == CompleteKeyword <==> !SaysAccept(text) && SaysComplete(text)
    ensures Classify(text) == NoKeyword <==> !SaysAccept(text) && !SaysComplete(text)
  {
    TestsMeanOccurrence(text);
  }

  /** Case does not matter: two texts that agree once upper-cased are classified alike. */
  lemma ClassifyIgnoresCase(s: string, t: string)
    requires Upper(s) == Upper(t)
    ensures Classify(s) == Classify(t)
  {
    ClassifyMeaning(s);
    ClassifyMeaning(t);
    SaysAcceptIgnoresCase(s, t);
    SaysCompleteIgnoresCase(s, t);
  }

  lemma SaysAcceptIgnoresCase(s: string, t: string)
    requires Upper(s) == Upper(t)
    ensures SaysAccept(s) == SaysAccept(t)
  {
    NonAsciiOccurrenceIgnoresCase(s, t, AcceptPhrase);
    NonAsciiOccurrenceIgnoresCase(t, s, AcceptPhrase);
    NonAsciiOccurrenceIgnoresCase(s, t, AgreePhrase);
    NonAsciiOccurrenceIgnoresCase(t, s, AgreePhrase);
  }

  lemma SaysCompleteIgnoresCase(s: string, t: string)
    requires Upper(s) == Upper(t)
    ensures SaysComplete(s) == SaysComplete(t)
  {
    NonAsciiOccurrenceIgnoresCase(s, t, FinishedPhrase);
    NonAsciiOccurrenceIgnoresCase(t, s, FinishedPhrase);
    NonAsciiOccurrenceIgnoresCase(s, t, DonePhrase);
    NonAsciiOccurrenceIgnoresCase(t, s, DonePhrase);
  }
}
