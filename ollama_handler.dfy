/**
 * app/ollama_handler.py: the reply of the Ollama REST service turned into
 * a result record. The HTTP call itself is a parameter: a function from
 * the prompt to what the call produced (the `response` text, a timeout,
 * or any other failure with its message).
 */
module OllamaHandler {
  import opened Base
  import opened Text
  import opened Ratings

  /** This module's `try_parse_rating`: "N/A" for the empty string, otherwise the first number rounded to tenths. */
  function TryParseRating(value: string): (r: Rating)
    ensures r.NotAvailable? <==> !HasDigit(value)
    ensures value == [] ==> r == NotAvailable
  {
    if value == [] then NotAvailable else ParseFirstNumber(value)
  }

  /** The `if not value` guard changes nothing: both `try_parse_rating` helpers agree on every string. */
  lemma TryParseRatingAgrees(value: string)
    ensures TryParseRating(value) == ParseFirstNumber(value)
  {
    if value == [] {
      assert !HasDigit(value);
    }
  }

  // ---- The regular-expression searches ----

  /** `tag` occurs at `i`, compared case-insensitively (`re.IGNORECASE`; `tag` is lower case). */
  predicate TagAt(s: string, tag: string, i: nat) {
    i + |tag| <= |s| && forall k :: 0 <= k < |tag| ==> LowerChar(s[i + k]) == tag[k]
  }

  /** The first position in [from, n) that satisfies `p`: `re.search` reports the leftmost match. */
  function FirstFrom(p: nat -> bool, from: nat, n: nat): (r: Option<nat>)
    requires from <= n
    ensures r.Some? ==> from <= r.value < n && p(r.value)
    ensures r.Some? ==> forall i :: from <= i < r.value ==> !p(i)
    ensures r.None? ==> forall i :: from <= i < n ==> !p(i)
    decreases n - from
  {
    if from == n then None else if p(from) then Some(from) else FirstFrom(p, from + 1, n)
  }

  /** Index of the first "\n" at or after `j`, or the end of the text. */
  function LineEnd(s: string, j: nat): (e: nat)
    requires j <= |s|
    ensures j <= e <= |s| && (e == |s| || s[e] == '\n')
    ensures forall k :: j <= k < e ==> s[k] != '\n'
    decreases |s| - j
  {
    if j == |s| || s[j] == '\n' then j else LineEnd(s, j + 1)
  }

  const SummaryTag: string := "summary:"
  const RatingTag: string := "predicted rating:"

  /** Where a match of the summary pattern lies: the tag at `tag`, the group in [start, end). */
  datatype Span = Span(tag: nat, start: nat, end: nat)

  /**
   * `m` is the match of `summary:\s*(.+?)(?:\n|$)` under IGNORECASE and
   * DOTALL: the first tag with at least one character after it; `\s*`
   * skips whitespace, newlines included, and the lazy group then runs to
   * the next "\n" or the end. When only whitespace follows the tag, `\s*`
   * gives back the last character and the group is that one character.
   */
  predicate IsSummaryMatch(s: string, m: Span) {
    && TagAt(s, SummaryTag, m.tag)
    && (forall i :: 0 <= i < m.tag ==> !TagAt(s, SummaryTag, i))
    && m.tag + |SummaryTag| < |s|
    && IsSummaryGroup(s, m.tag + |SummaryTag|, m.start, m.end)
  }

  /** [start, end) is where the group of the summary pattern lies when the tag ends at `after`. */
  predicate IsSummaryGroup(s: string, after: nat, start: nat, end: nat) {
    && after <= start < end <= |s|
    && AllSpace(s[after..start])
    && if start == |s| - 1 && end == |s| && IsSpace(s[start]) then true
       else !IsSpace(s[start]) && (forall k :: start <= k < end ==> s[k] != '\n')
            && (end == |s| || s[end] == '\n')
  }

  /** The group after a tag that ends at `after`, with at least one character left. */
  function SummaryGroup(s: string, i: nat): (m: Span)
    requires i + |SummaryTag| < |s|
    ensures m.tag == i && IsSummaryGroup(s, i + |SummaryTag|, m.start, m.end)
  {
    var after := i + |SummaryTag|;
    var w := SpaceRunEnd(s, after);
    if w < |s| then Span(i, w, LineEnd(s, w))
    else
      assert s[after..|s| - 1] == s[after..w][..|s| - 1 - after];
      Span(i, |s| - 1, |s|)
  }

  /** `re.search(r"summary:\s*(.+?)(?:\n|$)", raw, re.IGNORECASE | re.DOTALL)`. */
  function SummarySearch(s: string): (r: Option<Span>)
    ensures r.Some? ==> IsSummaryMatch(s, r.value)
    ensures r.None? <==> forall i :: 0 <= i && i + |SummaryTag| < |s| ==> !TagAt(s, SummaryTag, i)
  {
    var tagged := (i: nat) => TagAt(s, SummaryTag, i);
    assert forall i: nat :: tagged(i) == TagAt(s, SummaryTag, i);
    match FirstFrom(tagged, 0, |s| + 1)
    case None => None
    case Some(i) =>
      if i + |SummaryTag| == |s| then None else Some(SummaryGroup(s, i))
  }

  /** The pattern fixes its match: there is only one span that satisfies it. */
  lemma SummaryMatchUnique(s: string, m1: Span, m2: Span)
    requires IsSummaryMatch(s, m1) && IsSummaryMatch(s, m2)
    ensures m1 == m2
  {
    var after := m1.tag + |SummaryTag|;
    SpaceRunUnique(s, after, m1.start, m2.start);
  }

  /** The group of a summary match is either a last whitespace character or starts at the first non-space after the tag. */
  lemma SpaceRunUnique(s: string, after: nat, a: nat, b: nat)
    requires after <= a < |s| && after <= b < |s|
    requires AllSpace(s[after..a]) && AllSpace(s[after..b])
    requires (a == |s| - 1 && IsSpace(s[a])) || !IsSpace(s[a])
    requires (b == |s| - 1 && IsSpace(s[b])) || !IsSpace(s[b])
    ensures a == b
  {
  }

  /** `summary_match.group(1).strip()`, or "Summary not found". */
  function ExtractSummary(raw: string): (summary: string)
  {
    match SummarySearch(raw)
    case None => "Summary not found"
    case Some(m) => Strip(raw[m.start..m.end])
  }

  /** A found summary is stripped and stays on one line. */
  lemma ExtractedSummaryOneLine(raw: string)
    requires SummarySearch(raw).Some?
    ensures NoEdgeSpace(ExtractSummary(raw)) && '\n' !in ExtractSummary(raw)
  {
    var m := SummarySearch(raw).value;
    var g := raw[m.start..m.end];
    if !(m.start == |raw| - 1 && m.end == |raw| && IsSpace(raw[m.start])) {
      NotInSlice(raw, m.start, m.end, '\n');
      StripKeepsOut(g, '\n');
    }
  }

  predicate IsRatingChar(c: char) {
    IsDigit(c) || c == '.'
  }

  lemma RatingCharNotSpace(c: char)
    requires IsRatingChar(c)
    ensures !IsSpace(c)
  {
  }

  /** End of the `[0-9.]` run that starts at `j`. */
  function RatingRunEnd(s: string, j: nat): (e: nat)
    requires j <= |s|
    ensures j <= e <= |s| && (forall k :: j <= k < e ==> IsRatingChar(s[k]))
    ensures e == |s| || !IsRatingChar(s[e])
    decreases |s| - j
  {
    if j < |s| && IsRatingChar(s[j]) then RatingRunEnd(s, j + 1) else j
  }

  /** The match of `<tag>\s*([0-9.]+)` whose tag is at `i`: after the tag's whitespace comes a digit or a dot. */
  function MatchAt(s: string, tag: string, i: nat): (m: Option<Span>)
    ensures m.Some? ==> TagAt(s, tag, i) && m.value.tag == i
                        && m.value.start == SpaceRunEnd(s, i + |tag|) && m.value.end == RatingRunEnd(s, m.value.start)
                        && m.value.start < m.value.end <= |s|
    ensures m.None? <==> !TagAt(s, tag, i) || SpaceRunEnd(s, i + |tag|) == |s|
                         || !IsRatingChar(s[SpaceRunEnd(s, i + |tag|)])
  {
    if !TagAt(s, tag, i) then None
    else
      var w := SpaceRunEnd(s, i + |tag|);
      if w < |s| && IsRatingChar(s[w]) then Some(Span(i, w, RatingRunEnd(s, w))) else None
  }

  predicate TagMatches(s: string, tag: string, i: nat) {
    MatchAt(s, tag, i).Some?
  }

  /**
   * `re.search(r"<tag>\s*([0-9.]+)", s, re.IGNORECASE)`: the first tag
   * followed, after whitespace, by a digit or a dot; a tag that is not is
   * passed over. The group is the whole `[0-9.]` run.
   */
  function TagSearch(s: string, tag: string): (r: Option<Span>)
    ensures r.Some? ==> r == MatchAt(s, tag, r.value.tag) && forall i :: 0 <= i < r.value.tag ==> !TagMatches(s, tag, i)
    ensures r.None? <==> forall i :: 0 <= i ==> !TagMatches(s, tag, i)
  {
    var matches := (i: nat) => TagMatches(s, tag, i);
    assert forall i: nat :: matches(i) == TagMatches(s, tag, i);
    match FirstFrom(matches, 0, |s| + 1)
    case None => None
    case Some(i) => MatchAt(s, tag, i)
  }

  /** `re.search(r"predicted rating:\s*([0-9.]+)", raw, re.IGNORECASE)`. */
  function RatingSearch(s: string): (r: Option<Span>)
    ensures r.Some? ==> r == MatchAt(s, RatingTag, r.value.tag) && forall i :: 0 <= i < r.value.tag ==> !TagMatches(s, RatingTag, i)
    ensures r.None? <==> forall i :: 0 <= i ==> !TagMatches(s, RatingTag, i)
  {
    TagSearch(s, RatingTag)
  }

  /** `try_parse_rating(rating_match.group(1).strip())`, or `try_parse_rating("N/A")`. */
  function ExtractRating(raw: string): (r: Rating)
    ensures RatingSearch(raw).None? ==> r == NotAvailable
    ensures RatingSearch(raw).Some? ==>
              r == ParseFirstNumber(raw[RatingSearch(raw).value.start..RatingSearch(raw).value.end])
  {
    match RatingSearch(raw)
    case None =>
      assert !HasDigit("N/A");
      TryParseRating("N/A")
    case Some(m) => GroupRating(raw, m.start, m.end)
  }

  /** `try_parse_rating(group.strip())` on a `[0-9.]+` group: neither the strip nor the empty-string guard changes anything. */
  function GroupRating(raw: string, start: nat, end: nat): (r: Rating)
    requires start < end <= |raw| && forall k :: start <= k < end ==> IsRatingChar(raw[k])
    ensures r == ParseFirstNumber(raw[start..end])
  {
    var group := raw[start..end];
    assert group[0] == raw[start] && group[|group| - 1] == raw[end - 1];
    RatingCharNotSpace(raw[start]);
    RatingCharNotSpace(raw[end - 1]);
    StripNoEdge(group);
    TryParseRatingAgrees(group);
    TryParseRating(Strip(group))
  }

  /** A group made only of dots, such as ".", gives "N/A". */
  lemma DotsOnlyRating(raw: string)
    requires RatingSearch(raw).Some?
    requires forall k :: RatingSearch(raw).value.start <= k < RatingSearch(raw).value.end ==> raw[k] == '.'
    ensures ExtractRating(raw) == NotAvailable
  {
    var m := RatingSearch(raw).value;
    DotsHaveNoDigit(raw, m.start, m.end);
  }

  lemma DotsHaveNoDigit(raw: string, start: nat, end: nat)
    requires start <= end <= |raw| && forall k :: start <= k < end ==> raw[k] == '.'
    ensures !HasDigit(raw[start..end])
  {
    var g := raw[start..end];
    forall k | 0 <= k < |g| ensures !IsDigit(g[k]) {
      assert g[k] == raw[start + k];
    }
  }

  // ---- summarize_with_ollama ----

  /** The outcome of the POST to `/api/generate`: `response.json()["response"]`, a timeout, or another error's text. */
  datatype ApiResponse = Generated(raw: string) | TimedOut | Failed(message: string)

  /** The result dictionary: the four keys every branch sets, and `error` when there was one. */
  datatype OllamaReply = OllamaReply(originalReview: string, summary: string, predictedRating: Rating,
                                     engineUsed: string, error: Option<string>)

  const TimedOutSummary: string := "Timed out while generating response from Ollama."
  const ApiErrorSummary: string := "Error from Ollama API."

  /** The prompt sent to the service. */
  const PromptHead: string := "\nSummarize the following customer review and predict a star rating (1\U{2013}5):\n\nReview: \""
  const PromptTail: string := "\"\n\nRespond in this format:\nSummary: <summary>\nPredicted Rating: <1\U{2013}5>\n"

  function OllamaPrompt(review: string): string {
    PromptHead + review + PromptTail
  }

  /** `summarize_with_ollama(review)`, with `service` standing for the HTTP call. */
  function SummarizeWithOllama(review: string, service: string -> ApiResponse): (r: OllamaReply)
    ensures r.originalReview == review && r.engineUsed == "ollama"
    ensures r.error.Some? <==> service(OllamaPrompt(review)).Failed?
    ensures service(OllamaPrompt(review)).TimedOut? ==> r.summary == TimedOutSummary && r.predictedRating == NotAvailable
    ensures service(OllamaPrompt(review)).Failed? ==>
              r.summary == ApiErrorSummary && r.predictedRating == NotAvailable
              && r.error == Some(service(OllamaPrompt(review)).message)
    ensures service(OllamaPrompt(review)).Generated? ==>
              r.summary == ExtractSummary(service(OllamaPrompt(review)).raw)
              && r.predictedRating == ExtractRating(service(OllamaPrompt(review)).raw)
  {
    match service(OllamaPrompt(review))
    case Generated(raw) => OllamaReply(review, ExtractSummary(raw), ExtractRating(raw), "ollama", None)
    case TimedOut => OllamaReply(review, TimedOutSummary, NotAvailable, "ollama", None)
    case Failed(message) => OllamaReply(review, ApiErrorSummary, NotAvailable, "ollama", Some(message))
  }

  /** The service output alone decides the reply, apart from the echoed review. */
  lemma ReplyDependsOnOutput(review: string, s1: string -> ApiResponse, s2: string -> ApiResponse)
    requires s1(OllamaPrompt(review)) == s2(OllamaPrompt(review))
    ensures SummarizeWithOllama(review, s1) == SummarizeWithOllama(review, s2)
  {
  }
}
