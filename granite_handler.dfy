/**
 * app/granite_handler.py: `summarize_and_rate_with_granite` asks the local
 * Granite model for a completion, removes the echoed prompt, and reads the
 * summary and the rating from the lines of what is left. Tokenising,
 * generating and decoding are one parameter: a function from the prompt
 * to the decoded text, or to the message of the exception they raised.
 */
module GraniteHandler {
  import opened Base
  import opened Text
  import opened LineScan

  /** The outcome of `tokenizer(...)`, `model.generate(...)` and `tokenizer.decode(...)`. */
  datatype Inference = Decoded(text: string) | InferenceError(message: string)

  /** The result dictionary; the rating stays the raw text of its line. */
  datatype GraniteReply = GraniteReply(originalReview: string, summary: string, predictedRating: string,
                                       error: Option<string>)

  const NotFoundSummary: string := "Summary not found."
  const NoRating: string := "N/A"
  const Defaults: Fields := Fields(NotFoundSummary, NoRating)
  const ErrorSummary: string := "Error occurred."
  /** `str(e)` of the IndexError that `line.split(":", 1)[1]` raises. */
  const IndexErrorText: string := "list index out of range"

  const EnDash: char := '\U{2013}'
  // "\nYou" is a separate literal so that the verifier can read off the prompt's first letters.
  const PromptOpening: string := "\nYou" + " are an AI assistant that summarizes customer reviews and predicts a star rating (1"
  const PromptHead: string := PromptOpening + [EnDash] + "5).\n\nReview: \""
  const PromptTail: string :=
    "\"\n\nGive your response in this format:\nSummary: <summary here>\nPredicted Rating: <1" + [EnDash] + "5>\n"

  function GranitePrompt(review: string): string {
    PromptHead + review + PromptTail
  }

  /** `prompt.strip()` is never empty, so `replace` has something to remove. */
  lemma StrippedPromptNonEmpty(review: string)
    ensures Strip(GranitePrompt(review)) != []
  {
    assert GranitePrompt(review)[1] == 'Y';
  }

  /** `decoded.replace(prompt.strip(), "").strip()`. */
  function Generated(review: string, decoded: string): string {
    StrippedPromptNonEmpty(review);
    Strip(RemoveAll(decoded, Strip(GranitePrompt(review))))
  }

  /** A completion that starts with the echoed prompt loses it. */
  lemma EchoRemoved(review: string, rest: string)
    ensures Generated(review, Strip(GranitePrompt(review)) + rest) == Generated(review, rest)
  {
    StrippedPromptNonEmpty(review);
    RemoveAllPrefix(Strip(GranitePrompt(review)), rest);
  }

  /** `"summary" in line.lower()`. */
  predicate MentionsSummary(line: string) {
    Contains(Lower(line), "summary")
  }

  /** `"rating" in line.lower()`. */
  predicate MentionsRating(line: string) {
    Contains(Lower(line), "rating")
  }

  /** The stripped text after a line's first colon. */
  function LineValue(line: string): string
    requires ':' in line
  {
    Strip(AfterColon(line).value)
  }

  /** A line mentioning "summary" sets the summary; otherwise one mentioning "rating" sets the rating. */
  function LineAction(line: string): (a: Action)
    ensures a.Raise? <==> (MentionsSummary(line) || MentionsRating(line)) && ':' !in line
    ensures a.Keep? <==> !MentionsSummary(line) && !MentionsRating(line)
    ensures a.SetSummary? ==> MentionsSummary(line) && ':' in line && a.value == LineValue(line)
    ensures a.SetRating? ==> !MentionsSummary(line) && MentionsRating(line) && ':' in line && a.value == LineValue(line)
    ensures MentionsSummary(line) && ':' in line ==> a.SetSummary?
    ensures !MentionsSummary(line) && MentionsRating(line) && ':' in line ==> a.SetRating?
  {
    if !MentionsSummary(line) && !MentionsRating(line) then Keep
    else if ':' !in line then Raise
    else if MentionsSummary(line) then SetSummary(LineValue(line))
    else SetRating(LineValue(line))
  }

  function Actions(lines: seq<string>): (acts: seq<Action>)
    ensures |acts| == |lines|
    ensures forall k :: 0 <= k < |lines| ==> acts[k] == LineAction(lines[k])
  {
    seq(|lines|, k requires 0 <= k < |lines| => LineAction(lines[k]))
  }

  lemma ActionsSnoc(lines: seq<string>, line: string)
    ensures Actions(lines + [line]) == Actions(lines) + [LineAction(line)]
  {
    var longer := lines + [line];
    forall k | 0 <= k < |longer| ensures Actions(longer)[k] == (Actions(lines) + [LineAction(line)])[k] {
      if k < |lines| {
        assert longer[k] == lines[k];
      }
    }
  }

  /** The lines of the completion, as `generated.split("\n")` gives them. */
  function GeneratedLines(review: string, decoded: string): seq<string> {
    Split(Generated(review, decoded), '\n')
  }

  /** The reply, given the service outcome and the scan of the completion's lines. */
  function Reply(review: string, scanned: Option<Fields>): GraniteReply {
    match scanned
    case None => GraniteReply(review, ErrorSummary, NoRating, Some(IndexErrorText))
    case Some(f) => GraniteReply(review, f.summary, f.rating, None)
  }

  /** `summarize_and_rate_with_granite(review)`, with `model` standing for the inference. */
  function GraniteSpec(review: string, model: string -> Inference): GraniteReply {
    match model(GranitePrompt(review))
    case InferenceError(message) => GraniteReply(review, ErrorSummary, NoRating, Some(message))
    case Decoded(decoded) => Reply(review, Scan(Defaults, Actions(GeneratedLines(review, decoded))))
  }

  lemma ScanLinesStep(lines: seq<string>, i: nat)
    requires i < |lines|
    ensures Scan(Defaults, Actions(lines[..i + 1])) ==
              match Scan(Defaults, Actions(lines[..i])) case None => None case Some(f) => Apply(f, LineAction(lines[i]))
  {
    assert lines[..i + 1] == lines[..i] + [lines[i]];
    ActionsSnoc(lines[..i], lines[i]);
    ScanStep(Defaults, Actions(lines[..i]), LineAction(lines[i]));
  }

  lemma {:induction false} RaiseSticks(lines: seq<string>, i: nat)
    requires i <= |lines| && Scan(Defaults, Actions(lines[..i])).None?
    ensures Scan(Defaults, Actions(lines)).None?
    decreases |lines| - i
  {
    if i < |lines| {
      ScanLinesStep(lines, i);
      RaiseSticks(lines, i + 1);
    } else {
      assert lines[..i] == lines;
    }
  }

  /** One pass of the loop body: the new values of the two variables, or `raised` for the IndexError. */
  method ReadLine(line: string, summaryLine: string, ratingLine: string) returns (raised: bool, summaryLine': string, ratingLine': string)
    ensures raised <==> LineAction(line).Raise?
    ensures !raised ==> Apply(Fields(summaryLine, ratingLine), LineAction(line)) == Some(Fields(summaryLine', ratingLine'))
  {
    raised, summaryLine', ratingLine' := false, summaryLine, ratingLine;
    if MentionsSummary(line) {
      var v := AfterColon(line);
      if v.None? {
        raised := true;
      } else {
        summaryLine' := Strip(v.value);
      }
    } else if MentionsRating(line) {
      var v := AfterColon(line);
      if v.None? {
        raised := true;
      } else {
        ratingLine' := Strip(v.value);
      }
    }
  }

  /** The `for line in generated.split("\n")` loop; None where a line raises IndexError. */
  method ScanLines(lines: seq<string>) returns (r: Option<Fields>)
    ensures r == Scan(Defaults, Actions(lines))
  {
    var summaryLine, ratingLine := NotFoundSummary, NoRating;
    var i := 0;
    assert lines[..0] == [];
    while i < |lines|
      invariant 0 <= i <= |lines|
      invariant Scan(Defaults, Actions(lines[..i])) == Some(Fields(summaryLine, ratingLine))
    {
      ScanLinesStep(lines, i);
      var raised;
      raised, summaryLine, ratingLine := ReadLine(lines[i], summaryLine, ratingLine);
      if raised {
        RaiseSticks(lines, i + 1);
        return None;
      }
      i := i + 1;
    }
    assert lines[..i] == lines;
    r := Some(Fields(summaryLine, ratingLine));
  }

  method SummarizeAndRateWithGranite(review: string, model: string -> Inference) returns (r: GraniteReply)
    ensures r == GraniteSpec(review, model)
  {
    var prompt := GranitePrompt(review);
    match model(prompt)
    case InferenceError(message) =>
      r := GraniteReply(review, ErrorSummary, NoRating, Some(message));
    case Decoded(decoded) =>
      StrippedPromptNonEmpty(review);
      var generated := Strip(RemoveAll(decoded, Strip(prompt)));
      var scanned := ScanLines(Split(generated, '\n'));
      match scanned
      case None =>
        r := GraniteReply(review, ErrorSummary, NoRating, Some(IndexErrorText));
      case Some(f) =>
        r := GraniteReply(review, f.summary, f.rating, None);
  }

  // ---- What the reply promises ----

  /** Every reply echoes the review. */
  lemma ReviewEchoed(review: string, model: string -> Inference)
    ensures GraniteSpec(review, model).originalReview == review
  {
  }

  /**
   * The reply carries an error exactly when inference raised or a line that
   * mentions "summary" or "rating" has no colon; then the summary is
   * "Error occurred." and the rating "N/A".
   */
  lemma ErrorReply(review: string, model: string -> Inference)
    ensures GraniteSpec(review, model).error.Some? <==>
              model(GranitePrompt(review)).InferenceError?
              || (exists k :: 0 <= k < |GeneratedLines(review, model(GranitePrompt(review)).text)|
                              && LineAction(GeneratedLines(review, model(GranitePrompt(review)).text)[k]) == Raise)
    ensures GraniteSpec(review, model).error.Some? ==>
              GraniteSpec(review, model).summary == ErrorSummary && GraniteSpec(review, model).predictedRating == NoRating
  {
    var outcome := model(GranitePrompt(review));
    if outcome.Decoded? {
      var lines := GeneratedLines(review, outcome.text);
      ScanFails(Defaults, Actions(lines));
      RaiseInActions(lines);
    }
  }

  lemma RaiseInActions(lines: seq<string>)
    ensures Raise in Actions(lines) <==> exists k :: 0 <= k < |lines| && LineAction(lines[k]) == Raise
  {
    var acts := Actions(lines);
    if Raise in acts {
      var k :| 0 <= k < |acts| && acts[k] == Raise;
      assert LineAction(lines[k]) == Raise;
    }
  }

  /**
   * Without an error, the summary is the value of the last line that
   * mentions "summary" and the rating the value of the last line that
   * mentions "rating" but not "summary"; with no such line, "Summary not
   * found." and "N/A" stay.
   */
  lemma LastLineWins(review: string, model: string -> Inference)
    requires GraniteSpec(review, model).error.None?
    ensures model(GranitePrompt(review)).Decoded?
    ensures var acts := Actions(GeneratedLines(review, model(GranitePrompt(review)).text));
            && GraniteSpec(review, model).summary ==
                 (match LastSummary(acts) case None => NotFoundSummary case Some(j) => acts[j].value)
            && GraniteSpec(review, model).predictedRating ==
                 (match LastRating(acts) case None => NoRating case Some(j) => acts[j].value)
  {
    var acts := Actions(GeneratedLines(review, model(GranitePrompt(review)).text));
    ScanFails(Defaults, acts);
    ScanLastWins(Defaults, acts);
  }
}
