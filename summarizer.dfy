/**
 * app/summarizer.py: `summarize_review` always takes its fallback path (the
 * Granite attempt raises before it does anything) and normalises the
 * Ollama reply; `parse_granite_output` reads a Granite completion line by
 * line. Its `try_parse_rating` is `Ratings.ParseFirstNumber`.
 */
module Summarizer {
  import opened Base
  import opened Text
  import opened Ratings
  import opened OllamaHandler
  import opened LineScan

  // ---- summarize_review ----

  /**
   * The fallback of `summarize_review`: the Ollama reply with its rating
   * passed once more through `try_parse_rating(str(...))`, and its summary
   * read back (the key is always present, so the default never applies).
   */
  function SummarizeReview(review: string, service: string -> ApiResponse): (r: OllamaReply)
    ensures r == SummarizeWithOllama(review, service)
  {
    var result := SummarizeWithOllama(review, service);
    ParseRatingStr(result.predictedRating);
    result.(predictedRating := ParseFirstNumber(RatingStr(result.predictedRating)), summary := result.summary)
  }

  // ---- parse_granite_output ----

  const DefaultSummary: string := "Could not extract summary"
  const DefaultRating: string := "N/A"
  const Defaults: Fields := Fields(DefaultSummary, DefaultRating)

  /** The dictionary `parse_granite_output` returns. */
  datatype GraniteOutput = GraniteOutput(summary: string, predictedRating: Rating, engineUsed: string)

  predicate IsSummaryLine(line: string) {
    StartsWith(Lower(line), "summary:")
  }

  predicate IsRatingLine(line: string) {
    Contains(Lower(line), "predicted rating")
  }

  /** A line that the loop reads its value from: one that sets the summary or, failing that, the rating. */
  predicate IsValueLine(line: string) {
    IsSummaryLine(line) || IsRatingLine(line)
  }

  /** The stripped text after a line's first colon. */
  function LineValue(line: string): string
    requires ':' in line
  {
    Strip(AfterColon(line).value)
  }

  /** A summary line sets the summary; otherwise a rating line sets the rating; a value line without a colon raises. */
  function LineAction(line: string): (a: Action)
    ensures a.Raise? <==> IsValueLine(line) && ':' !in line
    ensures a.Keep? <==> !IsValueLine(line)
    ensures a.SetSummary? ==> IsSummaryLine(line) && ':' in line && a.value == LineValue(line)
    ensures a.SetRating? ==> !IsSummaryLine(line) && IsRatingLine(line) && ':' in line && a.value == LineValue(line)
    ensures IsSummaryLine(line) && ':' in line ==> a.SetSummary?
    ensures !IsSummaryLine(line) && IsRatingLine(line) && ':' in line ==> a.SetRating?
  {
    if !IsValueLine(line) then Keep
    else if ':' !in line then Raise
    else if IsSummaryLine(line) then SetSummary(LineValue(line))
    else SetRating(LineValue(line))
  }

  function Actions(lines: seq<string>): (acts: seq<Action>)
    ensures |acts| == |lines|
    ensures forall k :: 0 <= k < |lines| ==> acts[k] == LineAction(lines[k])
  {
    seq(|lines|, k requires 0 <= k < |lines| => LineAction(lines[k]))
  }

  /** `parse_granite_output(output)`; None where it raises IndexError. */
  function GraniteResult(output: string): (r: Option<GraniteOutput>)
    ensures r.Some? ==> r.value.engineUsed == "granite"
  {
    FromActions(Actions(Lines(output, LineBreaks)))
  }

  function FromActions(acts: seq<Action>): (r: Option<GraniteOutput>)
    ensures r.Some? ==> r.value.engineUsed == "granite"
  {
    match Scan(Defaults, acts)
    case None => None
    case Some(f) => Some(GraniteOutput(f.summary, ParseFirstNumber(f.rating), "granite"))
  }

  lemma ActionsSnoc(lines: seq<string>, line: string)
    ensures Actions(lines + [line]) == Actions(lines) + [LineAction(line)]
  {
    var longer := lines + [line];
    forall k | 0 <= k < |longer| ensures Actions(longer)[k] == (Actions(lines) + [LineAction(line)])[k] {
      if k < |lines| {
        assert longer[k] == lines[k];
      }
    }
  }

  /** One more line of input is one more pass of the loop. */
  lemma ScanLinesStep(lines: seq<string>, i: nat)
    requires i < |lines|
    ensures Scan(Defaults, Actions(lines[..i + 1])) ==
              match Scan(Defaults, Actions(lines[..i])) case None => None case Some(f) => Apply(f, LineAction(lines[i]))
  {
    assert lines[..i + 1] == lines[..i] + [lines[i]];
    ActionsSnoc(lines[..i], lines[i]);
    ScanStep(Defaults, Actions(lines[..i]), LineAction(lines[i]));
  }

  /** Once a line has raised, the rest of the loop does not run. */
  lemma {:induction false} RaiseSticks(lines: seq<string>, i: nat)
    requires i <= |lines| && Scan(Defaults, Actions(lines[..i])).None?
    ensures Scan(Defaults, Actions(lines)).None?
    decreases |lines| - i
  {
    if i < |lines| {
      ScanLinesStep(lines, i);
      RaiseSticks(lines, i + 1);
    } else {
      assert lines[..i] == lines;
    }
  }

  method ParseGraniteOutput(output: string) returns (r: Option<GraniteOutput>)
    ensures r == GraniteResult(output)
  {
    var lines := Lines(output, LineBreaks);
    var f := ScanLines(lines);
    r := if f.None? then None else Some(GraniteOutput(f.value.summary, ParseFirstNumber(f.value.rating), "granite"));
  }

  /** One pass of the loop body: the new values of the two variables, or `raised` for the IndexError. */
  method ReadLine(line: string, summary: string, rating: string) returns (raised: bool, summary': string, rating': string)
    ensures raised <==> LineAction(line).Raise?
    ensures !raised ==> Apply(Fields(summary, rating), LineAction(line)) == Some(Fields(summary', rating'))
  {
    raised, summary', rating' := false, summary, rating;
    if IsSummaryLine(line) {
      var v := AfterColon(line);
      if v.None? {
        raised := true;
      } else {
        summary' := Strip(v.value);
      }
    } else if IsRatingLine(line) {
      var v := AfterColon(line);
      if v.None? {
        raised := true;
      } else {
        rating' := Strip(v.value);
      }
    }
  }

  /** The `for line in output.splitlines()` loop of `parse_granite_output`. */
  method ScanLines(lines: seq<string>) returns (r: Option<Fields>)
    ensures r == Scan(Defaults, Actions(lines))
  {
    var summary, rating := DefaultSummary, DefaultRating;
    var i := 0;
    assert lines[..0] == [];
    while i < |lines|
      invariant 0 <= i <= |lines|
      invariant Scan(Defaults, Actions(lines[..i])) == Some(Fields(summary, rating))
    {
      ScanLinesStep(lines, i);
      var raised;
      raised, summary, rating := ReadLine(lines[i], summary, rating);
      if raised {
        RaiseSticks(lines, i + 1);
        return None;
      }
      i := i + 1;
    }
    assert lines[..i] == lines;
    r := Some(Fields(summary, rating));
  }

  /**
   * For output that parses, the summary is the value of the last summary
   * line and the rating is parsed from the value of the last line that sets
   * it (`LineAction` says which lines those are); a field no line sets
   * keeps its default, so an unset rating is "N/A".
   */
  lemma GraniteLastWins(output: string)
    requires GraniteResult(output).Some?
    ensures var acts := Actions(Lines(output, LineBreaks));
            && GraniteResult(output).value.summary ==
                 (match LastSummary(acts) case None => DefaultSummary case Some(j) => acts[j].value)
            && GraniteResult(output).value.predictedRating ==
                 (match LastRating(acts) case None => NotAvailable case Some(j) => ParseFirstNumber(acts[j].value))
  {
    ActionsLastWins(Actions(Lines(output, LineBreaks)));
  }

  /** "N/A" has no digit, so it parses as no rating. */
  lemma DefaultUnrated()
    ensures ParseFirstNumber(DefaultRating) == NotAvailable
  {
    assert !HasDigit(DefaultRating);
  }

  lemma ActionsLastWins(acts: seq<Action>)
    requires FromActions(acts).Some?
    ensures FromActions(acts).value.summary ==
              (match LastSummary(acts) case None => DefaultSummary case Some(j) => acts[j].value)
    ensures FromActions(acts).value.predictedRating ==
              (match LastRating(acts) case None => NotAvailable case Some(j) => ParseFirstNumber(acts[j].value))
  {
    ScanFails(Defaults, acts);
    ScanLastWins(Defaults, acts);
    DefaultUnrated();
  }

  /** `parse_granite_output` raises exactly when a summary or rating line has no colon. */
  lemma GraniteRaises(output: string)
    ensures GraniteResult(output).None? <==>
              exists k :: 0 <= k < |Lines(output, LineBreaks)| && IsValueLine(Lines(output, LineBreaks)[k])
                          && ':' !in Lines(output, LineBreaks)[k]
  {
    var lines := Lines(output, LineBreaks);
    var acts := Actions(lines);
    ScanFails(Defaults, acts);
    if Raise in acts {
      var k :| 0 <= k < |acts| && acts[k] == Raise;
      assert IsValueLine(lines[k]) && ':' !in lines[k];
    }
  }

  /** Output without any value line keeps "Could not extract summary" and rates "N/A". */
  lemma NoValueLinesDefaults(output: string)
    requires forall k :: 0 <= k < |Lines(output, LineBreaks)| ==> !IsValueLine(Lines(output, LineBreaks)[k])
    ensures GraniteResult(output) == Some(GraniteOutput(DefaultSummary, NotAvailable, "granite"))
  {
    var acts := Actions(Lines(output, LineBreaks));
    assert Raise !in acts && LastSummary(acts).None? && LastRating(acts).None?;
    ScanLastWins(Defaults, acts);
    DefaultUnrated();
  }
}
