/**
 * app/main.py: the two summarisation endpoints. The sentiment service,
 * the Ollama service and the value of `str(date.today())` are parameters;
 * the upload reaches the model as its UTF-8 decoding.
 */
module App {
  import opened Base
  import opened Text
  import opened Ratings
  import opened OllamaHandler
  import opened Summarizer
  import opened FileUpload
  import opened InputHandler

  /** U+2B50, the star that `rating_stars` repeats. */
  const Star: char := '\U{2B50}'

  /**
   * Python's `round` of the rating `tenths / 10` to an integer: the
   * nearest integer, and the even one of two equally near.
   */
  function RoundHalfEven(tenths: nat): (n: nat)
    ensures 10 * n - 5 <= tenths <= 10 * n + 5
    ensures tenths % 10 != 5 ==> 10 * n - 5 < tenths < 10 * n + 5
    ensures tenths % 10 == 5 ==> n % 2 == 0
  {
    HalfEven(tenths / 10, tenths % 10, 10)
  }

  /** Why a request failed, before it is turned into an HTTPException. */
  datatype Fault = Unrounded | Parse(error: ParseError) | NoParsedReviews

  /** `"⭐" * int(round(rating))`; `round("N/A")` raises TypeError. */
  function Stars(rating: Rating): (r: Result<string, Fault>)
    ensures r.Failure? <==> rating.NotAvailable?
    ensures r.Failure? ==> r.error == Unrounded
    ensures r.Success? ==> |r.value| == RoundHalfEven(rating.tenths) && forall k :: 0 <= k < |r.value| ==> r.value[k] == Star
  {
    match rating
    case NotAvailable => Failure(Unrounded)
    case Score(t) => Success(Repeat(Star, RoundHalfEven(t)))
  }

  /** A rating of 4.5 gets four stars, 3.5 and 4.4 get four as well. */
  lemma HalfRoundsToEven()
    ensures RoundHalfEven(45) == 4 && RoundHalfEven(35) == 4 && RoundHalfEven(44) == 4 && RoundHalfEven(46) == 5
  {
  }

  // ---- POST /summarize ----

  const SummarizationFailed: string := "Summarization failed."

  /** The response of `summarize_text`. */
  datatype Summary = Summary(originalReview: string, summary: string, predictedRating: Rating,
                             sentiment: string, ratingStars: string)

  /** What `summarize_text` builds from the validated review. */
  function SingleSummary(cleaned: string, sentiment: string -> string, service: string -> ApiResponse): (r: Result<Summary, Fault>)
    ensures r.Failure? <==> SummarizeWithOllama(cleaned, service).predictedRating.NotAvailable?
    ensures r.Success? ==>
              && r.value.originalReview == cleaned
              && r.value.summary == SummarizeWithOllama(cleaned, service).summary
              && r.value.predictedRating == SummarizeWithOllama(cleaned, service).predictedRating
              && r.value.sentiment == sentiment(cleaned)
              && Stars(r.value.predictedRating) == Success(r.value.ratingStars)
  {
    var polarity := sentiment(cleaned);
    var result := SummarizeReview(cleaned, service);
    match Stars(result.predictedRating)
    case Failure(f) => Failure(f)
    case Success(stars) => Success(Summary(cleaned, result.summary, result.predictedRating, polarity, stars))
  }

  /**
   * `summarize_text(review)`: every failure, the validation 400 included,
   * becomes a 500 "Summarization failed."; a review that is only
   * whitespace fails, and so does one the service cannot rate.
   */
  function SummarizeText(review: string, sentiment: string -> string, service: string -> ApiResponse): (r: Result<Summary, HttpError>)
    ensures r.Failure? ==> r.error == HttpError(500, SummarizationFailed)
    ensures r.Failure? <==> AllSpace(review) || SummarizeWithOllama(Strip(review), service).predictedRating.NotAvailable?
    ensures r.Success? ==>
              && r.value.originalReview == Strip(review)
              && r.value.summary == SummarizeWithOllama(Strip(review), service).summary
              && r.value.predictedRating == SummarizeWithOllama(Strip(review), service).predictedRating
              && r.value.sentiment == sentiment(Strip(review))
              && Stars(r.value.predictedRating) == Success(r.value.ratingStars)
  {
    match ValidateSingleReview(review)
    case Failure(_) => Failure(HttpError(500, SummarizationFailed))
    case Success(cleaned) =>
      assert cleaned == Strip(review) && !AllSpace(review);
      match SingleSummary(cleaned, sentiment, service)
      case Failure(_) => Failure(HttpError(500, SummarizationFailed))
      case Success(s) => Success(s)
  }

  /** What the sentiment service answers, "error" included, never decides whether the request succeeds. */
  lemma SentimentNeverFailsSingle(review: string, s1: string -> string, s2: string -> string, service: string -> ApiResponse)
    ensures SummarizeText(review, s1, service).Success? == SummarizeText(review, s2, service).Success?
  {
  }

  // ---- POST /upload/summarize_all ----

  /** One element of `data`, with the six keys of the output file. */
  datatype Row = Row(originalReview: string, summary: string, predictedRating: Rating, ratingStars: string,
                     sentiment: string, date: string)

  /** The columns of output/summaries.csv, in the order `DictWriter` writes them. */
  const OutputColumns: seq<string> := ["original_review", "summary", "predicted_rating", "rating_stars", "sentiment", "date"]

  /** The JSON response: "success", `total_reviews` and `data`. */
  datatype Batch = Batch(status: string, totalReviews: nat, data: seq<Row>)

  const BatchPrefix: string := "Batch summarization failed: "
  /** `str()` of the TypeError that `round` raises on the string "N/A". */
  const RoundError: string := "type str doesn't define __round__ method"
  const NoParsedReviewsText: string := "No valid reviews found in the uploaded file."

  /** `str(e)` of the exception behind a fault. */
  function FaultText(f: Fault): string {
    match f
    case Unrounded => RoundError
    case Parse(e) => Message(e)
    case NoParsedReviews => NoParsedReviewsText
  }

  /** The HTTPException of the batch endpoint. */
  function BatchError(f: Fault): (e: HttpError)
    ensures e.status == 500 && e.detail == BatchPrefix + FaultText(f)
  {
    HttpError(500, BatchPrefix + FaultText(f))
  }

  /** The date of an entry: `str(date.today())` when it is empty or whitespace, otherwise the value unchanged. */
  function EntryDate(date: string, today: string): (d: string)
    ensures AllSpace(date) ==> d == today
    ensures !AllSpace(date) ==> d == date
  {
    if date == [] || Strip(date) == [] then today else date
  }

  /** One pass of the loop: the row for a record, or the TypeError of its unrated summary. */
  function EntryRow(rec: Record, today: string, sentiment: string -> string, service: string -> ApiResponse): (r: Result<Row, Fault>)
    ensures r.Failure? <==> SummarizeWithOllama(rec.review, service).predictedRating.NotAvailable?
    ensures r.Failure? ==> r.error == Unrounded
    ensures r.Success? ==> r.value.originalReview == rec.review && r.value.date == EntryDate(rec.date, today)
                           && r.value.sentiment == sentiment(rec.review)
                           && r.value.summary == SummarizeWithOllama(rec.review, service).summary
                           && r.value.predictedRating == SummarizeWithOllama(rec.review, service).predictedRating
                           && Stars(r.value.predictedRating) == Success(r.value.ratingStars)
  {
    var date := EntryDate(rec.date, today);
    var polarity := sentiment(rec.review);
    var result := SummarizeReview(rec.review, service);
    match Stars(result.predictedRating)
    case Failure(f) => Failure(f)
    case Success(stars) => Success(Row(rec.review, result.summary, result.predictedRating, stars, polarity, date))
  }

  function EntryRows(recs: seq<Record>, today: string, sentiment: string -> string, service: string -> ApiResponse): (outs: seq<Result<Row, Fault>>)
    ensures |outs| == |recs|
    ensures forall k :: 0 <= k < |recs| ==> outs[k] == EntryRow(recs[k], today, sentiment, service)
  {
    seq(|recs|, k requires 0 <= k < |recs| => EntryRow(recs[k], today, sentiment, service))
  }

  /** The rows in order, or the first row's failure: the loop stops at the first exception. */
  function Gather(outs: seq<Result<Row, Fault>>): Result<seq<Row>, Fault> {
    if outs == [] then Success([])
    else
      match Gather(outs[..|outs| - 1])
      case Failure(f) => Failure(f)
      case Success(rows) =>
        match outs[|outs| - 1]
        case Failure(f) => Failure(f)
        case Success(row) => Success(rows + [row])
  }

  lemma GatherStep(outs: seq<Result<Row, Fault>>, row: Result<Row, Fault>)
    ensures Gather(outs + [row]) ==
            match Gather(outs)
            case Failure(f) => Failure(f)
            case Success(rows) =>
              match row
              case Failure(f) => Failure(f)
              case Success(r) => Success(rows + [r])
  {
    assert (outs + [row])[..|outs|] == outs;
  }

  lemma EntryRowsSnoc(recs: seq<Record>, rec: Record, today: string, sentiment: string -> string, service: string -> ApiResponse)
    ensures EntryRows(recs + [rec], today, sentiment, service) ==
              EntryRows(recs, today, sentiment, service) + [EntryRow(rec, today, sentiment, service)]
  {
    var all := recs + [rec];
    assert forall k :: 0 <= k < |recs| ==> all[k] == recs[k];
    assert all[|recs|] == rec;
  }

  /** One more entry is one more pass of the loop. */
  lemma EntriesStep(recs: seq<Record>, i: nat, today: string, sentiment: string -> string, service: string -> ApiResponse)
    requires i < |recs|
    ensures Gather(EntryRows(recs[..i + 1], today, sentiment, service)) ==
            match Gather(EntryRows(recs[..i], today, sentiment, service))
            case Failure(f) => Failure(f)
            case Success(rows) =>
              match EntryRow(recs[i], today, sentiment, service)
              case Failure(f) => Failure(f)
              case Success(r) => Success(rows + [r])
  {
    assert recs[..i + 1] == recs[..i] + [recs[i]];
    EntryRowsSnoc(recs[..i], recs[i], today, sentiment, service);
    GatherStep(EntryRows(recs[..i], today, sentiment, service), EntryRow(recs[i], today, sentiment, service));
  }

  lemma {:induction false} FailureSticks(recs: seq<Record>, i: nat, today: string, sentiment: string -> string,
                                         service: string -> ApiResponse)
    requires i <= |recs| && Gather(EntryRows(recs[..i], today, sentiment, service)).Failure?
    ensures Gather(EntryRows(recs, today, sentiment, service)) == Gather(EntryRows(recs[..i], today, sentiment, service))
    decreases |recs| - i
  {
    if i < |recs| {
      EntriesStep(recs, i, today, sentiment, service);
      FailureSticks(recs, i + 1, today, sentiment, service);
    } else {
      assert recs[..i] == recs;
    }
  }

  /** The batch response for the parsed records. */
  function BatchOf(recs: seq<Record>, today: string, sentiment: string -> string, service: string -> ApiResponse): Result<Batch, Fault> {
    if recs == [] then Failure(NoParsedReviews)
    else
      match Gather(EntryRows(recs, today, sentiment, service))
      case Failure(f) => Failure(f)
      case Success(rows) => Success(Batch("success", |rows|, rows))
  }

  /** `summarize_all_reviews(file)`, on the upload's UTF-8 decoding. */
  function SummarizeAll(decoded: Option<string>, today: string, sentiment: string -> string, service: string -> ApiResponse): Result<Batch, HttpError> {
    match ParseCsv(decoded)
    case Failure(e) => Failure(BatchError(Parse(e)))
    case Success(recs) =>
      match BatchOf(recs, today, sentiment, service)
      case Failure(f) => Failure(BatchError(f))
      case Success(b) => Success(b)
  }

  method SummarizeAllReviews(decoded: Option<string>, today: string, sentiment: string -> string, service: string -> ApiResponse)
    returns (r: Result<Batch, HttpError>)
    ensures r == SummarizeAll(decoded, today, sentiment, service)
  {
    var parsed := SaveAndParseCsv(decoded);
    if parsed.Failure? {
      return Failure(BatchError(Parse(parsed.error)));
    }
    var parsedReviews := parsed.value;
    if parsedReviews == [] {
      return Failure(BatchError(NoParsedReviews));
    }
    var result := SummarizeEntries(parsedReviews, today, sentiment, service);
    if result.Failure? {
      return Failure(BatchError(result.error));
    }
    r := Success(Batch("success", |result.value|, result.value));
  }

  /** The `for i, entry in enumerate(parsed_reviews, start=1)` loop, appending to `result`. */
  method SummarizeEntries(parsedReviews: seq<Record>, today: string, sentiment: string -> string, service: string -> ApiResponse)
    returns (r: Result<seq<Row>, Fault>)
    ensures r == Gather(EntryRows(parsedReviews, today, sentiment, service))
  {
    var result: seq<Row> := [];
    var i := 0;
    assert parsedReviews[..0] == [];
    while i < |parsedReviews|
      invariant 0 <= i <= |parsedReviews|
      invariant Gather(EntryRows(parsedReviews[..i], today, sentiment, service)) == Success(result)
    {
      EntriesStep(parsedReviews, i, today, sentiment, service);
      var row := SummarizeEntry(parsedReviews[i], today, sentiment, service);
      if row.Failure? {
        FailureSticks(parsedReviews, i + 1, today, sentiment, service);
        return Failure(row.error);
      }
      result := result + [row.value];
      i := i + 1;
    }
    assert parsedReviews[..i] == parsedReviews;
    r := Success(result);
  }

  /** The loop body for one entry: its date, its sentiment, its summary, and the row or the TypeError. */
  method SummarizeEntry(entry: Record, today: string, sentiment: string -> string, service: string -> ApiResponse)
    returns (r: Result<Row, Fault>)
    ensures r == EntryRow(entry, today, sentiment, service)
  {
    var review := entry.review;
    var reviewDate := entry.date;
    if reviewDate == [] || Strip(reviewDate) == [] {
      reviewDate := today;
    }
    var polarity := sentiment(review);
    var granite := SummarizeReview(review, service);
    var stars := Stars(granite.predictedRating);
    if stars.Failure? {
      return Failure(stars.error);
    }
    r := Success(Row(review, granite.summary, granite.predictedRating, stars.value, polarity, reviewDate));
  }

  // ---- What the batch promises ----

  /** Without a failure, the gathered rows are the successful outcomes, one per record, in order. */
  lemma {:induction false} GatherAll(outs: seq<Result<Row, Fault>>)
    requires Gather(outs).Success?
    ensures |Gather(outs).value| == |outs|
    ensures forall k :: 0 <= k < |outs| ==> outs[k].Success? && Gather(outs).value[k] == outs[k].value
  {
    if outs != [] {
      var init := outs[..|outs| - 1];
      GatherAll(init);
      assert forall k :: 0 <= k < |init| ==> init[k] == outs[k];
    }
  }

  /** Gathering fails exactly when some outcome does. */
  lemma {:induction false} GatherFails(outs: seq<Result<Row, Fault>>)
    ensures Gather(outs).Failure? <==> exists k :: 0 <= k < |outs| && outs[k].Failure?
  {
    if outs != [] {
      var init := outs[..|outs| - 1];
      GatherFails(init);
      assert forall k :: 0 <= k < |init| ==> init[k] == outs[k];
    }
  }

  /**
   * A successful batch has one row per parsed record, in record order,
   * echoing each review with its sentiment, the Ollama summary and rating
   * and the stars of that rating; `total_reviews` is the row count; and
   * since parsed dates are never blank, each row keeps its record's date.
   */
  lemma BatchFollowsRecords(decoded: Option<string>, today: string, sentiment: string -> string, service: string -> ApiResponse)
    requires SummarizeAll(decoded, today, sentiment, service).Success?
    ensures ParseCsv(decoded).Success?
    ensures var recs := ParseCsv(decoded).value;
            var b := SummarizeAll(decoded, today, sentiment, service).value;
            && b.status == "success" && b.totalReviews == |b.data| == |recs|
            && forall k :: 0 <= k < |recs| ==>
                 b.data[k].originalReview == recs[k].review && b.data[k].date == recs[k].date
                 && b.data[k].sentiment == sentiment(recs[k].review)
                 && b.data[k].summary == SummarizeWithOllama(recs[k].review, service).summary
                 && b.data[k].predictedRating == SummarizeWithOllama(recs[k].review, service).predictedRating
                 && Stars(b.data[k].predictedRating) == Success(b.data[k].ratingStars)
  {
    ParsedRecordsWellFormed(decoded);
    RowsFollowRecords(ParseCsv(decoded).value, today, sentiment, service);
  }

  /** `BatchFollowsRecords` for well-formed records, before parsing is in the picture. */
  lemma RowsFollowRecords(recs: seq<Record>, today: string, sentiment: string -> string, service: string -> ApiResponse)
    requires BatchOf(recs, today, sentiment, service).Success?
    requires forall rec :: rec in recs ==> WellFormed(rec)
    ensures var b := BatchOf(recs, today, sentiment, service).value;
            && b.status == "success" && b.totalReviews == |b.data| == |recs|
            && forall k :: 0 <= k < |recs| ==>
                 b.data[k].originalReview == recs[k].review && b.data[k].date == recs[k].date
                 && b.data[k].sentiment == sentiment(recs[k].review)
                 && b.data[k].summary == SummarizeWithOllama(recs[k].review, service).summary
                 && b.data[k].predictedRating == SummarizeWithOllama(recs[k].review, service).predictedRating
                 && Stars(b.data[k].predictedRating) == Success(b.data[k].ratingStars)
  {
    var outs := EntryRows(recs, today, sentiment, service);
    GatherAll(outs);
    forall k | 0 <= k < |recs|
      ensures !AllSpace(recs[k].date)
    {
      assert recs[k] in recs;
      DateNotBlank(recs[k]);
    }
  }

  lemma DateNotBlank(rec: Record)
    requires WellFormed(rec)
    ensures !AllSpace(rec.date)
  {
    assert !IsSpace(rec.date[0]);
  }

  /** One unrated review fails the whole batch with a 500 that names the TypeError. */
  lemma UnratedFailsBatch(decoded: Option<string>, today: string, sentiment: string -> string, service: string -> ApiResponse, k: nat)
    requires ParseCsv(decoded).Success? && k < |ParseCsv(decoded).value|
    requires SummarizeWithOllama(ParseCsv(decoded).value[k].review, service).predictedRating.NotAvailable?
    ensures SummarizeAll(decoded, today, sentiment, service) == Failure(HttpError(500, BatchPrefix + RoundError))
  {
    UnratedFailsRecords(ParseCsv(decoded).value, today, sentiment, service, k);
  }

  /** `UnratedFailsBatch` on the parsed records. */
  lemma UnratedFailsRecords(recs: seq<Record>, today: string, sentiment: string -> string, service: string -> ApiResponse, k: nat)
    requires k < |recs| && SummarizeWithOllama(recs[k].review, service).predictedRating.NotAvailable?
    ensures BatchOf(recs, today, sentiment, service) == Failure(Unrounded)
  {
    var outs := EntryRows(recs, today, sentiment, service);
    GatherFails(outs);
    assert outs[k].Failure?;
    GatherFailsWith(outs);
  }

  /** The only fault a row can have is the rounding one, so a failed gather reports it. */
  lemma {:induction false} GatherFailsWith(outs: seq<Result<Row, Fault>>)
    requires forall k :: 0 <= k < |outs| ==> outs[k].Failure? ==> outs[k].error == Unrounded
    ensures Gather(outs).Failure? ==> Gather(outs).error == Unrounded
  {
    if outs != [] {
      var init := outs[..|outs| - 1];
      assert forall k :: 0 <= k < |init| ==> init[k] == outs[k];
      GatherFailsWith(init);
    }
  }

  /** Whether the batch succeeds never depends on the sentiment labels, "error" included. */
  lemma SentimentNeverFailsBatch(decoded: Option<string>, today: string, s1: string -> string, s2: string -> string,
                                 service: string -> ApiResponse)
    ensures SummarizeAll(decoded, today, s1, service).Success? == SummarizeAll(decoded, today, s2, service).Success?
  {
    if ParseCsv(decoded).Success? {
      SentimentNeverFailsRecords(ParseCsv(decoded).value, today, s1, s2, service);
    }
  }

  lemma SentimentNeverFailsRecords(recs: seq<Record>, today: string, s1: string -> string, s2: string -> string,
                                   service: string -> ApiResponse)
    ensures BatchOf(recs, today, s1, service).Success? == BatchOf(recs, today, s2, service).Success?
  {
    var o1 := EntryRows(recs, today, s1, service);
    var o2 := EntryRows(recs, today, s2, service);
    GatherFails(o1);
    GatherFails(o2);
    assert forall k :: 0 <= k < |recs| ==> o1[k].Failure? == o2[k].Failure?;
  }
}
