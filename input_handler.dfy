/**
 * app/input_handler.py: validation of a single review, the older bulk
 * CSV reader (comma-separated, one review column) with its HTTP error
 * statuses, and the DOCX placeholder.
 */
module InputHandler {
  import opened Base
  import opened Text
  import opened CsvRows
  import Ratings
  import Utils

  // ---- validate_single_review ----

  const EmptyReviewDetail: string := "Review text cannot be empty."

  /** `validate_single_review`: 400 for empty or whitespace-only text, otherwise the stripped text. */
  function ValidateSingleReview(reviewText: string): (r: Result<string, HttpError>)
    ensures r.Failure? <==> AllSpace(reviewText)
    ensures r.Failure? ==> r.error == HttpError(400, EmptyReviewDetail)
    ensures r.Success? ==> r.value == Strip(reviewText)
    ensures r.Success? ==> r.value != [] && NoEdgeSpace(r.value) && |r.value| <= |reviewText|
  {
    if reviewText == [] || Strip(reviewText) == [] then Failure(HttpError(400, EmptyReviewDetail))
    else Success(Strip(reviewText))
  }

  /** A validated review passes validation again, unchanged. */
  lemma ValidateSingleReviewIdempotent(reviewText: string)
    requires ValidateSingleReview(reviewText).Success?
    ensures ValidateSingleReview(ValidateSingleReview(reviewText).value) == ValidateSingleReview(reviewText)
  {
    StripIdempotent(reviewText);
  }

  /**
   * The two validators disagree on purpose: every review `validate_review`
   * accepts passes here, but a short review such as "ok" passes here and
   * fails `validate_review`.
   */
  lemma ValidatorsCompared(text: string)
    ensures Utils.ValidateReview(text) ==> ValidateSingleReview(text).Success?
  {
  }

  lemma ShortReviewAccepted(text: string)
    requires !AllSpace(text) && NoEdgeSpace(text) && |text| < 10
    ensures ValidateSingleReview(text) == Success(text)
    ensures !Utils.ValidateReview(text)
  {
    StrippedAccepted(text);
    StrippedShortRejected(text);
  }

  lemma StrippedAccepted(text: string)
    requires !AllSpace(text) && NoEdgeSpace(text)
    ensures ValidateSingleReview(text) == Success(text)
  {
    StripNoEdge(text);
  }

  lemma StrippedShortRejected(text: string)
    requires NoEdgeSpace(text) && |text| < 10
    ensures !Utils.ValidateReview(text)
  {
    StripNoEdge(text);
  }

  // ---- os.path.splitext ----

  predicate AllDots(s: string) {
    forall k :: 0 <= k < |s| ==> s[k] == '.'
  }

  /**
   * `os.path.splitext(p)[1]` for POSIX paths: from the last "." on, when
   * that dot lies after the last "/" and is not part of the leading dots
   * of the final path component; otherwise "".
   */
  function Extension(p: string): (ext: string)
    ensures ext == [] || (ext[0] == '.' && |ext| <= |p| && ext == p[|p| - |ext|..] && '.' !in ext[1..])
  {
    match LastIndex(p, '.')
    case None => []
    case Some(dot) =>
      var start := ComponentStart(p);
      if start <= dot && !AllDots(p[start..dot]) then
        DotSuffix(p, dot);
        p[dot..]
      else []
  }

  lemma DotSuffix(p: string, dot: nat)
    requires dot < |p| && p[dot] == '.' && '.' !in p[dot + 1..]
    ensures var ext := p[dot..]; ext[0] == '.' && |ext| <= |p| && ext == p[|p| - |ext|..] && '.' !in ext[1..]
  {
    assert p[dot..][1..] == p[dot + 1..];
  }

  /** Where the final path component starts: just after the last "/", or at 0. */
  function ComponentStart(p: string): (start: nat)
    ensures start <= |p|
    ensures start > 0 ==> p[start - 1] == '/'
    ensures '/' !in p[start..]
  {
    match LastIndex(p, '/') case None => 0 case Some(sep) => sep + 1
  }

  /**
   * A name whose final component has a character other than a dot,
   * followed by a suffix that starts with its only dot and has no slash,
   * has that suffix as its extension: "report.csv", "data/2024 reviews.CSV",
   * "..a.csv".
   */
  lemma ExtensionOfName(stem: string, ext: string)
    requires !AllDots(stem[ComponentStart(stem)..])
    requires ext != [] && ext[0] == '.' && '.' !in ext[1..] && '/' !in ext
    ensures Extension(stem + ext) == ext
  {
    var p, dot := stem + ext, |stem|;
    assert p[dot + 1..] == ext[1..];
    LastIndexAt(p, '.', dot);
    LastIndexAppend(stem, ext, '/');
    assert p[ComponentStart(stem)..dot] == stem[ComponentStart(stem)..];
    assert p[dot..] == ext;
    ExtensionAt(p, dot);
  }

  lemma ExtensionAt(p: string, dot: nat)
    requires LastIndex(p, '.') == Some(dot) && ComponentStart(p) <= dot && !AllDots(p[ComponentStart(p)..dot])
    ensures Extension(p) == p[dot..]
  {
  }

  /** Text that does not hold `x` leaves the last `x` where it was. */
  lemma LastIndexAppend(s: string, t: string, x: char)
    requires x !in t
    ensures LastIndex(s + t, x) == LastIndex(s, x)
  {
    match LastIndex(s, x)
    case None =>
      assert x !in s + t;
    case Some(i) =>
      assert (s + t)[i + 1..] == s[i + 1..] + t;
      LastIndexAt(s + t, x, i);
  }

  /** Ordinary CSV names are accepted. */
  lemma CsvNameAccepted(stem: string)
    requires !AllDots(stem[ComponentStart(stem)..])
    ensures IsCsvName(stem + ".csv")
  {
    CsvSuffix();
    ExtensionOfName(stem, ".csv");
  }

  lemma CsvSuffix()
    ensures ".csv"[0] == '.' && '.' !in ".csv"[1..] && '/' !in ".csv"
    ensures Lower(".csv") == ".csv"
  {
    var l, s := Lower(".csv"), ".csv";
    assert s[1..] == "csv";
    assert l[0] == '.' && l[1] == 'c' && l[2] == 's' && l[3] == 'v';
  }

  /** `extension != ".csv"` after `.lower()`. */
  predicate IsCsvName(filename: string) {
    Lower(Extension(filename)) == ".csv"
  }

  /** A name made only of dots before its extension, such as ".csv", has no extension and is rejected. */
  lemma DotFileRejected()
    ensures Extension(".csv") == []
    ensures !IsCsvName(".csv")
  {
    var p := ".csv";
    assert LastIndex(p, '.') == Some(0);
    assert LastIndex(p, '/') == None;
  }

  /** An upper-case extension is accepted: "x.CSV" is a CSV file name. */
  lemma UpperCaseExtensionAccepted()
    ensures Extension("x.CSV") == ".CSV"
    ensures IsCsvName("x.CSV")
  {
    var p := "x.CSV";
    assert p[2..] == "CSV";
    LastIndexAt(p, '.', 1);
    assert '/' !in p;
    assert !AllDots(p[0..1]) by {
      assert p[0..1][0] == 'x';
    }
    assert p[1..] == ".CSV";
    LowerUpperCsv();
  }

  lemma LowerUpperCsv()
    ensures Lower(".CSV") == ".csv"
  {
    var l := Lower(".CSV");
    assert l[0] == '.' && l[1] == 'c' && l[2] == 's' && l[3] == 'v';
  }

  // ---- process_bulk_reviews ----

  const NotCsvDetail: string := "Only CSV files are supported."
  const NotUtf8Detail: string := "File must be UTF-8 encoded."
  const MissingColumnDetail: string := "CSV file must contain a 'review' column (case-insensitive)."
  const NoReviewsDetail: string := "No valid reviews found in the file."

  /** The `TypeError` that iterating `reader.fieldnames` raises when the file has no line at all. */
  const NoneNotIterable: string := "'NoneType' object is not iterable"

  /** `except Exception as e`: status 500 with `str(e)`, which for an `HTTPException` is "<status>: <detail>". */
  function Rewrapped(message: string): HttpError {
    HttpError(500, "File processing error: " + message)
  }

  function HttpErrorText(e: HttpError): string
    requires e.status >= 0
  {
    Ratings.NatStr(e.status) + ": " + e.detail
  }

  /** A lookup that `or` stops at: a field holding a non-empty string (an absent key and None are falsy). */
  predicate Truthy(l: Lookup) {
    l.Value? && l.text != []
  }

  /**
   * The value `row.get("review") or row.get("Review") or ""` picks: the
   * "review" field when it is non-empty, else the "Review" field when that
   * is non-empty, else "".
   */
  function ReviewValue(fields: seq<string>, row: seq<string>): (v: string)
    ensures Truthy(Get(fields, row, "review")) ==> v == Get(fields, row, "review").text
    ensures !Truthy(Get(fields, row, "review")) && Truthy(Get(fields, row, "Review")) ==> v == Get(fields, row, "Review").text
    ensures !Truthy(Get(fields, row, "review")) && !Truthy(Get(fields, row, "Review")) ==> v == []
  {
    var lower := Get(fields, row, "review");
    var upper := Get(fields, row, "Review");
    if lower.Value? && lower.text != [] then lower.text
    else if upper.Value? && upper.text != [] then upper.text
    else []
  }

  /** What one row contributes: its stripped review, or nothing when that is blank. */
  function RowReview(fields: seq<string>, row: seq<string>): (r: Option<string>)
    ensures r.Some? <==> !AllSpace(ReviewValue(fields, row))
    ensures r.Some? ==> r.value == Strip(ReviewValue(fields, row))
    ensures r.Some? ==> r.value != [] && NoEdgeSpace(r.value)
  {
    var text := Strip(ReviewValue(fields, row));
    if text != [] then Some(text) else None
  }

  function RowReviews(fields: seq<string>, rows: seq<seq<string>>): (outs: seq<Option<string>>)
    ensures |outs| == |rows|
    ensures forall i :: 0 <= i < |rows| ==> outs[i] == RowReview(fields, rows[i])
    ensures forall i :: 0 <= i < |rows| && outs[i].Some? ==> outs[i].value != [] && NoEdgeSpace(outs[i].value)
  {
    seq(|rows|, i requires 0 <= i < |rows| => RowReview(fields, rows[i]))
  }

  /** The reviews the loop appends, in row order. */
  function Present(outs: seq<Option<string>>): (r: seq<string>)
    ensures |r| <= |outs|
  {
    if outs == [] then []
    else
      var init := Present(outs[..|outs| - 1]);
      match outs[|outs| - 1]
      case None => init
      case Some(text) => init + [text]
  }

  /** Why `process_bulk_reviews` raises, before the statuses and texts are attached. */
  datatype BulkFailure = NotCsv | NotUtf8 | NoHeader | MissingColumn | NoReviews

  /**
   * The `HTTPException` each failure reaches the caller as: the extension
   * and decoding checks give 400, and everything raised inside the `try`,
   * including the two 400s raised there, is re-wrapped as 500.
   */
  function ToHttp(f: BulkFailure): (e: HttpError)
    ensures e.status == 400 <==> f in {NotCsv, NotUtf8}
    ensures e.status == 400 || e.status == 500
  {
    match f
    case NotCsv => HttpError(400, NotCsvDetail)
    case NotUtf8 => HttpError(400, NotUtf8Detail)
    case NoHeader => Rewrapped(NoneNotIterable)
    case MissingColumn => Rewrapped(HttpErrorText(HttpError(400, MissingColumnDetail)))
    case NoReviews => Rewrapped(HttpErrorText(HttpError(400, NoReviewsDetail)))
  }

  /** The body of the `try` block on the header and rows of the file. */
  function BulkFromTable(fieldnames: Option<seq<string>>, rows: seq<seq<string>>): Result<seq<string>, BulkFailure> {
    match fieldnames
    case None => Failure(NoHeader)
    case Some(fields) =>
      if "review" !in Normalized(fields) then Failure(MissingColumn)
      else
        var reviews := Present(RowReviews(fields, rows));
        if reviews == [] then Failure(NoReviews) else Success(reviews)
  }

  /** `process_bulk_reviews` on the file name and the uploaded bytes as their UTF-8 decoding (None when that fails). */
  function BulkOutcome(filename: string, content: Option<string>): Result<seq<string>, BulkFailure> {
    if !IsCsvName(filename) then Failure(NotCsv)
    else if content.None? then Failure(NotUtf8)
    else
      var table := ReadTable(Lines(content.value, LineBreaks), ',');
      BulkFromTable(table.fieldnames, table.rows)
  }

  /** The same, with the failure as the `HTTPException` the caller receives. */
  function BulkReviews(filename: string, content: Option<string>): Result<seq<string>, HttpError> {
    match BulkOutcome(filename, content)
    case Success(reviews) => Success(reviews)
    case Failure(f) => Failure(ToHttp(f))
  }

  lemma PresentStep(outs: seq<Option<string>>, i: nat)
    requires i < |outs|
    ensures Present(outs[..i + 1]) == Present(outs[..i]) + (if outs[i].Some? then [outs[i].value] else [])
  {
    assert outs[..i + 1][..i] == outs[..i];
  }

  /** `process_bulk_reviews`. */
  method ProcessBulkReviews(filename: string, content: Option<string>) returns (r: Result<seq<string>, HttpError>)
    ensures r == BulkReviews(filename, content)
  {
    var extension := Lower(Extension(filename));
    if extension != ".csv" {
      return Failure(ToHttp(NotCsv));
    }
    if content.None? {
      return Failure(ToHttp(NotUtf8));
    }
    var table := ReadTable(Lines(content.value, LineBreaks), ',');
    if table.fieldnames.None? {
      return Failure(ToHttp(NoHeader));
    }
    var fields := table.fieldnames.value;
    var fieldnames := Normalized(fields);
    if "review" !in fieldnames {
      return Failure(ToHttp(MissingColumn));
    }
    var reviews := ReadReviews(fields, table.rows);
    if reviews == [] {
      return Failure(ToHttp(NoReviews));
    }
    return Success(reviews);
  }

  /** The `for row in reader` loop: the stripped, non-blank reviews in row order. */
  method ReadReviews(fields: seq<string>, rows: seq<seq<string>>) returns (reviews: seq<string>)
    ensures reviews == Present(RowReviews(fields, rows))
  {
    ghost var outs := RowReviews(fields, rows);
    reviews := [];
    var i := 0;
    assert outs[..0] == [];
    while i < |rows|
      invariant 0 <= i <= |rows|
      invariant reviews == Present(outs[..i])
    {
      PresentStep(outs, i);
      var reviewText := Strip(ReviewValue(fields, rows[i]));
      if reviewText != [] {
        reviews := reviews + [reviewText];
      }
      i := i + 1;
    }
    assert outs[..i] == outs;
  }

  // ---- What the bulk reader promises ----

  /** Every returned review is stripped and non-empty. */
  lemma PresentWellFormed(fields: seq<string>, rows: seq<seq<string>>)
    ensures forall t :: t in Present(RowReviews(fields, rows)) ==> t != [] && NoEdgeSpace(t)
  {
    var outs := RowReviews(fields, rows);
    PresentKeeps(outs);
    forall t | t in Present(outs) ensures t != [] && NoEdgeSpace(t) {
      var k :| 0 <= k < |outs| && outs[k] == Some(t);
    }
  }

  /** What is present is one of the outcomes' values. */
  lemma {:induction false} PresentKeeps(outs: seq<Option<string>>)
    ensures forall t :: t in Present(outs) ==> Some(t) in outs
  {
    if outs != [] {
      var n := |outs| - 1;
      PresentKeeps(outs[..n]);
      assert outs == outs[..n] + [outs[n]];
    }
  }

  /** The positions of the rows that contribute a review, in increasing order. */
  function Contributing(outs: seq<Option<string>>): (idx: seq<nat>)
    ensures forall k :: 0 <= k < |idx| ==> idx[k] < |outs| && outs[idx[k]].Some?
    ensures forall k, l :: 0 <= k < l < |idx| ==> idx[k] < idx[l]
    ensures forall i :: 0 <= i < |outs| && outs[i].Some? ==> i in idx
  {
    if outs == [] then []
    else
      var n := |outs| - 1;
      var init := outs[..n];
      assert forall i :: 0 <= i < n ==> outs[i] == init[i];
      Contributing(init) + (if outs[n].Some? then [n] else [])
  }

  /** The k-th review comes from the k-th contributing row: row order is kept and blank rows are dropped. */
  lemma {:induction false} PresentKeepsOrder(outs: seq<Option<string>>)
    ensures var r := Present(outs);
            var idx := Contributing(outs);
            |r| == |idx| && forall k :: 0 <= k < |r| ==> outs[idx[k]] == Some(r[k])
  {
    if outs != [] {
      var n := |outs| - 1;
      var init := outs[..n];
      PresentKeepsOrder(init);
      var r, idx := Present(outs), Contributing(outs);
      var r0, idx0 := Present(init), Contributing(init);
      assert r == r0 + (if outs[n].Some? then [outs[n].value] else []);
      assert idx == idx0 + (if outs[n].Some? then [n] else []);
      forall k | 0 <= k < |r| ensures outs[idx[k]] == Some(r[k]) {
        if k < |r0| {
          assert idx[k] == idx0[k] && r[k] == r0[k];
          assert outs[idx0[k]] == init[idx0[k]];
        }
      }
    }
  }

  /** With no header exactly "review" or "Review", no row ever yields a review. */
  lemma {:induction false} NoExactKeyNoReviews(fields: seq<string>, rows: seq<seq<string>>)
    requires "review" !in fields && "Review" !in fields
    ensures Present(RowReviews(fields, rows)) == []
  {
    if rows != [] {
      var init := rows[..|rows| - 1];
      NoExactKeyNoReviews(fields, init);
      assert RowReviews(fields, rows)[..|rows| - 1] == RowReviews(fields, init);
      NoExactKeyNoRowReview(fields, rows[|rows| - 1]);
    }
  }

  lemma NoExactKeyNoRowReview(fields: seq<string>, row: seq<string>)
    requires "review" !in fields && "Review" !in fields
    ensures RowReview(fields, row) == None
  {
    assert ReviewValue(fields, row) == [];
    assert Strip([]) == [];
  }

  /**
   * The header check ignores case and edge whitespace but the row lookup
   * does not: a header that only normalises to "review" passes the check
   * and then yields the no-reviews error.
   */
  lemma NormalisedOnlyHeader(fields: seq<string>, rows: seq<seq<string>>)
    requires "review" in Normalized(fields) && "review" !in fields && "Review" !in fields
    ensures BulkFromTable(Some(fields), rows) == Failure(NoReviews)
  {
    NoExactKeyNoReviews(fields, rows);
  }

  /** The missing-column error comes exactly when no header normalises to "review". */
  lemma MissingColumnExactly(fields: seq<string>, rows: seq<seq<string>>)
    ensures BulkFromTable(Some(fields), rows) == Failure(MissingColumn) <==> "review" !in Normalized(fields)
  {
  }

  /** A file with no line at all fails on iterating the missing header, not on the column check. */
  lemma EmptyFileHasNoHeader(filename: string)
    requires IsCsvName(filename)
    ensures BulkOutcome(filename, Some("")) == Failure(NoHeader)
  {
  }

  /** A successful read is a non-empty list of stripped, non-empty reviews. */
  lemma BulkReviewsWellFormed(filename: string, content: Option<string>)
    requires BulkReviews(filename, content).Success?
    ensures BulkReviews(filename, content).value != []
    ensures forall t :: t in BulkReviews(filename, content).value ==> t != [] && NoEdgeSpace(t)
  {
    var table := ReadTable(Lines(content.value, LineBreaks), ',');
    PresentWellFormed(table.fieldnames.value, table.rows);
  }

  /** An empty record has no field to read a review from. */
  lemma EmptyRowNoReview(fields: seq<string>)
    ensures RowReview(fields, []) == None
  {
    assert Strip([]) == [];
  }

  /**
   * A successful read returns, in file order, the stripped review of every
   * line after the header whose review value is not blank, and nothing else:
   * line `idx[k]` of the file gives the k-th review.
   */
  lemma BulkReviewsFromLines(filename: string, content: Option<string>) returns (idx: seq<nat>)
    requires BulkReviews(filename, content).Success?
    ensures content.Some? && Lines(content.value, LineBreaks) != []
    ensures var lines := Lines(content.value, LineBreaks);
            var header := Fields(lines[0], ',');
            var reviews := BulkReviews(filename, content).value;
            && |idx| == |reviews|
            && (forall k :: 0 <= k < |idx| ==> 1 <= idx[k] < |lines| && RowReview(header, Fields(lines[idx[k]], ',')) == Some(reviews[k]))
            && (forall k, l :: 0 <= k < l < |idx| ==> idx[k] < idx[l])
            && (forall j :: 1 <= j < |lines| && RowReview(header, Fields(lines[j], ',')).Some? ==> j in idx)
  {
    BulkReviewsOfTable(filename, content);
    idx := TableReviews(Lines(content.value, LineBreaks));
  }

  /** The reviews of a successful call are those read from the rows after the header line. */
  lemma BulkReviewsOfTable(filename: string, content: Option<string>)
    requires BulkReviews(filename, content).Success?
    ensures content.Some? && Lines(content.value, LineBreaks) != []
    ensures var lines := Lines(content.value, LineBreaks);
            BulkReviews(filename, content).value == Present(RowReviews(Fields(lines[0], ','), DataRows(lines[1..], ',')))
  {
    assert BulkOutcome(filename, content).Success?;
    assert IsCsvName(filename) && content.Some?;
    var lines := Lines(content.value, LineBreaks);
    var table := ReadTable(lines, ',');
    assert BulkOutcome(filename, content) == BulkFromTable(table.fieldnames, table.rows);
    TableValue(table.fieldnames, table.rows);
  }

  lemma TableValue(fieldnames: Option<seq<string>>, rows: seq<seq<string>>)
    requires BulkFromTable(fieldnames, rows).Success?
    ensures fieldnames.Some? && BulkFromTable(fieldnames, rows).value == Present(RowReviews(fieldnames.value, rows))
  {
  }

  /** `BulkReviewsFromLines` on the lines of the file, header first. */
  lemma TableReviews(lines: seq<string>) returns (idx: seq<nat>)
    requires lines != []
    ensures var header := Fields(lines[0], ',');
            var reviews := Present(RowReviews(header, DataRows(lines[1..], ',')));
            && |idx| == |reviews|
            && (forall k :: 0 <= k < |idx| ==> 1 <= idx[k] < |lines| && RowReview(header, Fields(lines[idx[k]], ',')) == Some(reviews[k]))
            && (forall k, l :: 0 <= k < l < |idx| ==> idx[k] < idx[l])
            && (forall j :: 1 <= j < |lines| && RowReview(header, Fields(lines[j], ',')).Some? ==> j in idx)
  {
    var header := Fields(lines[0], ',');
    var outs := RowReviews(header, DataRows(lines[1..], ','));
    var lineOut := LineOutcomes(header, lines);
    var filled := FilledLines(lines[1..]);
    OutcomesAtFilledLines(header, lines);
    idx := PositionsThrough(lines, lineOut, outs, filled);
    ReadOutcomes(header, lines, Present(outs), idx);
  }

  /** `LinePositions` followed by `PresentThrough`. */
  lemma PositionsThrough(lines: seq<string>, lineOut: seq<Option<string>>, outs: seq<Option<string>>, filled: seq<nat>)
    returns (idx: seq<nat>)
    requires |lineOut| == |lines| && (lines != [] ==> lineOut[0] == None)
    requires forall j :: 1 <= j < |lines| && lines[j] == [] ==> lineOut[j] == None
    requires |outs| == |filled|
    requires forall m :: 0 <= m < |filled| ==> filled[m] + 1 < |lines| && outs[m] == lineOut[filled[m] + 1]
    requires forall m, l :: 0 <= m < l < |filled| ==> filled[m] < filled[l]
    requires forall j :: 1 <= j < |lines| && lines[j] != [] ==> j - 1 in filled
    ensures |idx| == |Present(outs)|
    ensures forall k :: 0 <= k < |idx| ==> idx[k] < |lineOut| && lineOut[idx[k]] == Some(Present(outs)[k])
    ensures forall k, l :: 0 <= k < l < |idx| ==> idx[k] < idx[l]
    ensures forall j :: 0 <= j < |lineOut| && lineOut[j].Some? ==> j in idx
  {
    var pos := LinePositions(lines, lineOut, outs, filled);
    idx := PresentThrough(outs, pos, lineOut);
  }

  /** Reading the outcomes of the lines back as the reviews of their rows. */
  lemma ReadOutcomes(header: seq<string>, lines: seq<string>, reviews: seq<string>, idx: seq<nat>)
    requires lines != []
    requires var lineOut := LineOutcomes(header, lines);
             && |idx| == |reviews|
             && (forall k :: 0 <= k < |idx| ==> idx[k] < |lineOut| && lineOut[idx[k]] == Some(reviews[k]))
             && (forall k, l :: 0 <= k < l < |idx| ==> idx[k] < idx[l])
             && (forall j :: 0 <= j < |lineOut| && lineOut[j].Some? ==> j in idx)
    ensures && |idx| == |reviews|
            && (forall k :: 0 <= k < |idx| ==> 1 <= idx[k] < |lines| && RowReview(header, Fields(lines[idx[k]], ',')) == Some(reviews[k]))
            && (forall k, l :: 0 <= k < l < |idx| ==> idx[k] < idx[l])
            && (forall j :: 1 <= j < |lines| && RowReview(header, Fields(lines[j], ',')).Some? ==> j in idx)
  {
    LineOutcomesAt(header, lines);
  }

  /** The outcome of each non-empty line after the header is the outcome of its row. */
  lemma OutcomesAtFilledLines(header: seq<string>, lines: seq<string>)
    requires lines != []
    ensures var outs := RowReviews(header, DataRows(lines[1..], ','));
            var filled := FilledLines(lines[1..]);
            var lineOut := LineOutcomes(header, lines);
            && |lineOut| == |lines| && lineOut[0] == None
            && |outs| == |filled|
            && (forall m :: 0 <= m < |filled| ==> filled[m] + 1 < |lines| && outs[m] == lineOut[filled[m] + 1])
            && (forall j :: 1 <= j < |lines| && lines[j] == [] ==> lineOut[j] == None)
            && (forall m, l :: 0 <= m < l < |filled| ==> filled[m] < filled[l])
            && (forall j :: 1 <= j < |lines| && lines[j] != [] ==> j - 1 in filled)
  {
    RowsAtFilledLines(lines);
    LineOutcomesAt(header, lines);
    EmptyLinesNoOutcome(header, lines);
  }

  /** The rows after the header are the fields of the non-empty lines there. */
  lemma RowsAtFilledLines(lines: seq<string>)
    requires lines != []
    ensures var rows, filled := DataRows(lines[1..], ','), FilledLines(lines[1..]);
            && |rows| == |filled|
            && (forall m :: 0 <= m < |filled| ==> filled[m] + 1 < |lines| && rows[m] == Fields(lines[filled[m] + 1], ','))
            && (forall j :: 1 <= j < |lines| && lines[j] != [] ==> j - 1 in filled)
  {
    AfterHead(lines, FilledLines(lines[1..]));
    DataRowsFollowLines(lines[1..], ',');
    assert forall j :: 1 <= j < |lines| ==> lines[1..][j - 1] == lines[j];
  }

  /** Positions counted after the head of `s`, read in `s` itself. */
  lemma AfterHead<T>(s: seq<T>, at: seq<nat>)
    requires s != []
    requires forall m :: 0 <= m < |at| ==> at[m] < |s| - 1
    ensures forall m :: 0 <= m < |at| ==> at[m] + 1 < |s| && s[1..][at[m]] == s[at[m] + 1]
  {
  }

  lemma EmptyLinesNoOutcome(header: seq<string>, lines: seq<string>)
    ensures var lineOut := LineOutcomes(header, lines);
            forall j :: 1 <= j < |lines| && lines[j] == [] ==> lineOut[j] == None
  {
    var lineOut := LineOutcomes(header, lines);
    LineOutcomesAt(header, lines);
    EmptyRowNoReview(header);
    forall j | 1 <= j < |lines| && lines[j] == [] ensures lineOut[j] == None {
      assert Fields(lines[j], ',') == [];
    }
  }

  /**
   * With `lineOut` what every line contributes (the header and empty lines
   * nothing) and `outs` the contributions of the non-empty lines after the
   * header, found at `filled` (counted after the header), the position of
   * each.
   */
  lemma LinePositions(lines: seq<string>, lineOut: seq<Option<string>>, outs: seq<Option<string>>, filled: seq<nat>)
    returns (pos: seq<nat>)
    requires |lineOut| == |lines| && (lines != [] ==> lineOut[0] == None)
    requires forall j :: 1 <= j < |lines| && lines[j] == [] ==> lineOut[j] == None
    requires |outs| == |filled|
    requires forall m :: 0 <= m < |filled| ==> filled[m] + 1 < |lines| && outs[m] == lineOut[filled[m] + 1]
    requires forall m, l :: 0 <= m < l < |filled| ==> filled[m] < filled[l]
    requires forall j :: 1 <= j < |lines| && lines[j] != [] ==> j - 1 in filled
    ensures |pos| == |outs|
    ensures forall m :: 0 <= m < |pos| ==> pos[m] < |lineOut| && outs[m] == lineOut[pos[m]]
    ensures forall m, l :: 0 <= m < l < |pos| ==> pos[m] < pos[l]
    ensures forall j :: 0 <= j < |lineOut| && lineOut[j].Some? ==> j in pos
  {
    pos := Shift(filled);
    assert forall m :: 0 <= m < |pos| ==> pos[m] < |lineOut| && outs[m] == lineOut[pos[m]] by {
      forall m | 0 <= m < |pos| ensures pos[m] < |lineOut| && outs[m] == lineOut[pos[m]] {
        assert pos[m] == filled[m] + 1;
      }
    }
    assert forall j :: 0 <= j < |lineOut| && lineOut[j].Some? ==> j in pos by {
      forall j | 0 <= j < |lineOut| && lineOut[j].Some? ensures j in pos {
        var m :| 0 <= m < |filled| && filled[m] == j - 1;
        assert pos[m] == j;
      }
    }
  }

  function Shift(filled: seq<nat>): (pos: seq<nat>)
    ensures |pos| == |filled| && forall m :: 0 <= m < |filled| ==> pos[m] == filled[m] + 1
  {
    seq(|filled|, m requires 0 <= m < |filled| => filled[m] + 1)
  }

  /** What every line contributes, the header line nothing. */
  function LineOutcomes(header: seq<string>, lines: seq<string>): (lineOut: seq<Option<string>>)
    ensures |lineOut| == |lines| && (lines != [] ==> lineOut[0] == None)
  {
    seq(|lines|, j requires 0 <= j < |lines| => if j == 0 then None else RowReview(header, Fields(lines[j], ',')))
  }

  /** What a line after the header contributes is the review of its row. */
  lemma LineOutcomesAt(header: seq<string>, lines: seq<string>)
    ensures var lineOut := LineOutcomes(header, lines);
            forall j :: 1 <= j < |lines| ==> lineOut[j] == RowReview(header, Fields(lines[j], ','))
  {
  }

  /**
   * Where each outcome is the outcome of a distinct position, in increasing
   * order, and no other position has a value, the present values are read
   * from increasing positions that include every position with a value.
   */
  lemma PresentThrough(outs: seq<Option<string>>, pos: seq<nat>, lineOut: seq<Option<string>>) returns (idx: seq<nat>)
    requires |pos| == |outs|
    requires forall m :: 0 <= m < |pos| ==> pos[m] < |lineOut| && outs[m] == lineOut[pos[m]]
    requires forall m, l :: 0 <= m < l < |pos| ==> pos[m] < pos[l]
    requires forall j :: 0 <= j < |lineOut| && lineOut[j].Some? ==> j in pos
    ensures |idx| == |Present(outs)|
    ensures forall k :: 0 <= k < |idx| ==> idx[k] < |lineOut| && lineOut[idx[k]] == Some(Present(outs)[k])
    ensures forall k, l :: 0 <= k < l < |idx| ==> idx[k] < idx[l]
    ensures forall j :: 0 <= j < |lineOut| && lineOut[j].Some? ==> j in idx
  {
    PresentKeepsOrder(outs);
    var c := Contributing(outs);
    idx := Compose(pos, c);
    forall k | 0 <= k < |idx| ensures idx[k] < |lineOut| && lineOut[idx[k]] == Some(Present(outs)[k]) {
      assert idx[k] == pos[c[k]];
    }
    forall j | 0 <= j < |lineOut| && lineOut[j].Some? ensures j in idx {
      var m :| 0 <= m < |pos| && pos[m] == j;
      ComposeCovers(pos, c, idx, m);
    }
  }

  /** Reading positions through an increasing selection of increasing positions. */
  lemma Compose(pos: seq<nat>, c: seq<nat>) returns (idx: seq<nat>)
    requires forall k :: 0 <= k < |c| ==> c[k] < |pos|
    requires forall k, l :: 0 <= k < l < |c| ==> c[k] < c[l]
    requires forall m, l :: 0 <= m < l < |pos| ==> pos[m] < pos[l]
    ensures |idx| == |c| && forall k :: 0 <= k < |c| ==> idx[k] == pos[c[k]]
    ensures forall k, l :: 0 <= k < l < |idx| ==> idx[k] < idx[l]
  {
    idx := seq(|c|, k requires 0 <= k < |c| => pos[c[k]]);
  }

  lemma ComposeCovers(pos: seq<nat>, c: seq<nat>, idx: seq<nat>, m: nat)
    requires m < |pos| && m in c
    requires forall k :: 0 <= k < |c| ==> c[k] < |pos|
    requires |idx| == |c| && forall k :: 0 <= k < |c| ==> idx[k] == pos[c[k]]
    ensures pos[m] in idx
  {
    var k :| 0 <= k < |c| && c[k] == m;
    assert idx[k] == pos[m];
  }

  // ---- process_docx_file ----

  /** `process_docx_file`: whatever the file, status 501. */
  function ProcessDocxFile(filename: string, content: Option<string>): (r: Result<seq<string>, HttpError>)
    ensures r.Failure? && r.error.status == 501
  {
    Failure(HttpError(501, "DOCX support not yet implemented."))
  }
}
