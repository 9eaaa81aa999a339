/**
 * app/file_upload.py, `save_and_parse_csv`: reads an uploaded delimited
 * file as UTF-8 text, picks comma or tab from a 2048-character sample,
 * resolves the review and date columns case-insensitively, and returns
 * one {review, date} record per row whose review is not blank.
 */
module FileUpload {
  import opened Base
  import opened Text
  import opened CsvRows

  /** The date given to a record whose row has no date value. */
  const FallbackDate: string := "2025-06-10"

  /** How many characters of the file the delimiter choice looks at. */
  const SampleSize: nat := 2048

  lemma FallbackDateShape()
    ensures FallbackDate != [] && NoEdgeSpace(FallbackDate)
  {
    assert FallbackDate[0] == '2' && FallbackDate[9] == '0';
  }

  /** The two `ValueError`s the function raises; every error inside its `try` block becomes the first. */
  datatype ParseError = InvalidCsv | NoValidReviews

  function Message(e: ParseError): string {
    match e
    case InvalidCsv => "Invalid CSV format or encoding issue."
    case NoValidReviews => "No valid reviews found."
  }

  /** One parsed row: `{"review": ..., "date": ...}`. */
  datatype Record = Record(review: string, date: string)

  /** What one pass of the row loop does: raise (a None cell has no `strip`), skip the row, or keep a record. */
  datatype RowOutcome = Raised | Skipped | Kept(record: Record)

  /** Text-mode reading with universal newlines: "\r\n" and a lone "\r" both become "\n". */
  function UniversalNewlines(s: string): (r: string)
    ensures '\r' !in r
    ensures |r| <= |s|
    ensures Count(r, ',') == Count(s, ',') && Count(r, '\t') == Count(s, '\t')
    decreases |s|
  {
    if s == [] then []
    else if s[0] == '\r' then
      var rest := if |s| > 1 && s[1] == '\n' then s[2..] else s[1..];
      ['\n'] + UniversalNewlines(rest)
    else [s[0]] + UniversalNewlines(s[1..])
  }

  /** Text without a "\r" passes through unchanged ahead of the rest. */
  lemma {:induction false} UniversalNewlinesPrefix(p: string, q: string)
    requires '\r' !in p
    ensures UniversalNewlines(p + q) == p + UniversalNewlines(q)
    decreases |p|
  {
    if p != [] {
      var pq := p + q;
      assert pq[0] == p[0] && pq[1..] == p[1..] + q;
      assert UniversalNewlines(pq) == [p[0]] + UniversalNewlines(pq[1..]);
      UniversalNewlinesPrefix(p[1..], q);
      assert [p[0]] + p[1..] == p;
      AppendAssoc([p[0]], p[1..], UniversalNewlines(q));
    } else {
      assert p + q == q;
    }
  }

  lemma AppendAssoc(a: string, b: string, c: string)
    ensures a + (b + c) == (a + b) + c
  {
  }

  /** At the first line end of the raw text, the conversion emits one "\n" and goes on after that end. */
  lemma UniversalNewlinesAtBreak(s: string, n: nat, next: nat)
    requires n < |s| && (s[n] == '\r' || s[n] == '\n')
    requires forall j :: 0 <= j < n ==> s[j] != '\r'
    requires next == if s[n] == '\r' && n + 1 < |s| && s[n + 1] == '\n' then n + 2 else n + 1
    ensures UniversalNewlines(s) == s[..n] + ['\n'] + UniversalNewlines(s[next..])
  {
    var tail := s[n..];
    assert s == s[..n] + tail;
    UniversalNewlinesPrefix(s[..n], tail);
    assert tail[0] == s[n];
    if s[n] == '\r' {
      assert |tail| > 1 && tail[1] == '\n' ==> tail[2..] == s[next..];
      assert !(|tail| > 1 && tail[1] == '\n') ==> tail[1..] == s[next..];
    } else {
      assert tail[1..] == s[next..];
    }
    assert UniversalNewlines(tail) == ['\n'] + UniversalNewlines(s[next..]);
    AppendAssoc(s[..n], ['\n'], UniversalNewlines(s[next..]));
  }

  /** The raw text's first line ends at its first "\r" or "\n". */
  lemma RawLinesAtBreak(s: string, n: nat, next: nat)
    requires n < |s| && (s[n] == '\r' || s[n] == '\n')
    requires forall j :: 0 <= j < n ==> s[j] != '\r' && s[j] != '\n'
    requires next == if s[n] == '\r' && n + 1 < |s| && s[n + 1] == '\n' then n + 2 else n + 1
    ensures Lines(s, {'\r', '\n'}) == [s[..n]] + Lines(s[next..], {'\r', '\n'})
  {
    LinesFromBreak(s, {'\r', '\n'}, 0, n);
  }

  /** The converted text's first line is the raw text's first line. */
  lemma ConvertedLinesAtBreak(s: string, n: nat, next: nat)
    requires n < |s| && (s[n] == '\r' || s[n] == '\n')
    requires forall j :: 0 <= j < n ==> s[j] != '\r' && s[j] != '\n'
    requires next == if s[n] == '\r' && n + 1 < |s| && s[n + 1] == '\n' then n + 2 else n + 1
    ensures Lines(UniversalNewlines(s), {'\n'}) == [s[..n]] + Lines(UniversalNewlines(s[next..]), {'\n'})
  {
    UniversalNewlinesAtBreak(s, n, next);
    assert '\n' !in s[..n];
    LinesAfterNewline(s[..n], UniversalNewlines(s[next..]));
  }

  /**
   * Reading the converted text by "\n" gives the same lines as reading the
   * raw text with "\r\n", "\r" and "\n" all as line ends: no line is
   * merged, split or altered by the conversion.
   */
  lemma {:induction false} UniversalNewlinesLines(s: string)
    ensures Lines(UniversalNewlines(s), {'\n'}) == Lines(s, {'\r', '\n'})
    decreases |s|
  {
    if s == [] {
    } else if forall j :: 0 <= j < |s| ==> s[j] != '\r' && s[j] != '\n' {
      UniversalNewlinesPrefix(s, []);
      assert s + [] == s;
      LinesFromNoBreak(s, {'\r', '\n'}, 0);
      LinesFromNoBreak(s, {'\n'}, 0);
    } else {
      var n := FirstBreak(s, {'\r', '\n'});
      var next := if s[n] == '\r' && n + 1 < |s| && s[n + 1] == '\n' then n + 2 else n + 1;
      RawLinesAtBreak(s, n, next);
      ConvertedLinesAtBreak(s, n, next);
      UniversalNewlinesLines(s[next..]);
    }
  }

  /** `"," if sample.count(",") >= sample.count("\t") else "\t"`. */
  function ChooseDelimiter(sample: string): (d: char)
    ensures d == ',' || d == '\t'
    ensures d == ',' <==> Count(sample, ',') >= Count(sample, '\t')
  {
    if Count(sample, ',') >= Count(sample, '\t') then ',' else '\t'
  }

  /** A file whose sample holds no tab is read as comma-separated, including a sample with neither. */
  lemma NoTabMeansComma(sample: string)
    requires '\t' !in sample
    ensures ChooseDelimiter(sample) == ','
  {
  }

  /** The first `SampleSize` characters, as `csvfile.read(2048)` returns them. */
  function Sample(t: string): (r: string)
    ensures |r| <= SampleSize && |r| <= |t| && r == t[..|r|]
    ensures |t| <= SampleSize ==> r == t
    ensures |t| > SampleSize ==> |r| == SampleSize
  {
    if |t| <= SampleSize then t else t[..SampleSize]
  }

  /** The rows `csv.DictReader(csvfile, delimiter=...)` produces for the (unquoted) text of the file. */
  function ReadCsv(text: string): Table {
    var t := UniversalNewlines(text);
    ReadTable(Lines(t, {'\n'}), ChooseDelimiter(Sample(t)))
  }

  /** `dict(zip(keys, values))`: a later key overwrites an earlier one. */
  function KeyMap(keys: seq<string>, values: seq<string>): map<string, string>
    requires |keys| == |values|
  {
    if keys == [] then map[]
    else
      var n := |keys| - 1;
      KeyMap(keys[..n], values[..n])[keys[n] := values[n]]
  }

  /** A key is in the map exactly when it is in `keys`, and it maps to the value at its last position. */
  lemma {:induction false} KeyMapLastWins(keys: seq<string>, values: seq<string>, key: string)
    requires |keys| == |values|
    ensures key in KeyMap(keys, values) <==> key in keys
    ensures key in KeyMap(keys, values) ==> KeyMap(keys, values)[key] == values[LastIndex(keys, key).value]
  {
    if keys != [] {
      var n := |keys| - 1;
      KeyMapLastWins(keys[..n], values[..n], key);
      assert keys == keys[..n] + [keys[n]];
      LastIndexSnoc(keys[..n], keys[n], key);
    }
  }

  /** `{field.lower().strip(): field for field in fields}`. */
  function FieldMap(fields: seq<string>): map<string, string> {
    KeyMap(Normalized(fields), fields)
  }

  /**
   * A normalised key is in the map exactly when some header normalises to it,
   * and it maps to the LAST such header.
   */
  lemma FieldMapLastWins(fields: seq<string>, key: string)
    ensures key in FieldMap(fields) <==> key in Normalized(fields)
    ensures key in FieldMap(fields) ==> FieldMap(fields)[key] == fields[LastIndex(Normalized(fields), key).value]
  {
    KeyMapLastWins(Normalized(fields), fields, key);
  }

  /** `field_map.get("date") or field_map.get("timestamp")`. */
  function DateKey(fieldMap: map<string, string>): (k: Option<string>)
    ensures k.Some? ==> ("date" in fieldMap && k.value == fieldMap["date"])
                        || ("date" !in fieldMap && "timestamp" in fieldMap && k.value == fieldMap["timestamp"])
    ensures k.None? <==> "date" !in fieldMap && "timestamp" !in fieldMap
  {
    if "date" in fieldMap then Some(fieldMap["date"])
    else if "timestamp" in fieldMap then Some(fieldMap["timestamp"])
    else None
  }

  /** The date column is the last `date` header if there is one, else the last `timestamp` header, else none. */
  lemma DateColumnPreference(fields: seq<string>)
    ensures var names := Normalized(fields);
            DateKey(FieldMap(fields)) ==
              if "date" in names then Some(fields[LastIndex(names, "date").value])
              else if "timestamp" in names then Some(fields[LastIndex(names, "timestamp").value])
              else None
  {
    FieldMapLastWins(fields, "date");
    FieldMapLastWins(fields, "timestamp");
  }

  /**
   * One pass of the loop: `row.get(review_key, "").strip()` and the same
   * for the date, where a short row's rest value None makes `.strip()`
   * raise; a blank review skips the row and a blank date becomes the
   * fallback date.
   */
  function RowRecord(fields: seq<string>, row: seq<string>, reviewKey: string, dateKey: Option<string>)
    : (r: RowOutcome)
    ensures r.Raised? <==> Get(fields, row, reviewKey).NoneValue?
                           || (dateKey.Some? && Get(fields, row, dateKey.value).NoneValue?)
    ensures !r.Raised? ==>
              r == StrippedRecord(GetOr(fields, row, reviewKey, "").value,
                                  if dateKey.Some? then GetOr(fields, row, dateKey.value, "").value else "")
    ensures r.Kept? ==> r.record.review != [] && NoEdgeSpace(r.record.review)
                        && r.record.date != [] && NoEdgeSpace(r.record.date)
  {
    match GetOr(fields, row, reviewKey, "")
    case None => Raised
    case Some(review) =>
      var date := if dateKey.Some? then GetOr(fields, row, dateKey.value, "") else Some("");
      match date
      case None => Raised
      case Some(d) => StrippedRecord(review, d)
  }

  /** The row's two values once read: a blank review skips the row, a blank date becomes the fallback date. */
  function StrippedRecord(review: string, date: string): (r: RowOutcome)
    ensures r != Raised
    ensures r.Skipped? <==> Strip(review) == []
    ensures r.Kept? ==> r.record.review == Strip(review)
                        && r.record.date == (if Strip(date) != [] then Strip(date) else FallbackDate)
    ensures r.Kept? ==> r.record.review != [] && NoEdgeSpace(r.record.review)
                        && r.record.date != [] && NoEdgeSpace(r.record.date)
  {
    var reviewText, dateValue := Strip(review), Strip(date);
    FallbackDateShape();
    if reviewText == [] then Skipped
    else Kept(Record(reviewText, if dateValue != [] then dateValue else FallbackDate))
  }

  /** The outcome of the loop body on every row, in row order. */
  function Outcomes(fields: seq<string>, rows: seq<seq<string>>, reviewKey: string, dateKey: Option<string>)
    : (outs: seq<RowOutcome>)
    ensures |outs| == |rows|
    ensures forall i :: 0 <= i < |rows| ==> outs[i] == RowRecord(fields, rows[i], reviewKey, dateKey)
  {
    seq(|rows|, i requires 0 <= i < |rows| => RowRecord(fields, rows[i], reviewKey, dateKey))
  }

  /** What the loop accumulates from the outcomes: the kept records in order, or None once a row has raised. */
  function Collect(outs: seq<RowOutcome>): (r: Option<seq<Record>>)
    ensures r.Some? ==> |r.value| <= |outs|
  {
    if outs == [] then Some([])
    else
      match Collect(outs[..|outs| - 1])
      case None => None
      case Some(acc) =>
        match outs[|outs| - 1]
        case Raised => None
        case Skipped => Some(acc)
        case Kept(rec) => Some(acc + [rec])
  }

  /** The header, or [] when the file has no line (`reader.fieldnames or []`). */
  function HeaderOf(table: Table): seq<string> {
    if table.fieldnames.Some? then table.fieldnames.value else []
  }

  /** Everything after the text has been split into header and rows. */
  function ParseTable(fields: seq<string>, rows: seq<seq<string>>): Result<seq<Record>, ParseError> {
    var fieldMap := FieldMap(fields);
    if "review" !in fieldMap then Failure(InvalidCsv)
    else
      match Collect(Outcomes(fields, rows, fieldMap["review"], DateKey(fieldMap)))
      case None => Failure(InvalidCsv)
      case Some(records) => if records == [] then Failure(NoValidReviews) else Success(records)
  }

  /** `save_and_parse_csv` on the uploaded bytes, given as their UTF-8 decoding (None when that fails). */
  function ParseCsv(decoded: Option<string>): Result<seq<Record>, ParseError> {
    match decoded
    case None => Failure(InvalidCsv)
    case Some(text) =>
      var table := ReadCsv(text);
      ParseTable(HeaderOf(table), table.rows)
  }

  /** Collecting one more outcome extends what was collected before it. */
  lemma CollectStep(outs: seq<RowOutcome>, i: nat)
    requires i < |outs|
    ensures Collect(outs[..i + 1]) ==
            match Collect(outs[..i])
            case None => None
            case Some(acc) =>
              match outs[i]
              case Raised => None
              case Skipped => Some(acc)
              case Kept(rec) => Some(acc + [rec])
  {
    assert outs[..i + 1][..i] == outs[..i];
  }

  /** Once a row has raised, the whole collection has. */
  lemma {:induction false} RaisedSticks(outs: seq<RowOutcome>, i: nat)
    requires i <= |outs| && Collect(outs[..i]).None?
    ensures Collect(outs).None?
    decreases |outs| - i
  {
    if i < |outs| {
      CollectStep(outs, i);
      RaisedSticks(outs, i + 1);
    } else {
      assert outs[..i] == outs;
    }
  }

  /** `save_and_parse_csv`, with the uploaded bytes given as their UTF-8 decoding (None when that fails). */
  method SaveAndParseCsv(decoded: Option<string>) returns (r: Result<seq<Record>, ParseError>)
    ensures r == ParseCsv(decoded)
  {
    if decoded.None? {
      return Failure(InvalidCsv);
    }
    var table := ReadCsv(decoded.value);
    r := ParseRows(HeaderOf(table), table.rows);
  }

  /** The column lookup and the row loop of `save_and_parse_csv`, on the header and rows `DictReader` yields. */
  method ParseRows(fields: seq<string>, rows: seq<seq<string>>) returns (r: Result<seq<Record>, ParseError>)
    ensures r == ParseTable(fields, rows)
  {
    var fieldMap := FieldMap(fields);
    if "review" !in fieldMap {
      return Failure(InvalidCsv);
    }
    var reviews := CollectRows(fields, rows, fieldMap["review"], DateKey(fieldMap));
    if reviews.None? {
      return Failure(InvalidCsv);
    }
    if reviews.value == [] {
      return Failure(NoValidReviews);
    }
    return Success(reviews.value);
  }

  /** The `for row in reader` loop; None once a row has raised. */
  method CollectRows(fields: seq<string>, rows: seq<seq<string>>, reviewKey: string, dateKey: Option<string>)
    returns (r: Option<seq<Record>>)
    ensures r == Collect(Outcomes(fields, rows, reviewKey, dateKey))
  {
    ghost var outs := Outcomes(fields, rows, reviewKey, dateKey);
    var reviews: seq<Record> := [];
    var i := 0;
    assert outs[..0] == [];
    while i < |rows|
      invariant 0 <= i <= |rows|
      invariant Collect(outs[..i]) == Some(reviews)
    {
      CollectStep(outs, i);
      var outcome := ReadRow(fields, rows[i], reviewKey, dateKey);
      if outcome.Raised? {
        RaisedSticks(outs, i + 1);
        return None;
      }
      if outcome.Kept? {
        reviews := reviews + [outcome.record];
      }
      i := i + 1;
    }
    assert outs[..i] == outs;
    r := Some(reviews);
  }

  /** The body of the row loop: the stripped review and date of one row, or the row's exception. */
  method ReadRow(fields: seq<string>, row: seq<string>, reviewKey: string, dateKey: Option<string>)
    returns (outcome: RowOutcome)
    ensures outcome == RowRecord(fields, row, reviewKey, dateKey)
  {
    var review := GetOr(fields, row, reviewKey, "");
    if review.None? {
      return Raised;
    }
    var date := if dateKey.Some? then GetOr(fields, row, dateKey.value, "") else Some("");
    if date.None? {
      return Raised;
    }
    outcome := StrippedRecord(review.value, date.value);
  }

  // ---- What the parse promises ----

  /** A file without any header that normalises to "review" fails with the generic message, not the column one. */
  lemma MissingReviewColumn(fields: seq<string>, rows: seq<seq<string>>)
    requires "review" !in Normalized(fields)
    ensures ParseTable(fields, rows) == Failure(InvalidCsv)
  {
    FieldMapLastWins(fields, "review");
  }

  predicate WellFormed(rec: Record) {
    rec.review != [] && NoEdgeSpace(rec.review) && rec.date != [] && NoEdgeSpace(rec.date)
  }

  /** Collecting well-formed kept records gives well-formed records only. */
  lemma {:induction false} CollectWellFormed(outs: seq<RowOutcome>)
    requires forall i :: 0 <= i < |outs| && outs[i].Kept? ==> WellFormed(outs[i].record)
    requires Collect(outs).Some?
    ensures forall rec :: rec in Collect(outs).value ==> WellFormed(rec)
  {
    if outs != [] {
      var init := outs[..|outs| - 1];
      assert forall i :: 0 <= i < |init| ==> init[i] == outs[i];
      CollectWellFormed(init);
    }
  }

  /** A successful parse is a non-empty list of records with a stripped, non-empty review and date. */
  lemma ParsedRecordsWellFormed(decoded: Option<string>)
    requires ParseCsv(decoded).Success?
    ensures ParseCsv(decoded).value != []
    ensures forall rec :: rec in ParseCsv(decoded).value ==> WellFormed(rec)
  {
    var table := ReadCsv(decoded.value);
    var fields := HeaderOf(table);
    var fieldMap := FieldMap(fields);
    CollectWellFormed(Outcomes(fields, table.rows, fieldMap["review"], DateKey(fieldMap)));
  }

  /** The positions of the kept outcomes, in increasing order. */
  function KeptPositions(outs: seq<RowOutcome>): (idx: seq<nat>)
    ensures forall k :: 0 <= k < |idx| ==> idx[k] < |outs| && outs[idx[k]].Kept?
    ensures forall k, l :: 0 <= k < l < |idx| ==> idx[k] < idx[l]
    ensures forall i :: 0 <= i < |outs| && outs[i].Kept? ==> i in idx
  {
    if outs == [] then []
    else
      var n := |outs| - 1;
      var init := outs[..n];
      assert forall i :: 0 <= i < n ==> outs[i] == init[i];
      KeptPositions(init) + (if outs[n].Kept? then [n] else [])
  }

  /**
   * Rows with a blank review are skipped and the rest keep their order:
   * the k-th record is the record of the k-th kept row.
   */
  lemma {:induction false} CollectKeepsOrder(outs: seq<RowOutcome>)
    requires Collect(outs).Some?
    ensures var recs := Collect(outs).value;
            var idx := KeptPositions(outs);
            |recs| == |idx| && forall k :: 0 <= k < |recs| ==> outs[idx[k]] == Kept(recs[k])
  {
    if outs != [] {
      var n := |outs| - 1;
      var init := outs[..n];
      CollectKeepsOrder(init);
      assert forall i :: 0 <= i < n ==> outs[i] == init[i];
    }
  }

  /** The same, read on the rows of the file. */
  lemma ParseKeepsRowOrder(fields: seq<string>, rows: seq<seq<string>>)
    requires ParseTable(fields, rows).Success?
    ensures var fieldMap := FieldMap(fields);
            var outs := Outcomes(fields, rows, fieldMap["review"], DateKey(fieldMap));
            var idx := KeptPositions(outs);
            var recs := ParseTable(fields, rows).value;
            |recs| == |idx|
            && forall k :: 0 <= k < |recs| ==>
                 idx[k] < |rows| && RowRecord(fields, rows[idx[k]], fieldMap["review"], DateKey(fieldMap)) == Kept(recs[k])
  {
    var fieldMap := FieldMap(fields);
    CollectKeepsOrder(Outcomes(fields, rows, fieldMap["review"], DateKey(fieldMap)));
  }

  /** When no row raises and no row is kept, the parse fails with "No valid reviews found.". */
  lemma AllBlankReviews(fields: seq<string>, rows: seq<seq<string>>)
    requires "review" in FieldMap(fields)
    requires forall i :: 0 <= i < |rows| ==>
               RowRecord(fields, rows[i], FieldMap(fields)["review"], DateKey(FieldMap(fields))) == Skipped
    ensures ParseTable(fields, rows) == Failure(NoValidReviews)
  {
    var outs := Outcomes(fields, rows, FieldMap(fields)["review"], DateKey(FieldMap(fields)));
    AllSkipped(outs);
  }

  lemma {:induction false} AllSkipped(outs: seq<RowOutcome>)
    requires forall i :: 0 <= i < |outs| ==> outs[i] == Skipped
    ensures Collect(outs) == Some([])
  {
    if outs != [] {
      var init := outs[..|outs| - 1];
      assert forall i :: 0 <= i < |init| ==> init[i] == outs[i];
      AllSkipped(init);
    }
  }
}
