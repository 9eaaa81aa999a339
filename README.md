# IntelliReview review ingestion and summarisation, modelled in Dafny

This project models the review-ingestion and summarisation core of
IntelliReview, a FastAPI service that takes customer reviews, one at a time
or as an uploaded CSV file, and answers with a summary, a predicted star
rating, a star rendering and a sentiment label for each review. The model
covers the following:

- **Ingestion.**
  - `save_and_parse_csv` chooses comma or tab from a 2048-character sample. It resolves the review and date columns case-insensitively, skips rows with a blank review and gives a dateless row the fixed date "2025-06-10".
  - The bulk reader `process_bulk_reviews` maps each failure to HTTP status 400 or 500; `process_docx_file` always fails with 501.
  - `validate_single_review`, `validate_review` and `clean_text`.
- **Rating extraction.** Both `try_parse_rating` helpers take the first match of `\d+(\.\d+)?` and round it to one decimal. Ratings are exact numbers of tenths, with `NotAvailable` standing for the string "N/A".
- **Model output parsing.**
  - The Ollama reply, read with its two regular expressions.
  - The Granite completion, read line by line by `parse_granite_output` and by `summarize_and_rate_with_granite`.
  - The keyword heuristic `predict_rating`.
- **Endpoints.** `POST /summarize` and `POST /upload/summarize_all` are modelled, including their all-or-nothing failure behaviour. A single unrated review makes `round("N/A")` raise, and that fails the whole batch.

The code is split into these modules:

- `Text`: Python string operations on ASCII text.
- `CsvRows`: what `csv.DictReader` yields.
- `LineScan`: the shared "last line wins" scan.
- `Ratings`.
- `Utils`, `InputHandler`, `FileUpload`, `OllamaHandler`, `Summarizer`, `GraniteHandler`, `RatingPredictor` and `App`: one module per source file.

Where the source works step by step, the model does too: the row loops, the
line loops and the batch loop are methods with `while` loops, and
`RatingPredictor.PredictRating` is a method of three conditional score updates
and a clamp, as in the source. Each such method is proved equal to a function that states the
behaviour, and the promised properties are proved as lemmas about that
function.

External services are parameters of the model:

- the Ollama HTTP call is a function from the prompt to an `ApiResponse`: the text, a timeout, or an error message;
- the Granite tokeniser and model are a function from the prompt to an `Inference`;
- the IBM Watson sentiment call is a function from the text to its label;
- `str(date.today())` is a string parameter.

An upload is given as its UTF-8 decoding, or as `None` when decoding fails.

Two behaviours of the code are worth stating plainly:

- Rendering stars for the "N/A" rating crashes. In `app/main.py:54` and `app/main.py:89`, `int(round("N/A"))` raises a TypeError. So `App.Stars` fails on `NotAvailable`, and `App.UnratedFailsBatch` proves that one such review fails the whole batch with status 500.
- Ratings are not clamped. Neither `try_parse_rating` limits the number it reads to a range such as 1 to 5, and the model does not either: a reply "Predicted Rating: 17" gives the rating 17.0.

## Model

| member | source | states |
|---|---|---|
| FileUpload.UniversalNewlines | app/file_upload.py:25 | text-mode reading leaves no "\r", never lengthens the text, and keeps the counts of commas and tabs |
| FileUpload.UniversalNewlinesLines | app/file_upload.py:25 | the "\n"-separated lines of the converted text are exactly the lines of the raw text with "\r\n", a lone "\r" and "\n" each ending one line, so no line is merged, split or altered |
| FileUpload.Sample | app/file_upload.py:27 | the sample is a prefix of the text: the whole text when it has at most 2048 characters, otherwise exactly its first 2048 |
| FileUpload.ChooseDelimiter | app/file_upload.py:28 | the delimiter is a comma exactly when the sample has at least as many commas as tabs, and a tab otherwise |
| FileUpload.NoTabMeansComma | app/file_upload.py:28 | a sample without a tab, including one with no comma either, selects the comma |
| FileUpload.FieldMapLastWins | app/file_upload.py:35 | a normalised key is in the field map exactly when some header normalises to it, and it maps to the last such header |
| FileUpload.KeyMapLastWins | app/file_upload.py:35 | in the dict comprehension a key is present exactly when it occurs, and it maps to the value of its last occurrence |
| FileUpload.DateKey | app/file_upload.py:37 | the date key is the "date" entry when there is one, else the "timestamp" entry, and absent exactly when neither exists |
| FileUpload.DateColumnPreference | app/file_upload.py:35-37 | the date column is the last header normalising to "date", else the last one normalising to "timestamp", else none |
| FileUpload.RowRecord | app/file_upload.py:46-53 | the row raises exactly when the review lookup, or the date lookup when there is a date column, meets a short row's None; otherwise its outcome is that of the two looked-up values (the empty string for an absent key or no date column), and a kept row's review and date are both stripped and non-empty |
| FileUpload.StrippedRecord | app/file_upload.py:46-53 | a row whose stripped review is blank is skipped; otherwise its record holds the stripped review and the stripped date, or the fallback date when that is blank |
| FileUpload.ReadRow | app/file_upload.py:46-53 | one loop pass returns exactly the row's outcome: its record, a skip, or the exception a short row raises |
| FileUpload.CollectRows | app/file_upload.py:43-53 | the row loop returns exactly the kept records in row order, or the failure once a row raises |
| FileUpload.SaveAndParseCsv | app/file_upload.py:24-60 | the method returns exactly the parse of the decoded upload; a failed decoding gives "Invalid CSV format or encoding issue." |
| FileUpload.ParseRows | app/file_upload.py:31-60 | the column lookup and the row loop return exactly the records of the kept rows; a row a cell lookup raises on gives the invalid-CSV error; no kept row gives "No valid reviews found." |
| FileUpload.MissingReviewColumn | app/file_upload.py:39-57 | with no header normalising to "review", the parse fails with the generic invalid-CSV error, because the column error is re-raised inside the `try` |
| FileUpload.ParsedRecordsWellFormed | app/file_upload.py:46-60 | a successful parse is a non-empty list whose records all have a stripped, non-empty review and date |
| FileUpload.ParseKeepsRowOrder | app/file_upload.py:43-53 | the k-th record is the record of the k-th kept row, so rows keep their order and blank-review rows are dropped |
| FileUpload.AllBlankReviews | app/file_upload.py:59-60 | when every row has a blank review, the parse fails with "No valid reviews found." |
| CsvRows.Fields | app/file_upload.py:31 | an empty line has no fields; otherwise the fields joined by the delimiter give the line back, and no field holds the delimiter |
| CsvRows.ReadTable | app/input_handler.py:33 | there is no header exactly when there is no line; otherwise the header is the fields of the first line and the rows are read from the lines after it, fewer than the lines |
| CsvRows.DataRows | app/input_handler.py:41 | there are at most as many rows as lines, no row is empty, and lines with no empty one give one row per line |
| CsvRows.FilledLines | app/input_handler.py:41 | the positions of the non-empty lines: each is in range and names a non-empty line, they increase, and every non-empty line is among them |
| CsvRows.DataRowsFollowLines | app/input_handler.py:41 | the k-th row is the fields of the k-th non-empty line, so `DictReader` skips exactly the empty lines and keeps the others in order |
| CsvRows.Get | app/input_handler.py:43 | `row.get(key)` is absent exactly when the key is not a header, is the field under the key's last header position when the row reaches it, and is None for a shorter row |
| CsvRows.GetOr | app/file_upload.py:46-47 | `row.get(key, "")` is None exactly for a short row's rest value; an absent key gives the default, and a present one the field's text |
| CsvRows.NormalizeHeaderIsLowerStrip | app/file_upload.py:35 | `lower()` then `strip()` equals strip-then-lower on a header |
| InputHandler.ValidateSingleReview | app/input_handler.py:8-14 | validation fails with 400 "Review text cannot be empty." exactly for empty or whitespace-only text, and otherwise returns the text with its edge whitespace stripped, which is non-empty |
| InputHandler.ValidateSingleReviewIdempotent | app/input_handler.py:12-14 | a validated review validates again to itself |
| InputHandler.ValidatorsCompared | app/input_handler.py:12-14 | every text `validate_review` accepts is accepted by `validate_single_review` |
| InputHandler.ShortReviewAccepted | app/input_handler.py:12-14 | a stripped review shorter than 10 characters passes `validate_single_review` unchanged but fails `validate_review` |
| InputHandler.Extension | app/input_handler.py:24 | the extension is empty or a suffix of the name that starts with its only dot |
| InputHandler.ComponentStart | app/input_handler.py:24 | the last path component starts just after the last "/", and holds no "/" |
| InputHandler.ExtensionOfName | app/input_handler.py:24 | a name whose last component has a stem that is not only dots, followed by a dot and a suffix free of dots and slashes, has that dot and suffix as its extension |
| InputHandler.CsvNameAccepted | app/input_handler.py:24-28 | every such stem followed by ".csv" passes the extension check |
| InputHandler.DotFileRejected | app/input_handler.py:24-28 | the name ".csv" has no extension and is rejected |
| InputHandler.UpperCaseExtensionAccepted | app/input_handler.py:24-28 | "x.CSV" has the extension ".CSV" and is accepted after lower-casing |
| InputHandler.ReviewValue | app/input_handler.py:43 | `row.get("review") or row.get("Review") or ""`: the "review" field when it is present and non-empty, else the "Review" field when that is present and non-empty, else the empty string |
| InputHandler.ToHttp | app/input_handler.py:27-56 | only the extension check and the decoding check reach the caller as 400; every failure inside the `try` becomes 500 |
| InputHandler.ProcessBulkReviews | app/input_handler.py:18-56 | the method returns the bulk reader's result: the stripped reviews of the rows in order, or the error for the bad extension, bad encoding, missing header, missing column or no reviews |
| InputHandler.RowReview | app/input_handler.py:43-46 | a row contributes a review exactly when its review value is not all whitespace, and the review is then that value stripped, non-empty |
| InputHandler.EmptyRowNoReview | app/input_handler.py:43-46 | a row with no fields contributes nothing |
| InputHandler.ReadReviews | app/input_handler.py:40-46 | the loop returns exactly the contributed reviews of the rows, in row order |
| InputHandler.PresentWellFormed | app/input_handler.py:43-46 | every returned review is stripped and non-empty |
| InputHandler.PresentKeepsOrder | app/input_handler.py:41-46 | the k-th review comes from the k-th contributing row |
| InputHandler.NoExactKeyNoReviews | app/input_handler.py:43 | with no header exactly "review" or "Review", no row contributes a review |
| InputHandler.NormalisedOnlyHeader | app/input_handler.py:36-49 | a header that only normalises to "review", such as " REVIEW ", passes the column check and then fails with no reviews |
| InputHandler.MissingColumnExactly | app/input_handler.py:36-38 | the missing-column error comes exactly when no header normalises to "review" |
| InputHandler.EmptyFileHasNoHeader | app/input_handler.py:33-36 | an empty CSV file fails on the missing header and not on the column check |
| InputHandler.BulkReviewsFromLines | app/input_handler.py:32-51 | the k-th review of a successful read is the review of a line after the header, those lines increase, and every line after the header that contributes a review is among them |
| InputHandler.TableReviews | app/input_handler.py:33-46 | `BulkReviewsFromLines` on the lines of the file: the reviews read from the rows are those of distinct, increasing lines after the header, and no contributing line is missed |
| InputHandler.BulkReviewsWellFormed | app/input_handler.py:40-51 | a successful read is non-empty, and every review in it is stripped and non-empty |
| InputHandler.ProcessDocxFile | app/input_handler.py:60-64 | every DOCX upload fails with status 501 |
| Utils.ValidateReview | app/utils.py:3-10 | a review is valid exactly when its stripped text has at least 10 characters |
| Utils.Collapse | app/utils.py:18 | every whitespace run becomes one plain space: the result is single-spaced, empty exactly for empty input, and starts with whitespace exactly when the input does |
| Utils.CleanText | app/utils.py:12-20 | the cleaned text has no edge whitespace, is single-spaced, and keeps the input's non-whitespace characters in order |
| Utils.CleanTextOfClean | app/utils.py:17-19 | clean text is its own clean-up |
| Utils.CleanTextIdempotent | app/utils.py:17-19 | cleaning twice is cleaning once |
| Utils.CleanTextNoBreaks | app/utils.py:17-19 | cleaned text holds no newline and no tab, and "" cleans to "" |
| Utils.CleanTextIsJoinedWords | app/utils.py:17-19 | `clean_text(s)` equals the words of `s` joined by single spaces |
| Ratings.FirstNumber | app/summarizer.py:91 | the match is the leftmost digit run with its greedy optional "." fraction, and is absent exactly when the text has no digit |
| Ratings.RoundToTenths | app/summarizer.py:94 | a number with no fraction or a one-digit fraction is kept exactly in tenths |
| Ratings.HalfEven | app/summarizer.py:94 | a quotient is rounded to the nearest integer, and a tie goes to the even neighbour |
| Ratings.ParseFirstNumber | app/summarizer.py:84-97 | the rating is "N/A" exactly when the text holds no digit |
| Ratings.ParseRatingStr | app/summarizer.py:56 | parsing `str()` of a rating gives the rating back, so re-parsing a reply's rating changes nothing |
| OllamaHandler.TryParseRating | app/ollama_handler.py:70-85 | the rating is "N/A" exactly when the value has no digit, and always for the empty string |
| OllamaHandler.TryParseRatingAgrees | app/ollama_handler.py:75-85 | the helper in this file agrees with the one in the summarizer on every string |
| OllamaHandler.SummarySearch | app/ollama_handler.py:37 | a found span is the case-insensitive, lazy match of "summary:" plus whitespace and a group running to the next newline or the end, at the first tag that has a character after it; none is found exactly when no such tag exists |
| OllamaHandler.SummaryMatchUnique | app/ollama_handler.py:37 | at most one span satisfies the summary pattern |
| OllamaHandler.ExtractedSummaryOneLine | app/ollama_handler.py:37-40 | a found summary is stripped and holds no newline |
| OllamaHandler.FirstFrom | app/ollama_handler.py:37-38 | the result is the leftmost position that satisfies the pattern, and there is none only when no position in range does |
| OllamaHandler.MatchAt | app/ollama_handler.py:38 | the pattern matches at a tag exactly when a digit or a dot follows the tag's whitespace; the group is then the whole `[0-9.]` run, which is non-empty |
| OllamaHandler.TagSearch | app/ollama_handler.py:38 | the search returns the match at the first tag that qualifies, and none exactly when no tag qualifies |
| OllamaHandler.RatingSearch | app/ollama_handler.py:38 | the match is the first qualifying tag and its group is non-empty; there is none exactly when no tag qualifies |
| OllamaHandler.ExtractRating | app/ollama_handler.py:38-46 | without a rating match the rating is "N/A"; with one, it is the first number of the group |
| OllamaHandler.GroupRating | app/ollama_handler.py:41-46 | on a `[0-9.]` group, stripping and the empty-string guard change nothing: the rating is the first number of the group |
| OllamaHandler.DotsOnlyRating | app/ollama_handler.py:38-46 | a group made only of dots gives "N/A" |
| OllamaHandler.SummarizeWithOllama | app/ollama_handler.py:4-67 | the reply echoes the review with engine "ollama". A timeout gives the timeout summary and "N/A". Any other failure gives the error summary, "N/A" and the message, and only that case has an `error` key. Generated text gives the extracted summary and rating |
| OllamaHandler.ReplyDependsOnOutput | app/ollama_handler.py:21-67 | two services that answer the prompt alike give the same reply |
| Summarizer.SummarizeReview | app/summarizer.py:29-61 | the fallback path returns exactly the Ollama reply: re-parsing its rating and reading back its summary change nothing |
| LineScan.ScanFails | app/summarizer.py:71-75 | a line scan raises exactly when some line's action raises |
| LineScan.ScanLastWins | app/summarizer.py:71-75 | a scan that does not raise ends with the value of the last line that sets each field, or with that field's initial value |
| Summarizer.LineAction | app/summarizer.py:71-75 | a line sets the summary exactly when it starts with "summary:" case-insensitively. Otherwise it sets the rating when it contains "predicted rating". Such a line without a colon raises, and any other line changes nothing |
| Summarizer.ReadLine | app/summarizer.py:72-75 | one loop pass raises exactly when the line's action raises, and otherwise applies that action to the two variables |
| Summarizer.ScanLines | app/summarizer.py:68-75 | the loop returns exactly the line scan of the output's lines from the defaults |
| Summarizer.ParseGraniteOutput | app/summarizer.py:64-81 | the method returns the parsed output, with engine "granite", or the IndexError |
| Summarizer.GraniteLastWins | app/summarizer.py:68-79 | the summary is the last summary line's value; the rating is parsed from the last rating line's value; an unset summary is "Could not extract summary" and an unset rating is "N/A" |
| Summarizer.GraniteRaises | app/summarizer.py:71-75 | parsing raises exactly when some summary or rating line has no colon |
| Summarizer.NoValueLinesDefaults | app/summarizer.py:68-81 | output with no summary or rating line gives the defaults and "N/A" |
| GraniteHandler.StrippedPromptNonEmpty | app/granite_handler.py:31-39 | the stripped prompt is never empty |
| GraniteHandler.EchoRemoved | app/granite_handler.py:58 | a completion that starts with the stripped prompt is treated as if the prompt were absent |
| GraniteHandler.LineAction | app/granite_handler.py:63-66 | a line mentioning "summary" sets the summary. Otherwise, a line mentioning "rating" sets the rating. Either kind without a colon raises, and other lines change nothing |
| GraniteHandler.ReadLine | app/granite_handler.py:63-66 | one loop pass raises exactly when the line's action raises, and otherwise applies it |
| GraniteHandler.ScanLines | app/granite_handler.py:61-66 | the loop returns exactly the line scan of the completion lines from "Summary not found." and "N/A" |
| GraniteHandler.SummarizeAndRateWithGranite | app/granite_handler.py:27-81 | the method returns the reply built from the inference outcome and the line scan |
| GraniteHandler.ReviewEchoed | app/granite_handler.py:68-80 | every reply echoes the review |
| GraniteHandler.ErrorReply | app/granite_handler.py:64-80 | the reply has an error exactly when inference fails or some mentioning line has no colon, and then carries "Error occurred." and "N/A" |
| GraniteHandler.LastLineWins | app/granite_handler.py:61-72 | without an error, the summary and the rating are the values of the last lines that set them, or "Summary not found." and "N/A" |
| RatingPredictor.PredictRating | app/rating_predictor.py:1-26 | the rating is always 2, 3 or 4, so within 1 to 5. It is 4 exactly for positive-only text and 2 exactly for negative-only text. Any neutral keyword, or positive and negative keywords together, gives 3 |
| App.RoundHalfEven | app/main.py:54 | `round` rounds to the nearest integer and sends ties to the even one |
| App.HalfRoundsToEven | app/main.py:54 | 4.5 and 3.5 round to 4, 4.4 to 4 and 4.6 to 5 |
| App.Stars | app/main.py:54 | the stars fail exactly for "N/A"; otherwise they are that many star glyphs, with the rating rounded half to even |
| App.SingleSummary | app/main.py:46-55 | the response echoes the cleaned review and carries the summary and rating of the Ollama reply, the review's sentiment and the star string of that rating; an unrated reply fails |
| App.SummarizeText | app/main.py:43-59 | every failure is 500 "Summarization failed.". Failure happens exactly for whitespace-only text or an unrated reply. Otherwise the response carries the stripped review, the reply's summary and rating, the sentiment and the star string of that rating |
| App.SentimentNeverFailsSingle | app/main.py:46-59 | the sentiment label never decides whether `/summarize` succeeds |
| App.BatchError | app/main.py:111-113 | a batch failure is status 500 with "Batch summarization failed: " and the exception text |
| App.EntryDate | app/main.py:75-79 | an empty or whitespace date becomes today's date, and any other date is kept |
| App.EntryRow | app/main.py:73-92 | a row fails exactly when its review is unrated, and then with the rounding TypeError. Otherwise it keeps the review, the entry date, the review's sentiment, the summary and rating of the Ollama reply, and the star string of that rating |
| App.SummarizeEntry | app/main.py:74-92 | the loop body returns exactly the row of its entry |
| App.SummarizeEntries | app/main.py:72-92 | the loop returns exactly the rows of its entries in order, or the first entry's failure |
| App.SummarizeAllReviews | app/main.py:64-113 | the method returns the batch response: the rows of the parsed records, or a 500 for the parse error, for no records, or for an unrated review |
| App.GatherAll | app/main.py:72-92 | without a failure, there is one row per entry, in order |
| App.GatherFails | app/main.py:72-92 | the loop fails exactly when some entry fails |
| App.GatherFailsWith | app/main.py:83-92 | a failing loop reports the rounding TypeError, the only fault a row can have |
| App.BatchFollowsRecords | app/main.py:72-109 | a successful batch has status "success", `total_reviews` equal to the row count and to the record count, and one row per parsed record in order. Each row keeps its record's review, keeps its record's date (a parsed date is never blank), and carries that review's sentiment, the summary and rating of its Ollama reply and the star string of that rating |
| App.RowsFollowRecords | app/main.py:72-109 | `BatchFollowsRecords` on well-formed records: one row per record in order, with its review, date, sentiment, Ollama summary and rating, and the stars of that rating |
| App.UnratedFailsBatch | app/main.py:83-113 | one unrated review fails the whole batch with 500 "Batch summarization failed: type str doesn't define __round__ method" |
| App.SentimentNeverFailsBatch | app/main.py:82-113 | the sentiment labels never decide whether the batch succeeds |

## Left out

- The upload directory, writing the upload to `uploads/`, and writing `output/summaries.csv` are not modelled; they are file I/O. Only the output column order is kept, as `App.OutputColumns`.
- The `print` logging, the FastAPI routing, CORS, static mounts and templates are not modelled, and neither are model loading and the model cache download in app/summarizer.py and app/granite_handler.py. They have no effect on the values the endpoints return.
- The Ollama HTTP request, the Granite tokeniser and generator, and IBM Watson sentiment are not modelled; they are external services and become function parameters. app/ibm_sentiment.py is not part of this model.
- UTF-8 decoding is not modelled; it is byte-level I/O, so an upload is its decoded text or `None`. A missing file name (`None`) is not modelled either.
- CSV quoting, escaping and quoted newlines are not modelled. Records are split on the delimiter only, which is what `csv.DictReader` does for unquoted files whose fields stay within its field limit.
- CsvRows.Fields: the `csv` module's limit of 131072 characters per field is not modelled. A longer field makes the reader raise; `save_and_parse_csv` then fails with "Invalid CSV format or encoding issue." and `process_bulk_reviews` with 500 "File processing error: field larger than field limit (131072)". FileUpload.ParseRows and InputHandler.ProcessBulkReviews accept such files instead.
- Ratings.RatingStr: `str()` of a rating is written as its tenths in fixed-point form. Python's `str(float)` switches to exponent form from 1e16 on ("1e+16"), and a float keeps only 53 bits, so digits are lost on huge ratings.
- Ratings.ParseRatingStr: the round trip is proved for the fixed-point text only. On a rating of 1e16 or more, Python re-parses "1e+16" and gets the leading digit, 1.0.
- Summarizer.SummarizeReview: the re-parse of `str(result["predicted_rating"])` is proved to change nothing, which holds only for ratings below 1e16 in Python; larger ratings from the Ollama reply would be re-read from their exponent form.
- Whitespace, digits and case are ASCII only. Unicode `isspace`, `\d`, `\s`, `lower()` and `re.IGNORECASE` on non-ASCII text are not modelled.
- Ratings are exact decimals in tenths. The binary floating-point error that `float` then `round(x, 1)` can add for long fractions is not modelled, and neither is the float overflow of huge numbers. The `except` around `float()` cannot be reached, because every match converts.
- `int(round(x))` is exact half-to-even on tenths. Python's float-based rounding is not modelled.
- `os.path.splitext` is modelled with POSIX path rules only.
- InputHandler.ValidateSingleReview: a `None` review is not modelled; its only caller, app/main.py:45, passes the form string.
- The `isinstance(value, str)` branches of both `try_parse_rating` helpers are not modelled. Every caller passes a string.
- Summarizer.SummarizeReview: the Granite attempt in `summarize_review` always raises before it does anything, and only the fallback is modelled. The update of the result dictionary in place is modelled as a value update. Its "Summary not found" default is never used, because the key is always present.
- App.SummarizeAllReviews: the `if not parsed_reviews` check cannot fail after a successful parse. It is kept in the method and proved harmless; it is not stated as a separate property.
- static/app.js, the browser front end, is not part of this model.
