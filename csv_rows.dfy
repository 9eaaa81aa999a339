/**
 * What `csv.DictReader` yields for unquoted input, as both ingestion
 * paths (app/file_upload.py and app/input_handler.py) use it: the first
 * record is the header, empty records are skipped, and each row is read
 * back through the dictionary that `dict(zip(fieldnames, row))` builds;
 * headers are compared after `f.lower().strip()`.
 */
module CsvRows {
  import opened Base
  import opened Text

  /** One record of `csv.reader` on one line: an empty line gives [], any other the fields between delimiters. */
  function Fields(line: string, delim: char): (r: seq<string>)
    ensures line == [] <==> r == []
    ensures r != [] ==> Join(r, delim) == line
    ensures forall k :: 0 <= k < |r| ==> delim !in r[k]
  {
    if line == [] then []
    else
      JoinSplit(line, delim);
      Split(line, delim)
  }

  /** `reader.fieldnames` (None when there is no line at all) and the non-empty records after it. */
  datatype Table = Table(fieldnames: Option<seq<string>>, rows: seq<seq<string>>)

  /** The records after the header; `DictReader` skips the empty ones. */
  function DataRows(lines: seq<string>, delim: char): (rows: seq<seq<string>>)
    ensures |rows| <= |lines|
    ensures forall k :: 0 <= k < |rows| ==> rows[k] != []
    ensures (forall k :: 0 <= k < |lines| ==> lines[k] != []) ==> |rows| == |lines|
  {
    if lines == [] then []
    else
      var n := |lines| - 1;
      var f := Fields(lines[n], delim);
      DataRows(lines[..n], delim) + (if f == [] then [] else [f])
  }

  /** The positions of the non-empty lines, in increasing order. */
  function FilledLines(lines: seq<string>): (idx: seq<nat>)
    ensures forall k :: 0 <= k < |idx| ==> idx[k] < |lines| && lines[idx[k]] != []
    ensures forall k, l :: 0 <= k < l < |idx| ==> idx[k] < idx[l]
    ensures forall j :: 0 <= j < |lines| && lines[j] != [] ==> j in idx
  {
    if lines == [] then []
    else
      var n := |lines| - 1;
      var init := lines[..n];
      assert forall j :: 0 <= j < n ==> lines[j] == init[j];
      FilledLines(init) + (if lines[n] != [] then [n] else [])
  }

  /** The k-th record is the fields of the k-th non-empty line: file order is kept and empty lines are dropped. */
  lemma {:induction false} DataRowsFollowLines(lines: seq<string>, delim: char)
    ensures var rows := DataRows(lines, delim);
            var idx := FilledLines(lines);
            |rows| == |idx| && forall k :: 0 <= k < |rows| ==> rows[k] == Fields(lines[idx[k]], delim)
  {
    if lines != [] {
      var n := |lines| - 1;
      var init := lines[..n];
      DataRowsFollowLines(init, delim);
      var rows, idx := DataRows(lines, delim), FilledLines(lines);
      var rows0, idx0 := DataRows(init, delim), FilledLines(init);
      var f := Fields(lines[n], delim);
      assert rows == rows0 + (if f == [] then [] else [f]);
      assert idx == idx0 + (if lines[n] != [] then [n] else []);
      forall k | 0 <= k < |rows| ensures rows[k] == Fields(lines[idx[k]], delim) {
        if k < |rows0| {
          assert rows[k] == rows0[k] && idx[k] == idx0[k];
          assert lines[idx0[k]] == init[idx0[k]];
        }
      }
    }
  }

  function ReadTable(lines: seq<string>, delim: char): (t: Table)
    ensures t.fieldnames.None? <==> lines == []
    ensures |t.rows| < |lines| || lines == []
    ensures lines != [] ==> t.fieldnames == Some(Fields(lines[0], delim)) && t.rows == DataRows(lines[1..], delim)
    ensures lines == [] ==> t.rows == []
  {
    if lines == [] then Table(None, [])
    else Table(Some(Fields(lines[0], delim)), DataRows(lines[1..], delim))
  }

  /** What `row.get(key)` finds: no such key, the rest value None of a short row, or a field. */
  datatype Lookup = Absent | NoneValue | Value(text: string)

  /**
   * The value of `key` in the dictionary `DictReader` builds for `row`:
   * the field under the key's last occurrence in the header (later
   * columns overwrite earlier ones in `dict(zip(...))`), or None when the
   * row is too short to reach that column.
   */
  function Get(fieldnames: seq<string>, row: seq<string>, key: string): (r: Lookup)
    ensures r.Absent? <==> key !in fieldnames
    ensures r.Value? ==> LastIndex(fieldnames, key).Some? && LastIndex(fieldnames, key).value < |row|
                         && r.text == row[LastIndex(fieldnames, key).value]
    ensures r.NoneValue? ==> LastIndex(fieldnames, key).Some? && |row| <= LastIndex(fieldnames, key).value
  {
    match LastIndex(fieldnames, key)
    case None => Absent
    case Some(j) => if j < |row| then Value(row[j]) else NoneValue
  }

  /** `dict.get(key, "")` keeps an absent key apart from a None value: Some("") and None. */
  function GetOr(fieldnames: seq<string>, row: seq<string>, key: string, default: string): (r: Option<string>)
    ensures r.None? <==> Get(fieldnames, row, key).NoneValue?
    ensures Get(fieldnames, row, key).Absent? ==> r == Some(default)
    ensures Get(fieldnames, row, key).Value? ==> r == Some(Get(fieldnames, row, key).text)
  {
    match Get(fieldnames, row, key)
    case Absent => Some(default)
    case NoneValue => None
    case Value(v) => Some(v)
  }

  /** For a row at least as long as the header, every header key has a value. */
  lemma GetFullRow(fieldnames: seq<string>, row: seq<string>, key: string)
    requires |fieldnames| <= |row| && key in fieldnames
    ensures Get(fieldnames, row, key).Value?
  {
  }

  /** `field.lower().strip()`, computed as strip-then-lower, which gives the same text (`NormalizeHeaderIsLowerStrip`). */
  function NormalizeHeader(field: string): string {
    Lower(Strip(field))
  }

  lemma NormalizeHeaderIsLowerStrip(field: string)
    ensures NormalizeHeader(field) == Strip(Lower(field))
  {
    LowerStrip(field);
  }

  /** The normalised form of every header, in header order. */
  function Normalized(fields: seq<string>): (names: seq<string>)
    ensures |names| == |fields|
    ensures forall i :: 0 <= i < |fields| ==> names[i] == NormalizeHeader(fields[i])
  {
    seq(|fields|, i requires 0 <= i < |fields| => NormalizeHeader(fields[i]))
  }
}
