/** The CSV reading shared by both bulk-upload dialogs: the text is cut into
    lines at '\n', the first line names the columns, blank lines are
    skipped, and every other line becomes a record pairing each trimmed
    header with the trimmed value in the same column. No quoting is
    understood: every ',' separates two columns. */
module Csv {
  import opened Base
  import opened Text

  /** A parsed row: trimmed header to trimmed value, `None` where the line
      has fewer columns than there are headers (`undefined` in the source). */
  type Record = map<string, Option<string>>

  /** The value a row has in column `j`. */
  function ColumnValue(values: seq<string>, j: nat): Option<string> {
    if j < |values| then Some(Trim(values[j])) else None
  }

  /** The record built by assigning, for the first `k` headers in order,
      `entry[header.trim()] = values[index]?.trim()`; a later header with the
      same trimmed name overwrites an earlier one. */
  function RecordOf(headers: seq<string>, values: seq<string>, k: nat): Record
    requires k <= |headers|
  {
    if k == 0 then map[]
    else RecordOf(headers, values, k - 1)[Trim(headers[k - 1]) := ColumnValue(values, k - 1)]
  }

  /** The keys of a record are the trimmed headers. */
  lemma {:induction false} RecordOfKeys(headers: seq<string>, values: seq<string>, k: nat)
    requires k <= |headers|
    ensures RecordOf(headers, values, k).Keys == set j | 0 <= j < k :: Trim(headers[j])
  {
    if k > 0 {
      RecordOfKeys(headers, values, k - 1);
      var prev := set j | 0 <= j < k - 1 :: Trim(headers[j]);
      var all := set j | 0 <= j < k :: Trim(headers[j]);
      forall x | x in all ensures x in prev || x == Trim(headers[k - 1]) {
        var j :| 0 <= j < k && x == Trim(headers[j]);
        if j < k - 1 { assert x in prev; }
      }
      assert all == prev + {Trim(headers[k - 1])};
    }
  }

  /** The value under a header is the one of the last column with that
      trimmed header. */
  lemma {:induction false} RecordOfValue(headers: seq<string>, values: seq<string>, k: nat, j: nat)
    requires j < k <= |headers|
    requires forall l :: j < l < k ==> Trim(headers[l]) != Trim(headers[j])
    ensures Trim(headers[j]) in RecordOf(headers, values, k)
    ensures RecordOf(headers, values, k)[Trim(headers[j])] == ColumnValue(values, j)
  {
    if j < k - 1 {
      RecordOfValue(headers, values, k - 1, j);
    }
  }

  /** The record of one data line. */
  function LineRecord(headers: seq<string>, line: string): Record {
    RecordOf(headers, Split(line, ','), |headers|)
  }

  /** A line that `line.trim() === ''` skips. */
  predicate IsBlankLine(line: string) {
    Trim(line) == ""
  }

  /** The records of a run of data lines, in order, blank lines skipped. */
  function Records(headers: seq<string>, lines: seq<string>): seq<Record> {
    if lines == [] then []
    else Records(headers, lines[..|lines| - 1])
         + (if IsBlankLine(lines[|lines| - 1]) then [] else [LineRecord(headers, lines[|lines| - 1])])
  }

  /** The number of non-blank lines. */
  function NonBlankCount(lines: seq<string>): nat {
    if lines == [] then 0
    else NonBlankCount(lines[..|lines| - 1]) + (if IsBlankLine(lines[|lines| - 1]) then 0 else 1)
  }

  /** The header line of a text: its first line split at ','. */
  function Headers(text: string): seq<string> {
    Split(Split(text, '\n')[0], ',')
  }

  /** The lines after the header line. */
  function DataLines(text: string): seq<string> {
    Split(text, '\n')[1..]
  }

  /** `parseFile` / `parseCSV`: the records of a text, as a loop over its
      lines with an inner loop over the headers. */
  method ParseRecords(text: string) returns (data: seq<Record>)
    ensures data == Records(Headers(text), DataLines(text))
  {
    var lines := Split(text, '\n');
    var headers := Split(lines[0], ',');
    data := [];
    for i := 1 to |lines|
      invariant data == Records(headers, lines[1..i])
    {
      RecordsStep(headers, lines, i);
      if Trim(lines[i]) == "" {
        continue;
      }
      var entry := EntryOf(headers, Split(lines[i], ','));
      data := data + [entry];
    }
    assert lines[1..|lines|] == lines[1..];
  }

  /** The inner loop of the parse: each header in turn gets the value in
      its column. */
  method EntryOf(headers: seq<string>, values: seq<string>) returns (entry: Record)
    ensures entry == RecordOf(headers, values, |headers|)
  {
    entry := map[];
    for index := 0 to |headers|
      invariant entry == RecordOf(headers, values, index)
    {
      entry := entry[Trim(headers[index]) := if index < |values| then Some(Trim(values[index])) else None];
    }
  }

  /** One more data line adds its record, unless it is blank. */
  lemma RecordsStep(headers: seq<string>, lines: seq<string>, i: nat)
    requires 1 <= i < |lines|
    ensures Records(headers, lines[1..i + 1])
            == Records(headers, lines[1..i]) + (if IsBlankLine(lines[i]) then [] else [LineRecord(headers, lines[i])])
  {
    assert lines[1..i + 1][..i - 1] == lines[1..i];
  }

  /** One record per non-blank line, each the record of a line of the input. */
  lemma {:induction false} RecordsCountAndOrigin(headers: seq<string>, lines: seq<string>)
    ensures |Records(headers, lines)| == NonBlankCount(lines) <= |lines|
    ensures forall r :: r in Records(headers, lines) ==>
              exists i :: 0 <= i < |lines| && !IsBlankLine(lines[i]) && r == LineRecord(headers, lines[i])
  {
    if lines != [] {
      var init := lines[..|lines| - 1];
      RecordsCountAndOrigin(headers, init);
      forall r | r in Records(headers, lines)
        ensures exists i :: 0 <= i < |lines| && !IsBlankLine(lines[i]) && r == LineRecord(headers, lines[i])
      {
        if r in Records(headers, init) {
          var i :| 0 <= i < |init| && !IsBlankLine(init[i]) && r == LineRecord(headers, init[i]);
          assert lines[i] == init[i];
        } else {
          assert r == LineRecord(headers, lines[|lines| - 1]);
        }
      }
    }
  }

  /** Without blank lines every line gives the record at its own position. */
  lemma {:induction false} RecordsWithoutBlankLines(headers: seq<string>, lines: seq<string>)
    requires forall i :: 0 <= i < |lines| ==> !IsBlankLine(lines[i])
    ensures |Records(headers, lines)| == |lines|
    ensures forall i :: 0 <= i < |lines| ==> Records(headers, lines)[i] == LineRecord(headers, lines[i])
  {
    if lines != [] {
      var init := lines[..|lines| - 1];
      var last := lines[|lines| - 1];
      forall i | 0 <= i < |init|
        ensures !IsBlankLine(init[i])
      {
        assert init[i] == lines[i];
      }
      RecordsWithoutBlankLines(headers, init);
      NonBlankLineAppends(headers, init, last);
      assert lines == init + [last];
      forall i | 0 <= i < |lines|
        ensures Records(headers, lines)[i] == LineRecord(headers, lines[i])
      {
        if i < |init| {
          assert lines[i] == init[i];
        }
      }
    }
  }

  /** A non-blank line appends its own record. */
  lemma NonBlankLineAppends(headers: seq<string>, init: seq<string>, last: string)
    requires !IsBlankLine(last)
    ensures Records(headers, init + [last]) == Records(headers, init) + [LineRecord(headers, last)]
  {
    assert (init + [last])[..|init|] == init;
  }

  /** A record pairs every header with the value in its column, `None` for
      a column the line does not reach; values beyond the last header are
      not kept. */
  lemma LineRecordColumns(headers: seq<string>, line: string, j: nat)
    requires j < |headers|
    requires forall l :: 0 <= l < |headers| && l != j ==> Trim(headers[l]) != Trim(headers[j])
    ensures var values := Split(line, ',');
      && Trim(headers[j]) in LineRecord(headers, line)
      && LineRecord(headers, line)[Trim(headers[j])] == (if j < |values| then Some(Trim(values[j])) else None)
  {
    RecordOfValue(headers, Split(line, ','), |headers|, j);
  }

  /** `!row[field]`: the field is absent, undefined or empty. */
  predicate FieldMissing(rec: Record, field: string) {
    field !in rec || rec[field] == None || rec[field] == Some("")
  }

  /** The missing-field errors of record `n` for the given fields, in field
      order, as both dialogs' inner loop pushes them; `missing(n, f)` is
      the dialog's error for field `f`. */
  function MissingErrors<E>(rec: Record, n: nat, fields: seq<string>, missing: (nat, string) -> E): (errors: seq<E>)
    ensures |errors| <= |fields|
  {
    if fields == [] then []
    else MissingErrors(rec, n, fields[..|fields| - 1], missing)
         + (if FieldMissing(rec, fields[|fields| - 1]) then [missing(n, fields[|fields| - 1])] else [])
  }

  /** Every missing-field error names a listed field the record lacks, and
      each such field gets its error. */
  lemma {:induction false} MissingErrorsExact<E>(rec: Record, n: nat, fields: seq<string>, missing: (nat, string) -> E)
    requires forall f, g :: missing(n, f) == missing(n, g) ==> f == g
    ensures forall e :: e in MissingErrors(rec, n, fields, missing) ==>
              exists f :: f in fields && FieldMissing(rec, f) && e == missing(n, f)
    ensures forall f :: missing(n, f) in MissingErrors(rec, n, fields, missing) <==> f in fields && FieldMissing(rec, f)
  {
    if fields != [] {
      var init := fields[..|fields| - 1];
      MissingErrorsExact(rec, n, init, missing);
      assert fields == init + [fields[|fields| - 1]];
    }
  }
}
