/** The bulk employee upload dialog: a chosen CSV (or Excel-typed) file is
    read as text into records, every record is checked for its required
    fields and its e-mail format, and upload is allowed only for a file
    without errors. */
module EmployeeUpload {
  import opened Base
  import opened Csv

  /** A file picked in the dialog: its MIME type and its text. */
  datatype SelectedFile = SelectedFile(mimeType: string, contents: string)

  const CsvType := "text/csv"
  const XlsxType := "application/vnd.openxmlformats-officedocument.spreadsheetml.sheet"

  predicate AcceptedType(mimeType: string) {
    mimeType == CsvType || mimeType == XlsxType
  }

  /** An entry of the dialog's error list. */
  datatype UploadError =
    | InvalidFile
    | MissingField(row: nat, field: string)
    | InvalidEmailFormat(row: nat)

  function Message(e: UploadError): string {
    match e
    case InvalidFile => "Please upload a valid CSV or Excel file"
    case MissingField(n, f) => "Row " + Text.NatToString(n) + ": Missing " + f
    case InvalidEmailFormat(n) => "Row " + Text.NatToString(n) + ": Invalid email format"
  }

  const RequiredFields: seq<string> := ["firstName", "lastName", "email", "department", "position"]

  // ------------------------------------------------------- e-mail format

  predicate IsLetter(c: char) { 'a' <= c <= 'z' || 'A' <= c <= 'Z' }

  predicate IsDigit(c: char) { '0' <= c <= '9' }

  /** `[A-Z0-9._%+-]` under the `i` flag. */
  predicate LocalChar(c: char) {
    IsLetter(c) || IsDigit(c) || c == '.' || c == '_' || c == '%' || c == '+' || c == '-'
  }

  /** `[A-Z0-9.-]` under the `i` flag. */
  predicate DomainChar(c: char) {
    IsLetter(c) || IsDigit(c) || c == '.' || c == '-'
  }

  /** `s` matches the pattern with the '@' at `at` and the '.' before the
      top-level domain at `dot`. */
  predicate EmailShapeAt(s: string, at: nat, dot: nat) {
    && 0 < at && at + 1 < dot && dot + 3 <= |s|
    && s[at] == '@' && s[dot] == '.'
    && (forall i :: 0 <= i < at ==> LocalChar(s[i]))
    && (forall i :: at < i < dot ==> DomainChar(s[i]))
    && (forall i :: dot < i < |s| ==> IsLetter(s[i]))
  }

  /** `/^[A-Z0-9._%+-]+@[A-Z0-9.-]+\.[A-Z]{2,}$/i.test(s)`. */
  function EmailFormat(s: string): (matches: bool)
    ensures matches ==> |s| >= 6 && '@' in s && s[0] != '@'
    ensures matches ==> IsLetter(s[|s| - 2]) && IsLetter(s[|s| - 1])
  {
    exists at, dot :: 0 <= at < |s| && 0 <= dot < |s| && EmailShapeAt(s, at, dot)
  }

  /** Addresses the pattern accepts, whatever the letter case. */
  lemma EmailFormatAccepts()
    ensures EmailFormat("a@b.co")
    ensures EmailFormat("Jo.D@Ex.DE")
  {
    assert EmailShapeAt("a@b.co", 1, 3);
    assert EmailShapeAt("Jo.D@Ex.DE", 4, 7);
  }

  /** Texts the pattern refuses: a one-letter top-level domain, and no '@'. */
  lemma EmailFormatRejects()
    ensures !EmailFormat("a@b.c")
    ensures !EmailFormat("ab.co")
  {
    assert forall i :: 0 <= i < 5 ==> "ab.co"[i] != '@';
  }

  /** Any non-empty local part, domain and top-level domain of at least two
      letters, joined by '@' and '.', is accepted. */
  lemma EmailFormatOfParts(local: string, domain: string, tld: string)
    requires |local| > 0 && forall i :: 0 <= i < |local| ==> LocalChar(local[i])
    requires |domain| > 0 && forall i :: 0 <= i < |domain| ==> DomainChar(domain[i])
    requires |tld| >= 2 && forall i :: 0 <= i < |tld| ==> IsLetter(tld[i])
    ensures EmailFormat(local + "@" + domain + "." + tld)
  {
    var s := local + "@" + domain + "." + tld;
    var at, dot := |local|, |local| + 1 + |domain|;
    assert forall i :: 0 <= i < at ==> s[i] == local[i];
    assert forall i :: at < i < dot ==> s[i] == domain[i - at - 1];
    assert forall i :: dot < i < |s| ==> s[i] == tld[i - dot - 1];
    assert EmailShapeAt(s, at, dot);
  }

  /** No text without an '@' is accepted. */
  lemma NoAtRejected(s: string)
    requires '@' !in s
    ensures !EmailFormat(s)
  {
  }

  /** No text whose top-level domain has fewer than two characters (a '.'
      last or next to last) is accepted. */
  lemma ShortTopLevelDomainRejected(s: string)
    requires |s| >= 2 && (s[|s| - 1] == '.' || s[|s| - 2] == '.')
    ensures !EmailFormat(s)
  {
  }

  // ----------------------------------------------------------- validation

  /** The error for a missing field of record `n`. */
  function MissingOf(n: nat, field: string): UploadError {
    MissingField(n, field)
  }

  /** The format error of a record: only for a present, non-empty e-mail. */
  function EmailErrors(row: Record, n: nat): (errors: seq<UploadError>)
    ensures |errors| <= 1
    ensures forall e :: e in errors ==> e == InvalidEmailFormat(n)
    ensures FieldMissing(row, "email") ==> errors == []
  {
    if !FieldMissing(row, "email") && !EmailFormat(row["email"].value) then [InvalidEmailFormat(n)] else []
  }

  /** The errors of record `n`: at most six, all numbered `n`, one per
      missing required field, and a format error exactly when the e-mail
      is present and malformed. */
  function RowErrors(row: Record, n: nat): (errors: seq<UploadError>)
    ensures |errors| <= 6
    ensures forall e :: e in errors ==> !e.InvalidFile? && e.row == n
    ensures forall f :: MissingField(n, f) in errors <==> f in RequiredFields && FieldMissing(row, f)
    ensures InvalidEmailFormat(n) in errors <==> !FieldMissing(row, "email") && !EmailFormat(row["email"].value)
  {
    MissingErrorsExact(row, n, RequiredFields, MissingOf);
    MissingErrors(row, n, RequiredFields, MissingOf) + EmailErrors(row, n)
  }

  /** The errors of all records, record after record; the last is numbered
      `|rows|`. */
  function AllErrors(rows: seq<Record>): (errors: seq<UploadError>)
    ensures |errors| <= 6 * |rows|
  {
    if rows == [] then [] else AllErrors(rows[..|rows| - 1]) + RowErrors(rows[|rows| - 1], |rows|)
  }

  /** `validateData`: a loop over the records, each checked by
      `CheckRecord`. */
  method ValidateData(data: seq<Record>) returns (errors: seq<UploadError>)
    ensures errors == AllErrors(data)
  {
    errors := [];
    for index := 0 to |data|
      invariant errors == AllErrors(data[..index])
    {
      assert data[..index + 1][..index] == data[..index];
      var rowErrors := CheckRecord(data[index], index + 1);
      errors := errors + rowErrors;
    }
    assert data[..|data|] == data;
  }

  /** The body of the record loop: the inner loop over the required fields,
      then the e-mail format check. */
  method CheckRecord(row: Record, n: nat) returns (rowErrors: seq<UploadError>)
    ensures rowErrors == RowErrors(row, n)
  {
    rowErrors := [];
    for k := 0 to |RequiredFields|
      invariant rowErrors == MissingErrors(row, n, RequiredFields[..k], MissingOf)
    {
      var field := RequiredFields[k];
      assert RequiredFields[..k + 1][..k] == RequiredFields[..k];
      if FieldMissing(row, field) {
        rowErrors := rowErrors + [MissingField(n, field)];
      }
    }
    assert RequiredFields[..|RequiredFields|] == RequiredFields;
    if !FieldMissing(row, "email") && !EmailFormat(row["email"].value) {
      rowErrors := rowErrors + [InvalidEmailFormat(n)];
    }
  }

  /** A missing e-mail is reported as missing, never as malformed. */
  lemma MissingEmailIsNotMalformed(row: Record, n: nat)
    requires FieldMissing(row, "email")
    ensures MissingField(n, "email") in RowErrors(row, n)
    ensures InvalidEmailFormat(n) !in RowErrors(row, n)
  {
  }

  /** Errors carry row numbers between 1 and the number of records. */
  lemma {:induction false} AllErrorsNumbered(rows: seq<Record>)
    ensures forall e :: e in AllErrors(rows) ==> !e.InvalidFile? && 1 <= e.row <= |rows|
  {
    if rows != [] {
      AllErrorsNumbered(rows[..|rows| - 1]);
    }
  }

  /** A record set passes exactly when no record has an error. */
  lemma {:induction false} NoErrorsIffEveryRowPasses(rows: seq<Record>)
    ensures AllErrors(rows) == [] <==> forall i :: 0 <= i < |rows| ==> RowErrors(rows[i], i + 1) == []
  {
    if rows != [] {
      var init := rows[..|rows| - 1];
      NoErrorsIffEveryRowPasses(init);
      assert forall i :: 0 <= i < |init| ==> init[i] == rows[i];
    }
  }

  // ---------------------------------------------------------- the dialog

  /** Upload proceeds only with a file and an empty error list. */
  function CanUpload(file: Option<SelectedFile>, errors: seq<UploadError>): (can: bool)
    ensures can ==> file.Some? && InvalidFile !in errors
    ensures file.Some? && errors == [] ==> can
  {
    file.Some? && errors == []
  }

  class BulkEmployeeUpload {
    var file: Option<SelectedFile>
    var preview: seq<Record>
    var isUploading: bool
    var validationErrors: seq<UploadError>

    constructor()
      ensures file == None && preview == [] && !isUploading && validationErrors == []
    {
      file := None;
      preview := [];
      isUploading := false;
      validationErrors := [];
    }

    /** `handleFileChange` followed by the reader's `onload`: an accepted
        file is kept, parsed and validated; any other choice only replaces
        the error list, leaving the previous file and preview in place. */
    method HandleFileChange(selected: Option<SelectedFile>)
      modifies this
      ensures selected.Some? && AcceptedType(selected.value.mimeType) ==>
        && file == selected
        && preview == Records(Headers(selected.value.contents), DataLines(selected.value.contents))
        && validationErrors == AllErrors(preview)
      ensures !(selected.Some? && AcceptedType(selected.value.mimeType)) ==>
        && file == old(file) && preview == old(preview)
        && validationErrors == [InvalidFile]
      ensures isUploading == old(isUploading)
    {
      if selected.Some? && AcceptedType(selected.value.mimeType) {
        file := selected;
        var data := ParseRecords(selected.value.contents);
        preview := data;
        validationErrors := ValidateData(data);
      } else {
        validationErrors := [InvalidFile];
      }
    }

    /** `handleUpload`: the records handed to the (unimplemented) upload, or
        `None` when the guard returns early. */
    method HandleUpload() returns (uploaded: Option<seq<Record>>)
      modifies this
      ensures uploaded.Some? <==> CanUpload(file, validationErrors)
      ensures uploaded.Some? ==> uploaded.value == preview && !isUploading
      ensures uploaded.None? ==> isUploading == old(isUploading)
      ensures file == old(file) && preview == old(preview) && validationErrors == old(validationErrors)
    {
      if file.None? || |validationErrors| > 0 {
        return None;
      }
      isUploading := true;
      uploaded := Some(preview);
      isUploading := false;
    }
  }

  /** Choosing a file of another type always blocks upload. */
  lemma RejectedTypeBlocksUpload(previous: Option<SelectedFile>)
    ensures !CanUpload(previous, [InvalidFile])
  {
  }

  /** An accepted file can be uploaded exactly when none of its records has
      an error. */
  lemma AcceptedFileUploadIff(f: SelectedFile)
    ensures var rows := Records(Headers(f.contents), DataLines(f.contents));
      CanUpload(Some(f), AllErrors(rows)) <==> forall i :: 0 <= i < |rows| ==> RowErrors(rows[i], i + 1) == []
  {
    NoErrorsIffEveryRowPasses(Records(Headers(f.contents), DataLines(f.contents)));
  }
}
