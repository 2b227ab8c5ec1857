/** The bulk device upload dialog: a chosen CSV file is read into records,
    every record is checked for four required fields (no format checks),
    and upload is allowed only for a file without errors. */
module DeviceUpload {
  import opened Base
  import opened Csv

  /** A file picked in the dialog: its MIME type and its text. */
  datatype SelectedFile = SelectedFile(mimeType: string, contents: string)

  const CsvType := "text/csv"

  /** An entry of the dialog's error list. */
  datatype UploadError =
    | InvalidFile
    | MissingField(row: nat, field: string)

  function Message(e: UploadError): string {
    match e
    case InvalidFile => "Please upload a valid CSV file"
    case MissingField(n, f) => "Row " + Text.NatToString(n) + ": Missing " + f
  }

  const RequiredFields: seq<string> := ["type", "brand", "model", "serialNumber"]

  /** The error for a missing field of record `n`. */
  function MissingOf(n: nat, field: string): UploadError {
    MissingField(n, field)
  }

  /** The errors of record `n`: one per missing required field and no
      other, so at most four, each numbered `n`. */
  function RowErrors(row: Record, n: nat): (errors: seq<UploadError>)
    ensures |errors| <= 4
    ensures forall e :: e in errors ==> e.MissingField? && e.row == n
    ensures forall f :: MissingField(n, f) in errors <==> f in RequiredFields && FieldMissing(row, f)
  {
    MissingErrorsExact(row, n, RequiredFields, MissingOf);
    MissingErrors(row, n, RequiredFields, MissingOf)
  }

  /** The errors of all records, record after record; the last is numbered
      `|rows|`. */
  function AllErrors(rows: seq<Record>): (errors: seq<UploadError>)
    ensures |errors| <= 4 * |rows|
  {
    if rows == [] then [] else AllErrors(rows[..|rows| - 1]) + RowErrors(rows[|rows| - 1], |rows|)
  }

  /** `validateData`, with its loop over records and inner loop over the
      required fields. */
  method ValidateData(data: seq<Record>) returns (errors: seq<UploadError>)
    ensures errors == AllErrors(data)
  {
    errors := [];
    for index := 0 to |data|
      invariant errors == AllErrors(data[..index])
    {
      var row := data[index];
      var rowErrors: seq<UploadError> := [];
      for k := 0 to |RequiredFields|
        invariant rowErrors == MissingErrors(row, index + 1, RequiredFields[..k], MissingOf)
      {
        var field := RequiredFields[k];
        assert RequiredFields[..k + 1][..k] == RequiredFields[..k];
        if FieldMissing(row, field) {
          rowErrors := rowErrors + [MissingField(index + 1, field)];
        }
      }
      assert RequiredFields[..|RequiredFields|] == RequiredFields;
      assert data[..index + 1][..index] == data[..index];
      errors := errors + rowErrors;
    }
    assert data[..|data|] == data;
  }

  /** A record set passes exactly when every record has all four fields. */
  lemma {:induction false} NoErrorsIffAllFieldsPresent(rows: seq<Record>)
    ensures AllErrors(rows) == [] <==>
      forall i, f :: 0 <= i < |rows| && f in RequiredFields ==> !FieldMissing(rows[i], f)
  {
    if rows != [] {
      var init := rows[..|rows| - 1];
      NoErrorsIffAllFieldsPresent(init);
      assert forall i :: 0 <= i < |init| ==> init[i] == rows[i];
      if RowErrors(rows[|rows| - 1], |rows|) != [] {
        var e := RowErrors(rows[|rows| - 1], |rows|)[0];
        assert e in RowErrors(rows[|rows| - 1], |rows|);
      }
    }
  }

  // ---------------------------------------------------------- the dialog

  /** Upload proceeds only with a file chosen and no error of any kind. */
  function CanUpload(file: Option<SelectedFile>, errors: seq<UploadError>): (can: bool)
    ensures can ==> file.Some? && InvalidFile !in errors
    ensures file.Some? && errors == [] ==> can
  {
    file.Some? && errors == []
  }

  class BulkDeviceUpload {
    var file: Option<SelectedFile>
    var preview: seq<Record>
    var isUploading: bool
    var validationErrors: seq<UploadError>

    constructor()
      ensures file == None && preview == [] && !isUploading && validationErrors == []
    {
      file := None;
      preview := [];
      isUploading := false;
      validationErrors := [];
    }

    /** `handleFileChange` followed by `parseCSV`'s `onload`: a 'text/csv'
        file is kept, parsed and validated; any other choice replaces the
        error list by the single file-type error and changes nothing else. */
    method HandleFileChange(selected: Option<SelectedFile>)
      modifies this
      ensures selected.Some? && selected.value.mimeType == CsvType ==>
        && file == selected
        && preview == Records(Headers(selected.value.contents), DataLines(selected.value.contents))
        && validationErrors == AllErrors(preview)
      ensures !(selected.Some? && selected.value.mimeType == CsvType) ==>
        && file == old(file) && preview == old(preview)
        && validationErrors == [InvalidFile]
      ensures isUploading == old(isUploading)
    {
      if selected.Some? && selected.value.mimeType == CsvType {
        file := selected;
        var data := ParseRecords(selected.value.contents);
        preview := data;
        validationErrors := ValidateData(data);
      } else {
        validationErrors := [InvalidFile];
      }
    }

    /** `handleUpload`: the records handed to the (unimplemented) upload, or
        `None` when the guard returns early. */
    method HandleUpload() returns (uploaded: Option<seq<Record>>)
      modifies this
      ensures uploaded.Some? <==> CanUpload(file, validationErrors)
      ensures uploaded.Some? ==> uploaded.value == preview && !isUploading
      ensures uploaded.None? ==> isUploading == old(isUploading)
      ensures file == old(file) && preview == old(preview) && validationErrors == old(validationErrors)
    {
      if file.None? || |validationErrors| > 0 {
        return None;
      }
      isUploading := true;
      uploaded := Some(preview);
      isUploading := false;
    }
  }

  /** Choosing a file that is not 'text/csv' blocks upload. */
  lemma RejectedTypeBlocksUpload(previous: Option<SelectedFile>)
    ensures !CanUpload(previous, [InvalidFile])
  {
  }
}
