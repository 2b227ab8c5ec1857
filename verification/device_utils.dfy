/** The Excel device import: rows of the spreadsheet become device records,
    and a validation pass reports what is missing or unknown, row by row. */
module DeviceUtils {
  import opened Text

  /** The columns of a spreadsheet row that the import reads. */
  datatype DeviceUploadRow = DeviceUploadRow(
    peripheralType: string,   // 'Peripherie-Typ'
    computerNr: string,       // 'ComputerNR'
    brandModel: string,       // 'Marke/Modell'
    serialNumber: string)     // 'Serialnumber'

  datatype DeviceType = Laptop | Phone | Tablet | Monitor | Workstation | Other

  datatype DeviceStatus = Available | Assigned | Maintenance | Retired

  datatype ProcessedDevice = ProcessedDevice(
    deviceType: DeviceType,
    brand: string,
    model: string,
    serialNumber: string,
    deviceDomainId: string,
    status: DeviceStatus,
    notes: string)

  const ImportNote := "Imported from Excel"

  // ------------------------------------------------------ brand and model

  /** `field.split(' ', 1)[0]`: the text before the first space, or all of
      `field` when it has none. */
  function Brand(field: string): (brand: string)
    ensures ' ' !in brand
    ensures StartsWith(field, brand)
    ensures |brand| < |field| ==> field[|brand|] == ' '
    ensures ' ' !in field ==> brand == field
  {
    if field == [] || field[0] == ' ' then "" else [field[0]] + Brand(field[1..])
  }

  /** `field.substring(brand.length + 1)`: what follows the first space, or
      the empty string when there is none. With a space in the field,
      brand, a space and model give the field back. */
  function Model(field: string): (model: string)
    ensures ' ' in field ==> Brand(field) + " " + model == field
    ensures ' ' !in field ==> model == ""
  {
    var b := Brand(field);
    if |b| + 1 <= |field| then
      assert b == field[..|b|];
      assert field == field[..|b|] + [' '] + field[|b| + 1..];
      field[|b| + 1..]
    else ""
  }

  // ------------------------------------------------------- device types

  /** `mapDeviceType`: the lower-cased type looked up among the five known
      names; anything else is 'other'. */
  function MapDeviceType(t: string): (dt: DeviceType)
    ensures forall i :: 0 <= i < |ValidTypes| ==> (ToLower(t) == ValidTypes[i] <==> dt == KnownTypes[i])
    ensures dt == Other <==> ToLower(t) !in ValidTypes
  {
    var key := ToLower(t);
    if key == "laptop" then Laptop
    else if key == "phone" then Phone
    else if key == "tablet" then Tablet
    else if key == "monitor" then Monitor
    else if key == "workstation" then Workstation
    else Other
  }

  const ValidTypes: seq<string> := ["laptop", "phone", "tablet", "monitor", "workstation"]

  /** The type each name of `ValidTypes` maps to, position by position. */
  const KnownTypes: seq<DeviceType> := [Laptop, Phone, Tablet, Monitor, Workstation]

  /** `isValidDeviceType`: the lower-cased type is one of the five names.
      It agrees with the type map: a type is valid exactly when it maps to
      something other than 'other'. */
  function IsValidDeviceType(t: string): (valid: bool)
    ensures valid <==> MapDeviceType(t) != Other
  {
    ToLower(t) in ValidTypes
  }

  /** A lower-cased string never starts with an upper-case ASCII letter, so
      the capitalised keys of the type map are never looked up. */
  lemma CapitalisedKeysUnreachable(t: string)
    ensures ToLower(t) !in ["Laptop", "Phone", "Tablet", "Monitor", "Workstation"]
  {
    if t != [] {
      assert ToLower(t)[0] == LowerChar(t[0]);
    }
  }

  /** Every letter-case variant of one of the five names maps to that
      name's type, and two types equal up to case map alike. */
  lemma CaseVariantsMap(t: string, u: string)
    ensures forall i :: 0 <= i < |ValidTypes| ==> (ToLower(t) == ValidTypes[i] ==> MapDeviceType(t) == KnownTypes[i])
    ensures ToLower(t) == ToLower(u) ==> MapDeviceType(t) == MapDeviceType(u)
  {
  }

  /** 'other' itself is not a valid type. */
  lemma OtherIsInvalid()
    ensures !IsValidDeviceType("other")
    ensures MapDeviceType("other") == Other
  {
    assert ToLower("other") == "other";
    assert "other"[0] != "laptop"[0] && "other"[0] != "phone"[0] && "other"[0] != "tablet"[0]
      && "other"[0] != "monitor"[0] && "other"[0] != "workstation"[0];
  }

  /** The empty type is not valid. */
  lemma EmptyTypeIsInvalid()
    ensures !IsValidDeviceType("")
  {
  }

  // ----------------------------------------------------------- processing

  /** The record `processDeviceData` pushes for one row. */
  function ProcessRow(row: DeviceUploadRow): (d: ProcessedDevice)
    ensures d.status == Available && d.notes == ImportNote
    ensures d.serialNumber == row.serialNumber && d.deviceDomainId == row.computerNr
    ensures ' ' in row.brandModel ==> d.brand + " " + d.model == row.brandModel
    ensures ' ' !in d.brand
  {
    ProcessedDevice(MapDeviceType(row.peripheralType), Brand(row.brandModel), Model(row.brandModel),
                    row.serialNumber, row.computerNr, Available, ImportNote)
  }

  /** `processDeviceData`: one record per row, in row order. */
  method ProcessDeviceData(data: seq<DeviceUploadRow>) returns (processed: seq<ProcessedDevice>)
    ensures |processed| == |data|
    ensures forall i :: 0 <= i < |data| ==> processed[i] == ProcessRow(data[i])
  {
    processed := [];
    for i := 0 to |data|
      invariant |processed| == i
      invariant forall j :: 0 <= j < i ==> processed[j] == ProcessRow(data[j])
    {
      processed := processed + [ProcessRow(data[i])];
    }
  }

  // ----------------------------------------------------------- validation

  /** One message of `validateDeviceData`; `row` is the 1-based row number. */
  datatype RowError =
    | MissingDeviceType(row: nat)
    | MissingBrandModel(row: nat)
    | MissingSerialNumber(row: nat)
    | InvalidDeviceType(row: nat, value: string)

  function RowErrorMessage(e: RowError): string {
    match e
    case MissingDeviceType(n) => "Row " + NatToString(n) + ": Missing device type"
    case MissingBrandModel(n) => "Row " + NatToString(n) + ": Missing brand/model"
    case MissingSerialNumber(n) => "Row " + NatToString(n) + ": Missing serial number"
    case InvalidDeviceType(n, v) => "Row " + NatToString(n) + ": Invalid device type \"" + v + "\""
  }

  /** The errors of one row, numbered `n`, in the order they are checked:
      none exactly when the row is accepted, and at most four. */
  function RowErrors(row: DeviceUploadRow, n: nat): (errors: seq<RowError>)
    ensures errors == [] <==> RowAccepted(row)
    ensures |errors| <= 4
    ensures forall e :: e in errors ==> e.row == n
  {
    EmptyTypeIsInvalid();
    (if row.peripheralType == "" then [MissingDeviceType(n)] else [])
    + (if row.brandModel == "" then [MissingBrandModel(n)] else [])
    + (if row.serialNumber == "" then [MissingSerialNumber(n)] else [])
    + (if !IsValidDeviceType(row.peripheralType) then [InvalidDeviceType(n, row.peripheralType)] else [])
  }

  /** The errors of all rows, row after row; the last row is numbered
      `|rows|`. */
  function AllErrors(rows: seq<DeviceUploadRow>): (errors: seq<RowError>)
    ensures |errors| <= 4 * |rows|
  {
    if rows == [] then [] else AllErrors(rows[..|rows| - 1]) + RowErrors(rows[|rows| - 1], |rows|)
  }

  /** A row that produces no error. */
  predicate RowAccepted(row: DeviceUploadRow) {
    row.brandModel != "" && row.serialNumber != "" && IsValidDeviceType(row.peripheralType)
  }

  datatype DeviceValidation = DeviceValidation(isValid: bool, errors: seq<RowError>)

  /** `validateDeviceData`. */
  method ValidateDeviceData(data: seq<DeviceUploadRow>) returns (v: DeviceValidation)
    ensures v.errors == AllErrors(data)
    ensures v.isValid <==> forall i :: 0 <= i < |data| ==> RowAccepted(data[i])
  {
    var errors: seq<RowError> := [];
    for i := 0 to |data|
      invariant errors == AllErrors(data[..i])
    {
      AllErrorsStep(data, i);
      var row := data[i];
      var n := i + 1;
      errors := CheckRow(errors, row, n);
    }
    assert data[..|data|] == data;
    NoErrorsIffAllAccepted(data);
    v := DeviceValidation(|errors| == 0, errors);
  }

  /** The `forEach` callback: the checks of row `n`, each pushing its error
      onto the list. */
  method CheckRow(errors: seq<RowError>, row: DeviceUploadRow, n: nat) returns (pushed: seq<RowError>)
    ensures pushed == errors + RowErrors(row, n)
  {
    pushed := errors;
    if row.peripheralType == "" {
      pushed := pushed + [MissingDeviceType(n)];
    }
    if row.brandModel == "" {
      pushed := pushed + [MissingBrandModel(n)];
    }
    if row.serialNumber == "" {
      pushed := pushed + [MissingSerialNumber(n)];
    }
    if !IsValidDeviceType(row.peripheralType) {
      pushed := pushed + [InvalidDeviceType(n, row.peripheralType)];
    }
  }

  /** One more row adds its own errors after those of the rows before. */
  lemma AllErrorsStep(rows: seq<DeviceUploadRow>, i: nat)
    requires i < |rows|
    ensures AllErrors(rows[..i + 1]) == AllErrors(rows[..i]) + RowErrors(rows[i], i + 1)
  {
    assert rows[..i + 1][..i] == rows[..i];
  }

  /** The error list is empty exactly when every row is accepted. */
  lemma {:induction false} NoErrorsIffAllAccepted(rows: seq<DeviceUploadRow>)
    ensures AllErrors(rows) == [] <==> forall i :: 0 <= i < |rows| ==> RowAccepted(rows[i])
  {
    if rows != [] {
      var init := rows[..|rows| - 1];
      NoErrorsIffAllAccepted(init);
      assert forall i :: 0 <= i < |init| ==> init[i] == rows[i];
    }
  }

  /** Errors carry row numbers between 1 and the number of rows, in
      non-decreasing order. */
  lemma {:induction false} ErrorsInRowOrder(rows: seq<DeviceUploadRow>)
    ensures forall e :: e in AllErrors(rows) ==> 1 <= e.row <= |rows|
    ensures forall i, j :: 0 <= i < j < |AllErrors(rows)| ==> AllErrors(rows)[i].row <= AllErrors(rows)[j].row
  {
    if rows != [] {
      var init := rows[..|rows| - 1];
      ErrorsInRowOrder(init);
      var a, b := AllErrors(init), RowErrors(rows[|rows| - 1], |rows|);
      assert AllErrors(rows) == a + b;
      forall e: RowError | e in a + b
        ensures 1 <= e.row <= |rows|
      {
        if e in a { } else { assert e in b; }
      }
      forall i, j | 0 <= i < j < |a + b|
        ensures (a + b)[i].row <= (a + b)[j].row
      {
        if j < |a| {
        } else if i < |a| {
          assert a[i] in a && b[j - |a|] in b;
        } else {
          assert b[i - |a|] in b && b[j - |a|] in b;
        }
      }
    }
  }

  /** An empty type is reported twice for its row: missing and invalid. */
  lemma EmptyTypeReportedTwice(row: DeviceUploadRow, n: nat)
    requires row.peripheralType == ""
    ensures MissingDeviceType(n) in RowErrors(row, n)
    ensures InvalidDeviceType(n, "") in RowErrors(row, n)
  {
    EmptyTypeIsInvalid();
  }

  /** A row the validation accepts is never imported as 'other'. */
  lemma AcceptedRowIsNeverOther(row: DeviceUploadRow)
    requires RowAccepted(row)
    ensures ProcessRow(row).deviceType != Other
  {
  }
}
