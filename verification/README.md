# Inventory management web app: a verified model of its core logic

This project models, in Dafny, the core logic of an IT inventory web
application: licenses, devices, employees, vendors and departments.

The centre of the model is the **license entitlement check**. A request to
assign a license type to a user or group goes through four steps:

- a request schema;
- a seat-availability check;
- a check that the target holds every direct prerequisite of the type;
- a check that it holds none of the type's declared conflicts.

Every attempt is written to an append-only audit log. `assignLicense`
runs the validator, appends one entry for the outcome and answers with
an `AssignLicenseResult`.

Around that centre the model covers the client-side logic of:

- the two bulk-upload dialogs (CSV parsing, row validation, the upload guard);
- the Excel device import (`processDeviceData`, `validateDeviceData`);
- the filtered views and local updates of the license, device, employee, vendor, department and notification stores;
- the tree built by `getHierarchy`;
- seat counting on a license card;
- the language toggle that always keeps English;
- the attribute mapping editor;
- the event colours, icons and titles of the device history timeline.

## How the model is built

- Pure code (lookups, filters, `map`/`filter`/`join` expressions) becomes
  functions and lemmas.
- Code that updates state step by step becomes methods:
  - the audit log is a class with a `seq` of entries;
  - each store and each dialog is a class whose fields are the store's or the component's state.
- Each method is proved equal to a specification function, and the
  properties are proved as lemmas about those functions.
- Remote calls (Supabase, Microsoft Graph, the `FileReader`) are
  parameters. A call that may reject is a `Call<T>`, either
  `Returned(value)` or `Threw(error)`. Log ids, timestamps and clock
  readings are parameters too, or are left out.

Behaviour of the code worth knowing:

- A rejected directory call makes the validator log a failed entry. The
  validator then returns an ordinary invalid verdict, so `assignLicense`
  logs a second failed entry. `RejectionLogsTwice` states this.
- The conflict check consults only the requested type's row. It is not
  symmetric, and for `AAD_PREMIUM_P2` it cannot pass
  (`ConflictCheckIsOneSided`, `PremiumP2NeverPasses`).
- `assignLicense` reserves and releases no seat. Availability is an
  input, read from the directory.
- The missing-prerequisite message names the requested type, not the
  missing prerequisite.
- A rejection of a directory call becomes the generic verdict "An
  unexpected error occurred during license validation", an entry of the
  same error list as the rule messages.

Modules, one file each: `Base`, `Text` and `Lists` (shared helpers),
`LicenseCatalog`, `LicenseLog`, `LicenseValidation`, `LicenseAssignment`,
`DeviceUtils`, `Csv`, `EmployeeUpload`, `DeviceUpload`, `LicenseStore`,
`DeviceStore`, `VendorStore`, `EmployeeStore`, `DepartmentStore`,
`NotificationStore`, `DepartmentHierarchy`, `LicenseAssignmentArea`,
`LanguageSelector`, `AttributeMapper` and `DeviceHistory`.

## Model

| member | source | states |
|---|---|---|
| Text.Split | src/components/employee/modal/BulkEmployeeUpload.tsx:29-30 | `split` on one character: one piece more than there are separators, no piece contains the separator, and joining the pieces with the separator gives the string back |
| Text.ToLower | src/stores/deviceStore.ts:93-95 | lower-casing keeps the length and maps each character by itself to its lower-case form |
| Text.Join | src/utils/license/index.ts:33 | `join` of no parts is the empty string; otherwise the result starts with the first part |
| Text.SplitOfJoin | src/components/employee/modal/BulkEmployeeUpload.tsx:29-30 | splitting the join of one or more parts, none containing the separator, gives the parts back (with `Text.Split`, `join` and `split` are inverse) |
| Text.SplitNoSep | src/components/employee/modal/BulkEmployeeUpload.tsx:29-30 | a string without the separator splits into itself alone |
| Text.SplitAfterPiece | src/components/employee/modal/BulkEmployeeUpload.tsx:29-30 | splitting a separator-free piece, the separator and a rest gives the piece followed by the pieces of the rest |
| Text.TrimEmptyIffBlank | src/components/employee/modal/BulkEmployeeUpload.tsx:34 | `line.trim() === ''` holds exactly when every character of the line is white space or a line terminator |
| Text.Trim | src/components/employee/modal/BulkEmployeeUpload.tsx:34 | `trim` gives a string no longer than its input that neither starts nor ends with white space |
| Text.TrimIsBlock | src/components/employee/modal/BulkEmployeeUpload.tsx:34 | what `trim` keeps is a contiguous block of the input, with only white space before and after it |
| Text.IncludesInConcat | src/stores/employeeStore.ts:75 | `includes` finds in a concatenation whatever it finds in either half |
| LicenseCatalog.CheckDependencies | src/utils/license/dependencies.ts:27-30 | true iff every direct prerequisite listed for the type is held |
| LicenseCatalog.CheckConflicts | src/utils/license/dependencies.ts:32-35 | true iff no type listed as a conflict of the requested type is held |
| LicenseCatalog.PremiumP2NeverPasses | src/utils/license/dependencies.ts:5-21 | for every held list, AAD_PREMIUM_P2 fails one of the two checks, because AAD_PREMIUM_P1 is both its prerequisite and its conflict |
| LicenseCatalog.ConflictsSymmetricButOne | src/utils/license/dependencies.ts:16-25 | the conflict table is symmetric except for the one entry AAD_PREMIUM_P2 → AAD_PREMIUM_P1 |
| LicenseCatalog.ConflictCheckIsOneSided | src/utils/license/dependencies.ts:32-35 | a holder of AAD_PREMIUM_P2 passes the conflict check for AAD_PREMIUM_P1, while a holder of AAD_PREMIUM_P1 fails it for AAD_PREMIUM_P2 |
| LicenseCatalog.NoSelfReference | src/utils/license/dependencies.ts:4-25 | no type lists itself as a prerequisite or a conflict |
| LicenseCatalog.PrerequisitesAreRoots | src/utils/license/dependencies.ts:4-13 | every prerequisite has an empty prerequisite list |
| LicenseCatalog.ChecksAreMonotone | src/utils/license/dependencies.ts:27-35 | holding more types never breaks the dependency check and never repairs the conflict check |
| LicenseCatalog.ChecksDependOnMembershipOnly | src/utils/license/dependencies.ts:27-35 | two held lists with the same members give the same answers: order and duplicates do not matter |
| LicenseCatalog.NoPrerequisitesPassOnEmpty | src/utils/license/dependencies.ts:27-30 | a type without prerequisites passes the dependency check for a target holding nothing |
| LicenseCatalog.ReachableIsDirect | src/utils/license/dependencies.ts:4-13 | the prerequisites reachable through chains of any length ≥ 1 are exactly the direct ones |
| LicenseCatalog.DirectCheckIsTransitive | src/utils/license/dependencies.ts:27-30 | the direct check agrees with a transitive prerequisite check at every depth |
| LicenseLog.AuditLog.LogLicenseOperation | src/utils/license/logging.ts:3-16 | appends exactly the given entry and changes nothing before it |
| LicenseValidation.Issues | src/utils/license/validation.ts:29-32 | the schema issues become verdict errors whose texts are exactly the issue messages, in order |
| LicenseValidation.RuleErrors | src/utils/license/validation.ts:35-57 | at most three rule errors, and none exactly when availability succeeded with enough seats and both the prerequisite and the conflict check pass |
| LicenseValidation.Caught | src/utils/license/validation.ts:58-72 | the catch gives an invalid verdict with the one generic error and logs one failed 'assign' entry carrying the rejection's message, or "Unknown error" |
| LicenseValidation.Validate | src/utils/license/validation.ts:11-73 | a valid verdict has no errors and means every check ran; at most one entry is logged, and one exactly when a directory call rejects |
| LicenseValidation.ValidateLicenseAssignment | src/utils/license/validation.ts:11-73 | returns the verdict of `Validate` and appends exactly the entries `Validate` logs |
| LicenseValidation.HandleValidationError | src/utils/license/validation.ts:58-72 | appends one failed 'assign' entry carrying the rejection's message, or 'Unknown error', and returns the single generic error |
| LicenseValidation.SchemaFailureShortCircuits | src/utils/license/validation.ts:21-33 | a failing schema gives an invalid verdict whose error texts are the schema messages; nothing is logged; the directory answers are irrelevant |
| LicenseValidation.ValidIffNoErrors | src/utils/license/validation.ts:54-57 | `isValid` holds exactly when the error list is empty |
| LicenseValidation.AvailabilityErrorIff | src/utils/license/validation.ts:36-39 | on the rule path the insufficient-seat error appears, at most once, exactly when availability failed or is below the quantity |
| LicenseValidation.DependencyErrorIff | src/utils/license/validation.ts:45-47 | on the rule path the missing-prerequisite error naming the type appears exactly when `checkDependencies` fails |
| LicenseValidation.ConflictErrorIff | src/utils/license/validation.ts:50-52 | on the rule path the conflict error appears exactly when `checkConflicts` fails |
| LicenseValidation.ErrorsOrderedAndBounded | src/utils/license/validation.ts:36-57 | on the rule path errors accumulate in the fixed order availability, dependency, conflict; there are at most three; nothing is logged |
| LicenseValidation.RejectionLogsOnce | src/utils/license/validation.ts:58-72 | when a directory call rejects, the verdict is the single generic error and one failed entry with the rejection's message is logged |
| LicenseValidation.DependencyGate | src/utils/license/validation.ts:45-47 | a target missing a prerequisite is refused, with the missing-prerequisite error, whatever the inventory |
| LicenseValidation.ConflictGate | src/utils/license/validation.ts:50-52 | a target holding a declared conflict of the type is refused |
| LicenseValidation.PremiumP2NeverValid | src/utils/license/validation.ts:45-52 | AAD_PREMIUM_P2 is never valid, whatever the schema and the directory answer |
| LicenseValidation.RecordSchemaRejectsRequestKeys | src/types/license.ts:30-40 | the license-record schema applied to the keys of the request object fails, with "Required" issues only and at least one of them |
| LicenseValidation.AsWrittenSchemaRejectsEveryRequest | src/utils/license/validation.ts:21-33 | with the schema the code applies, every validation is invalid, reports only "Required" errors, and never reaches the rule checks |
| LicenseValidation.RequestSchemaAdmitsEligibleRequests | src/utils/license/validation.ts:21-33 | the corrected request schema passes exactly the requests with a positive quantity and a target id; such a request that meets every rule is valid with no errors |
| LicenseAssignment.AssignLicense | src/utils/license/index.ts:11-75 | returns the result of `AssignSpec` and appends exactly the validator's entries and then its own |
| LicenseAssignment.QuantityOrDefault | src/utils/license/index.ts:15 | the caller's quantity when given, otherwise 1 |
| LicenseAssignment.AssignSpec | src/utils/license/index.ts:19-56 | success exactly when the verdict is valid; the entries are the validator's, unchanged, followed by exactly one more |
| LicenseAssignment.OutcomeMatchesLastEntry | src/utils/license/index.ts:26-56 | the last entry appended is an 'assign' entry for the request whose status matches `success`; a failure carries the errors joined with ", " |
| LicenseAssignment.FailureReportsValidatorErrors | src/utils/license/index.ts:26-41 | success iff the verdict is valid; a failure says "License validation failed" and returns the validator's error texts in order |
| LicenseAssignment.LogsOnceWhenNoCallRejects | src/utils/license/index.ts:19-56 | when no directory call rejects, an assignment appends exactly one entry |
| LicenseAssignment.RejectionLogsTwice | src/utils/license/index.ts:19-41 | when a directory call rejects, two failed entries are appended: the validator's with the rejection message, then the generic validation message |
| LicenseAssignment.QuantityDefaultsToOne | src/utils/license/index.ts:15 | an omitted quantity behaves exactly as a quantity of 1 |
| LicenseAssignment.PremiumP2NeverAssigned | src/utils/license/index.ts:19-41 | AAD_PREMIUM_P2 is never assigned |
| LicenseAssignment.SchemaRejectionRefused | src/utils/license/index.ts:26-41 | a request the schema rejects is refused with "License validation failed" and the schema messages as its errors, and exactly one failed entry is logged |
| LicenseAssignment.AsWrittenAssignNeverSucceeds | src/utils/license/index.ts:19-41 | with the schema the validator applies, no assignment succeeds; each is logged once with "Required" errors only |
| LicenseAssignment.EligibleRequestIsAssigned | src/utils/license/index.ts:45-56 | with the corrected schema, an eligible request succeeds and logs exactly one success entry |
| DeviceUtils.Brand | src/utils/deviceUtils.ts:8 | the brand is the prefix of the field before its first space, and holds no space |
| DeviceUtils.Model | src/utils/deviceUtils.ts:9 | with a space in the field, brand + " " + model gives the field back; without one the model is empty |
| DeviceUtils.MapDeviceType | src/utils/deviceUtils.ts:28-43 | each of the five known names, in any case, maps to its own type, and a type maps to 'other' exactly when its lower-case form is none of them |
| DeviceUtils.IsValidDeviceType | src/utils/deviceUtils.ts:77-80 | a type is valid exactly when `mapDeviceType` maps it to something other than 'other' |
| DeviceUtils.CapitalisedKeysUnreachable | src/utils/deviceUtils.ts:29-42 | a lower-cased type is never one of the capitalised keys of the type map |
| DeviceUtils.CaseVariantsMap | src/utils/deviceUtils.ts:28-43 | any case variant of each of the five known names maps to that name's type, and two types equal up to case map alike |
| DeviceUtils.OtherIsInvalid | src/utils/deviceUtils.ts:77-80 | 'other' is not a valid type and maps to 'other' |
| DeviceUtils.EmptyTypeIsInvalid | src/utils/deviceUtils.ts:77-80 | the empty type is not valid |
| DeviceUtils.ProcessRow | src/utils/deviceUtils.ts:14-22 | the pushed record is 'available', noted as imported, keeps serial number and computer number, and splits brand/model at the first space |
| DeviceUtils.ProcessDeviceData | src/utils/deviceUtils.ts:3-26 | one processed record per row, in row order |
| DeviceUtils.ValidateDeviceData | src/utils/deviceUtils.ts:50-75 | the errors are those of every row in row order; `isValid` holds exactly when every row is accepted |
| DeviceUtils.CheckRow | src/utils/deviceUtils.ts:53-69 | the per-row callback appends exactly that row's errors, in check order |
| DeviceUtils.RowErrors | src/utils/deviceUtils.ts:53-69 | a row has no error exactly when it has brand/model, serial number and a valid type; at most four errors, all numbered with the row |
| DeviceUtils.AllErrors | src/utils/deviceUtils.ts:51-70 | at most four errors per row |
| DeviceUtils.NoErrorsIffAllAccepted | src/utils/deviceUtils.ts:71-74 | the error list is empty exactly when every row is accepted |
| DeviceUtils.ErrorsInRowOrder | src/utils/deviceUtils.ts:53-69 | error row numbers lie between 1 and the number of rows and never decrease |
| DeviceUtils.EmptyTypeReportedTwice | src/utils/deviceUtils.ts:55-68 | an empty type is reported both as missing and as invalid |
| DeviceUtils.AcceptedRowIsNeverOther | src/utils/deviceUtils.ts:66-68 | a row the validation accepts is never imported as 'other' |
| Csv.RecordOfKeys | src/components/employee/modal/BulkEmployeeUpload.tsx:39-41 | a record's keys are exactly the trimmed headers |
| Csv.RecordOfValue | src/components/employee/modal/BulkEmployeeUpload.tsx:39-41 | under a trimmed header is the trimmed value of the last column with that header, or none when the line is too short |
| Csv.ParseRecords | src/components/employee/modal/BulkEmployeeUpload.tsx:25-50 | the parsed data are `Records` of the header line and the remaining lines |
| Csv.EntryOf | src/components/employee/modal/BulkEmployeeUpload.tsx:38-41 | the inner loop over the headers builds exactly the record of the line |
| Csv.RecordsCountAndOrigin | src/components/employee/modal/BulkEmployeeUpload.tsx:33-44 | one record per non-blank line, each the record of a non-blank input line |
| Csv.RecordsWithoutBlankLines | src/components/employee/modal/BulkEmployeeUpload.tsx:33-44 | without blank lines, record i is the record of line i |
| Csv.LineRecordColumns | src/components/device/modal/BulkDeviceUpload.tsx:36-41 | each distinct header is paired with the trimmed value in its column, or none past the line's end |
| Csv.MissingErrors | src/components/employee/modal/BulkEmployeeUpload.tsx:57-61 | the `requiredFields.forEach` check yields no more errors than there are fields to check (which fields get one is stated by `Csv.MissingErrorsExact`) |
| Csv.MissingErrorsExact | src/components/device/modal/BulkDeviceUpload.tsx:57-61 | an error is reported for a field exactly when the field is required and missing, and every error names such a field |
| EmployeeUpload.EmailFormatAccepts | src/components/employee/modal/BulkEmployeeUpload.tsx:63 | the e-mail pattern accepts "a@b.co" and, ignoring case, "Jo.D@Ex.DE" |
| EmployeeUpload.EmailFormatRejects | src/components/employee/modal/BulkEmployeeUpload.tsx:63 | the e-mail pattern rejects a one-letter top-level domain and a text without '@' |
| EmployeeUpload.EmailFormat | src/components/employee/modal/BulkEmployeeUpload.tsx:63 | an accepted address has at least six characters, holds an '@', does not start with one, and ends in two letters |
| EmployeeUpload.EmailFormatOfParts | src/components/employee/modal/BulkEmployeeUpload.tsx:63 | every local part, domain and top-level domain of two or more letters over the pattern's characters, joined by '@' and '.', is accepted |
| EmployeeUpload.NoAtRejected | src/components/employee/modal/BulkEmployeeUpload.tsx:63 | no text without an '@' is accepted |
| EmployeeUpload.ShortTopLevelDomainRejected | src/components/employee/modal/BulkEmployeeUpload.tsx:63 | no text whose top-level domain is shorter than two characters is accepted |
| EmployeeUpload.EmailErrors | src/components/employee/modal/BulkEmployeeUpload.tsx:63-65 | at most one format error, numbered with the row, and none when the e-mail is missing |
| EmployeeUpload.RowErrors | src/components/employee/modal/BulkEmployeeUpload.tsx:56-66 | at most six errors, all numbered with the row; a missing-field error exactly for each required field that is missing; a format error exactly when the e-mail is present and malformed |
| EmployeeUpload.AllErrors | src/components/employee/modal/BulkEmployeeUpload.tsx:55-66 | at most six errors per record |
| EmployeeUpload.ValidateData | src/components/employee/modal/BulkEmployeeUpload.tsx:52-69 | the errors are those of every record in record order |
| EmployeeUpload.CheckRecord | src/components/employee/modal/BulkEmployeeUpload.tsx:56-66 | the body of the `forEach` yields exactly that record's errors |
| EmployeeUpload.MissingEmailIsNotMalformed | src/components/employee/modal/BulkEmployeeUpload.tsx:63-65 | a missing e-mail is reported as missing and never as malformed |
| EmployeeUpload.AllErrorsNumbered | src/components/employee/modal/BulkEmployeeUpload.tsx:56-66 | every error carries a row number between 1 and the number of records |
| EmployeeUpload.NoErrorsIffEveryRowPasses | src/components/employee/modal/BulkEmployeeUpload.tsx:52-69 | no errors exactly when no record has an error |
| EmployeeUpload.BulkEmployeeUpload.constructor | src/components/employee/modal/BulkEmployeeUpload.tsx:9-12 | no file, no preview, not uploading, no errors |
| EmployeeUpload.BulkEmployeeUpload.HandleFileChange | src/components/employee/modal/BulkEmployeeUpload.tsx:15-23 | a CSV- or Excel-typed file is kept, parsed and validated; any other choice leaves file and preview and sets the single file-type error |
| EmployeeUpload.BulkEmployeeUpload.HandleUpload | src/components/employee/modal/BulkEmployeeUpload.tsx:71-84 | uploads the preview exactly when a file is chosen and there are no errors, and ends not uploading |
| EmployeeUpload.RejectedTypeBlocksUpload | src/components/employee/modal/BulkEmployeeUpload.tsx:21 | after a rejected file choice, upload is blocked |
| EmployeeUpload.CanUpload | src/components/employee/modal/BulkEmployeeUpload.tsx:72 | upload goes ahead only with a file and never with a file-type error; with a file and no errors it does |
| EmployeeUpload.AcceptedFileUploadIff | src/components/employee/modal/BulkEmployeeUpload.tsx:72 | an accepted file can be uploaded exactly when none of its records has an error |
| DeviceUpload.ValidateData | src/components/device/modal/BulkDeviceUpload.tsx:52-65 | the errors are those of every record in record order |
| DeviceUpload.RowErrors | src/components/device/modal/BulkDeviceUpload.tsx:56-62 | at most four errors, all missing-field errors numbered with the row, one exactly for each required field that is missing |
| DeviceUpload.AllErrors | src/components/device/modal/BulkDeviceUpload.tsx:55-62 | at most four errors per record |
| DeviceUpload.NoErrorsIffAllFieldsPresent | src/components/device/modal/BulkDeviceUpload.tsx:52-65 | no errors exactly when every record has type, brand, model and serial number |
| DeviceUpload.BulkDeviceUpload.constructor | src/components/device/modal/BulkDeviceUpload.tsx:9-12 | no file, no preview, not uploading, no errors |
| DeviceUpload.BulkDeviceUpload.HandleFileChange | src/components/device/modal/BulkDeviceUpload.tsx:15-23 | a 'text/csv' file is kept, parsed and validated; any other choice leaves file and preview and sets the single file-type error |
| DeviceUpload.BulkDeviceUpload.HandleUpload | src/components/device/modal/BulkDeviceUpload.tsx:67-80 | uploads the preview exactly when a file is chosen and there are no errors |
| DeviceUpload.RejectedTypeBlocksUpload | src/components/device/modal/BulkDeviceUpload.tsx:21 | after a rejected file choice, upload is blocked |
| DeviceUpload.CanUpload | src/components/device/modal/BulkDeviceUpload.tsx:68 | upload goes ahead only with a file and never with a file-type error; with a file and no errors it does |
| LicenseStore.FilteredLicenses | src/stores/licenseStore.ts:92-105 | the shown licenses keep the stored order, and a license is shown iff it matches the search and both filters |
| LicenseStore.MatchesSearch | src/stores/licenseStore.ts:95-98 | the empty term matches every license, and a license's own key matches it in any case |
| LicenseStore.Shown | src/stores/licenseStore.ts:94-104 | with an empty term and both filters at 'all' a license is shown; a shown license matches the search and has the status and type of any filter other than 'all' |
| LicenseStore.NoFilterShowsAll | src/stores/licenseStore.ts:92-105 | with an empty term and both filters at 'all', every license is shown, in order |
| LicenseStore.StatusFilterExact | src/stores/licenseStore.ts:100 | a status filter other than 'all' shows only that status, and every matching license of that status |
| LicenseStore.LicenseStoreState.constructor | src/stores/licenseStore.ts:24-29 | no licenses, empty term, both filters 'all' |
| LicenseStore.LicenseStoreState.SetSearchTerm | src/stores/licenseStore.ts:31 | sets the term; nothing else changes |
| LicenseStore.LicenseStoreState.SetStatusFilter | src/stores/licenseStore.ts:32 | sets the status filter; nothing else changes |
| LicenseStore.LicenseStoreState.SetTypeFilter | src/stores/licenseStore.ts:33 | sets the type filter; nothing else changes |
| LicenseStore.LicenseStoreState.GetFilteredLicenses | src/stores/licenseStore.ts:92-105 | the current state's filtered view, in stored order |
| DeviceStore.FilteredDevices | src/stores/deviceStore.ts:89-101 | shown devices keep the stored order; a device is shown iff it matches the search and the status filter |
| DeviceStore.MatchesSearch | src/stores/deviceStore.ts:92-95 | the empty term matches every device, and a device's own serial number matches it in any case |
| DeviceStore.Shown | src/stores/deviceStore.ts:91-99 | with an empty term and the filter at 'all' a device is shown; a shown device matches the search and has the status of a filter other than 'all' |
| DeviceStore.NoFilterShowsAll | src/stores/deviceStore.ts:89-101 | with an empty term and the filter at 'all', every device is shown |
| DeviceStore.DeviceStoreState.constructor | src/stores/deviceStore.ts:22-26 | no devices, empty term, filter 'all' |
| DeviceStore.DeviceStoreState.SetSearchTerm | src/stores/deviceStore.ts:28 | sets the term; nothing else changes |
| DeviceStore.DeviceStoreState.SetStatusFilter | src/stores/deviceStore.ts:29 | sets the status filter; nothing else changes |
| DeviceStore.DeviceStoreState.GetFilteredDevices | src/stores/deviceStore.ts:89-101 | the current state's filtered view |
| VendorStore.FilteredVendors | src/stores/vendorStore.ts:74-86 | shown vendors keep the stored order; a vendor is shown iff it matches the search and the category filter |
| VendorStore.MatchesSearch | src/stores/vendorStore.ts:77-80 | the empty term matches every vendor, and a vendor's own name matches it in any case |
| VendorStore.Shown | src/stores/vendorStore.ts:76-84 | with an empty term and the category at 'all' a vendor is shown; a shown vendor matches the search and has the category of a filter other than 'all' |
| VendorStore.NoFilterShowsAll | src/stores/vendorStore.ts:74-86 | with an empty term and the category at 'all', every vendor is shown |
| VendorStore.VendorStoreState.constructor | src/stores/vendorStore.ts:21-25 | no vendors, empty term, category 'all' |
| VendorStore.VendorStoreState.SetSearchTerm | src/stores/vendorStore.ts:27 | sets the term; nothing else changes |
| VendorStore.VendorStoreState.SetCategoryFilter | src/stores/vendorStore.ts:28 | sets the category filter; nothing else changes |
| VendorStore.VendorStoreState.GetFilteredVendors | src/stores/vendorStore.ts:74-86 | the current state's filtered view |
| EmployeeStore.FilteredEmployees | src/stores/employeeStore.ts:71-83 | shown employees keep the stored order; an employee is shown iff the term matches full name, e-mail or position and the department filter passes |
| EmployeeStore.MatchesSearch | src/stores/employeeStore.ts:74-77 | the empty term matches every employee, and an employee's own e-mail address matches it in any case |
| EmployeeStore.Shown | src/stores/employeeStore.ts:73-81 | with an empty term and the department at 'all' an employee is shown; a shown employee matches the search and belongs to the department of a filter other than 'all' |
| EmployeeStore.NoFilterShowsAll | src/stores/employeeStore.ts:71-83 | with an empty term and the department at 'all', everyone is shown |
| EmployeeStore.SearchSpansTheSpace | src/stores/employeeStore.ts:75 | the search sees first and last name joined by a space, so "n l" finds Ann Lee |
| EmployeeStore.NamePartsAreSearched | src/stores/employeeStore.ts:75 | a term found, ignoring case, in the full name, the first name alone or the last name alone finds the employee |
| EmployeeStore.ReplaceById | src/stores/employeeStore.ts:62-64 | same length; every employee with the id is replaced by the updated record, and every other stays in place |
| EmployeeStore.ReplaceByIdIdempotent | src/stores/employeeStore.ts:62-64 | applying the same update twice equals applying it once |
| EmployeeStore.ReplaceByIdSnoc | src/stores/employeeStore.ts:62-64 | the replacement distributes over appending one employee |
| EmployeeStore.EmployeeStoreState.constructor | src/stores/employeeStore.ts:24-29 | no employees, empty term, department 'all' |
| EmployeeStore.EmployeeStoreState.SetSearchTerm | src/stores/employeeStore.ts:31-33 | sets the term; nothing else changes |
| EmployeeStore.EmployeeStoreState.SetDepartmentFilter | src/stores/employeeStore.ts:35-37 | sets the department filter; nothing else changes |
| EmployeeStore.EmployeeStoreState.UpdateEmployee | src/stores/employeeStore.ts:59-69 | on success the list becomes the by-id replacement; on rejection nothing changes and an error with the rejection's message is thrown |
| EmployeeStore.EmployeeStoreState.GetFilteredEmployees | src/stores/employeeStore.ts:71-83 | the current state's filtered view |
| DepartmentStore.Insert | src/stores/departmentStore.ts:109 | inserting into a name-sorted list keeps it sorted and adds exactly one occurrence of the department |
| DepartmentStore.SortByName | src/stores/departmentStore.ts:109 | the sorted list is a permutation of the input, ordered by name |
| DepartmentStore.ActiveDepartments | src/stores/departmentStore.ts:106-110 | exactly the active departments, each as often as stored, ordered by name |
| DepartmentStore.ActiveCountsExact | src/stores/departmentStore.ts:106-110 | an active department appears as often as it is stored; an inactive one never |
| NotificationStore.UnreadCount | src/stores/notificationStore.ts:26 | at most the number of notifications, and 0 exactly when none is unread |
| NotificationStore.UnreadCountIsFilterLength | src/stores/notificationStore.ts:26 | the count is the length of the filtered list of unread notifications |
| NotificationStore.IsUnread | src/stores/notificationStore.ts:26 | `!n.read_at`: unread exactly when there is no timestamp or it is empty |
| NotificationStore.MarkRead | src/stores/notificationStore.ts:37-39 | same length; notifications with the id get the timestamp and nothing else changes in them; all others are unchanged |
| NotificationStore.MarkAllRead | src/stores/notificationStore.ts:52-55 | same length; afterwards nothing is unread; read notifications keep their timestamp; unread ones get the new one |
| NotificationStore.FilteredNotifications | src/stores/notificationStore.ts:64-67 | without a type all notifications; with one, exactly those of that type, in order |
| NotificationStore.MarkReadCount | src/stores/notificationStore.ts:37-40 | marking never raises the unread count, lowers it when an unread notification has the id, and keeps it otherwise |
| NotificationStore.NotificationStoreState.constructor | src/stores/notificationStore.ts:17-20 | empty list, count 0, consistent |
| NotificationStore.NotificationStoreState.FetchNotifications | src/stores/notificationStore.ts:22-32 | a fetched list replaces the list with its unread count; a rejection keeps the list and records the message; loading ends either way |
| NotificationStore.NotificationStoreState.MarkAsRead | src/stores/notificationStore.ts:34-47 | on success the list is marked and the count stays equal to the unread number; on rejection the list is kept, the message recorded and the error rethrown |
| NotificationStore.NotificationStoreState.MarkAllAsRead | src/stores/notificationStore.ts:49-62 | on success all are marked and the count is 0; on rejection the list is kept, the message recorded and the error rethrown |
| NotificationStore.NotificationStoreState.GetFilteredNotifications | src/stores/notificationStore.ts:64-67 | the current state's filtered view |
| DepartmentHierarchy.DepartmentMap | src/services/api/departments.ts:59 | the map has a key for exactly the department ids, each mapped to a department with that id |
| DepartmentHierarchy.Step | src/services/api/departments.ts:63-77 | a row keeps the set of ids with a child list; it changes the roots or the children, never both; only a level-0 self row of a known department adds a root, at the end; only the parent's list can change, by the child appended when both are known and distinct |
| DepartmentHierarchy.Build | src/services/api/departments.ts:62-77 | after the rows, exactly the known ids have a child list, and the roots are known ids, no more of them than rows |
| DepartmentHierarchy.GetHierarchy | src/services/api/departments.ts:58-79 | the nodes are the id map and the roots and children are those the rows build, row by row |
| DepartmentHierarchy.RootsFacts | src/services/api/departments.ts:63-68 | each root comes from a level-0 self row of a known department; no more roots than such rows; roots in row order |
| DepartmentHierarchy.ChildrenFacts | src/services/api/departments.ts:69-76 | a child is listed under a parent only for a row linking two distinct known departments, in row order |
| DepartmentHierarchy.IgnoredRows | src/services/api/departments.ts:63-77 | a self row above level 0, or a row naming an unknown department, changes nothing |
| DepartmentHierarchy.LinkRowAppends | src/services/api/departments.ts:69-76 | a row linking two distinct known departments appends the child to the parent's list and changes nothing else |
| LicenseAssignmentArea.FindAssignment | src/components/license/LicenseAssignmentArea.tsx:53 | none iff no assignment has the employee id; otherwise the first assignment with that id |
| LicenseAssignmentArea.OnAssign | src/components/license/LicenseAssignmentArea.tsx:40-46 | calls the assign action with the license and employee; logs an error exactly when the action fails |
| LicenseAssignmentArea.ActiveCount | src/components/license/LicenseAssignmentArea.tsx:14 | the active count is at most the list length and equals the length of the active-status filter |
| LicenseAssignmentArea.AssignedCount | src/components/license/LicenseAssignmentArea.tsx:14 | 0 without assignments; otherwise the number of active assignments, at most the number of assignments |
| LicenseAssignmentArea.AvailableCount | src/components/license/LicenseAssignmentArea.tsx:14-15 | assigned plus available equals the total (unknown counts as 0); available is negative exactly when more are assigned than the total |
| LicenseAssignmentArea.OnUnassign | src/components/license/LicenseAssignmentArea.tsx:52-61 | unassign is called exactly when some assignment has the employee id, with the id of the first one; an error is logged exactly when that call fails |
| LicenseAssignmentArea.InactiveTakesNoSeat | src/components/license/LicenseAssignmentArea.tsx:14 | an assignment not 'active' does not change the count |
| LicenseAssignmentArea.OversubscribedIsNegative | src/components/license/LicenseAssignmentArea.tsx:15 | one seat and two active assignments show -1 available: no clamping |
| LicenseAssignmentArea.AbsentFieldsCountAsZero | src/components/license/LicenseAssignmentArea.tsx:14-15 | without assignments and seats both figures are 0 |
| LicenseAssignmentArea.UnassignIgnoresStatus | src/components/license/LicenseAssignmentArea.tsx:53 | an earlier revoked assignment is released in preference to a later active one |
| LicenseAssignmentArea.FailuresAreCaught | src/components/license/LicenseAssignmentArea.tsx:40-61 | the handlers call the same action whether it fails or not, and log only failures |
| LanguageSelector.LanguageSettings.constructor | src/components/settings/language/LanguageSelector.tsx:10-12 | default 'en', multi-language on, only 'en' selected |
| LanguageSelector.LanguageSettings.HandleLanguageToggle | src/components/settings/language/LanguageSelector.tsx:25-35 | the selection becomes `Toggled` of the old one; the other settings stay |
| LanguageSelector.Toggled | src/components/settings/language/LanguageSelector.tsx:25-35 | only the membership of the code changes: an absent code is added, a present one other than 'en' is removed, and 'en' is never removed |
| LanguageSelector.ToggleKeepsEnglish | src/components/settings/language/LanguageSelector.tsx:28-30 | a toggle never removes 'en' |
| LanguageSelector.ToggleTwiceRestores | src/components/settings/language/LanguageSelector.tsx:25-35 | toggling a code twice restores the set iff the code is not 'en' or 'en' was selected |
| LanguageSelector.TogglesKeepEnglish | src/components/settings/language/LanguageSelector.tsx:25-35 | any sequence of toggles keeps 'en' in a set that holds it |
| LanguageSelector.ReachableSetsHoldEnglish | src/components/settings/language/LanguageSelector.tsx:12 | every selection reachable from the initial {'en'} holds 'en' |
| AttributeMapper.InitialMappings | src/components/settings/azure/AttributeMapper.tsx:10-15 | the editor starts with four pairs |
| AttributeMapper.WithoutIndex | src/components/settings/azure/AttributeMapper.tsx:28 | one pair fewer exactly when the index is in range |
| AttributeMapper.WithField | src/components/settings/azure/AttributeMapper.tsx:17-21 | same length; the field of the pair gets the value, its other field and all other pairs are unchanged |
| AttributeMapper.AttributeMapperState.constructor | src/components/settings/azure/AttributeMapper.tsx:10-15 | the four initial pairs |
| AttributeMapper.AttributeMapperState.HandleMappingChange | src/components/settings/azure/AttributeMapper.tsx:17-21 | the list becomes `WithField` of the old one |
| AttributeMapper.AttributeMapperState.AddMapping | src/components/settings/azure/AttributeMapper.tsx:23-25 | an empty pair is appended, earlier pairs unchanged |
| AttributeMapper.AttributeMapperState.RemoveMapping | src/components/settings/azure/AttributeMapper.tsx:27-29 | the list becomes `WithoutIndex` of the old one |
| AttributeMapper.WithoutIndexSplices | src/components/settings/azure/AttributeMapper.tsx:27-29 | an index in range removes exactly that pair and keeps the rest in order; any other index changes nothing |
| AttributeMapper.AddThenRemoveRestores | src/components/settings/azure/AttributeMapper.tsx:23-29 | adding a pair and removing the last position restores the list |
| AttributeMapper.WithFieldLaws | src/components/settings/azure/AttributeMapper.tsx:17-21 | writing the current value changes nothing; of two writes the last wins |
| AttributeMapper.InitialPairsAreFilled | src/components/settings/azure/AttributeMapper.tsx:10-15 | every initial pair names both an attribute and a field |
| DeviceHistory.Capitalise | src/components/device/modal/DeviceHistoryModal.tsx:111 | capitalising keeps the length |
| DeviceHistory.CapitaliseAll | src/components/device/modal/DeviceHistoryModal.tsx:110-112 | each piece is capitalised in place |
| DeviceHistory.EventColor | src/components/device/modal/DeviceHistoryModal.tsx:40-57 | the default colour exactly for the types the timeline does not know |
| DeviceHistory.EventIcon | src/components/device/modal/DeviceHistoryModal.tsx:21-38 | the default icon exactly for the types the timeline does not know |
| DeviceHistory.EventTitle | src/components/device/modal/DeviceHistoryModal.tsx:110-112 | the title is as long as the type and equals the character-by-character title: each '_' a space, the first character and each one after '_' capitalised |
| DeviceHistory.ColorsDistinct | src/components/device/modal/DeviceHistoryModal.tsx:40-57 | the six known event types get six distinct colour classes, none the default |
| DeviceHistory.TitleByPieces | src/components/device/modal/DeviceHistoryModal.tsx:110-112 | split, capitalise and join equal the character-by-character title |
| DeviceHistory.EventTitleChars | src/components/device/modal/DeviceHistoryModal.tsx:110-112 | the title replaces each '_' by a space, capitalises the first character and each one after '_', and keeps the others |
| DeviceHistory.TitleCharsAt | src/components/device/modal/DeviceHistoryModal.tsx:110-112 | the character-by-character title, position by position |
| DeviceHistory.TitleCharsShape | src/components/device/modal/DeviceHistoryModal.tsx:110-112 | no '_' in the title; its spaces are the type's spaces and underscores |
| DeviceHistory.EventTitleShape | src/components/device/modal/DeviceHistoryModal.tsx:110-112 | the title is as long as the type, has no '_', and, for a type without spaces, one word more than the type has underscores |

## Left out

- Seat reservation, release and any inventory change. `assignLicense` only
  validates and logs (the grant is a TODO), and availability is an input.
- The Microsoft Graph calls (`getLicenseAvailability`, `getUserLicenses`)
  are mock stubs. Their answers are the `Directory` input.
- Log entry ids (`crypto.randomUUID`), timestamps and the console sink are
  left out. The log is the list of entries without id and timestamp.
- The zod form schemas other than the one the validator applies.
  `licenseSchema` is modelled only as far as missing required keys go.
- LicenseAssignment.AssignLicense: assumes `crypto.randomUUID` is
  available, so that building a log entry never throws. Where it is not
  (a non-secure browser context, say), every log call rejects: the log
  call after validation sends `assignLicense` into its `catch`, whose
  own log call rejects again, and the validator's `catch` rejects the
  same way after a directory call has rejected. Those rejections, and
  the `catch` of `assignLicense` with its "Failed to assign license"
  answer, are not modelled.
- Quantities and seat counts (`quantity`, `available`, `total_quantity`)
  are whole numbers. JavaScript `number` also admits fractions, which the
  message would show as, say, "Required: 1.5", and `NaN`, for which
  `available < quantity` is false so the seat check passes. Neither is
  modelled.
- Text.ToLower: case mapping covers ASCII letters only, and so does
  `UpperChar`. The full Unicode mapping of `toLowerCase`/`toUpperCase`,
  including length-changing cases such as 'ß', is not modelled.
- DeviceUtils.ValidateDeviceData: every column of a row is a string; a
  column missing from the sheet's header is read as empty. In the code,
  `sheet_to_json(..., {defval: ''})` fills empty cells but not absent
  columns. Without a 'Peripherie-Typ' column, `toLowerCase` on
  `undefined` throws; without 'Marke/Modell', so does `split` in
  `processDeviceData`. The caller's `catch` then shows "Invalid file
  format". The model reports such a row as missing and invalid instead.
- DeviceUtils.ProcessDeviceData: the same absent-column exception is not
  modelled.
- DeviceUtils.MapDeviceType: JavaScript object lookup also finds
  inherited keys such as 'constructor'. That lookup, and the `|| 'other'`
  fallback over such values, is not modelled. Every name other than the
  five known ones maps to 'other'.
- EmployeeUpload.BulkEmployeeUpload.HandleFileChange: the `FileReader` is
  asynchronous. The model reads the file at once, with no interleaving of
  other events before `onload`. An Excel-typed file is parsed as text,
  exactly as the code does.
- DeviceUpload.BulkDeviceUpload.HandleFileChange: the same immediate
  reading of the file.
- The bulk-upload `downloadTemplate` functions and the upload itself (a
  TODO that logs) are left out. `HandleUpload` returns the records it
  would hand over.
- DepartmentStore.ActiveDepartments: `localeCompare` is an arbitrary
  total preorder on names. The relative order of equal names is not
  stated.
- The stores' remote actions are left out: fetch, create, update, delete,
  assign and unassign (except `updateEmployee` and the notification
  actions, which are modelled). Only their local state effects are
  modelled.
- EmployeeStore.EmployeeStoreState.UpdateEmployee: the list is read after
  the call returns. Changes made by other events in between are not
  modelled.
- NotificationStore.NotificationStoreState.MarkAsRead: every marked
  notification gets the same clock reading `now`. The code reads the
  clock once per marked notification.
- NotificationStore.NotificationStoreState.MarkAllAsRead: the same single
  clock reading.
- LicenseAssignmentArea.OnAssign: the store's own refresh after the call
  (`fetchLicenses`) and its `error` field are not modelled. The handler's
  outcome is the action it called and whether it logged a failure.
- AttributeMapper.AttributeMapperState.HandleMappingChange: the code
  writes into the pair object shared with the previous state (the array
  is copied, its elements are not). The model builds a new pair, so that
  aliasing is not captured.
- `handleSave` of the language and mapping editors (a TODO that logs) and
  the default-language and multi-language setters are left out.
- React rendering, the device-history rendering of `details`, `notes` and
  dates, and every other visual detail are left out.
- DepartmentHierarchy.GetHierarchy: the two Supabase queries and their
  errors are inputs. Nodes are shared by reference in the code, so the
  tree is described by root ids and a child-id list per department.

## Findings

| source | as written | input that shows it | evidently intended | confidence | as-written member | corrected member |
|---|---|---|---|---|---|---|
| src/utils/license/validation.ts:21-33 | the request `{licenseType, quantity, targetId, targetType}` is checked with `licenseSchema`, the license-record schema of src/types/license.ts:30-40, which requires `name`, `vendor`, `type`, `key`, `totalQuantity`, `purchaseDate` and `cost` | any request, e.g. target "u1", type M365_E3, quantity 1: the object has no `name`, so `safeParse` fails with "Required" issues and `assignLicense` answers "License validation failed" | a schema for the request itself: a positive quantity and a non-empty target id | not executed | LicenseValidation.AsWrittenSchemaRejectsEveryRequest | LicenseValidation.RequestSchemaAdmitsEligibleRequests |
