/** `validateLicenseAssignment`: a schema gate that short-circuits, then
    three rule checks whose errors accumulate, with one `catch` for any
    rejection of the directory calls. */
module LicenseValidation {
  import opened Base
  import opened Text
  import opened Lists
  import opened LicenseCatalog
  import opened LicenseLog

  /** The outcome of `safeParse` on the request: success, or the messages
      of its issues. */
  datatype SchemaResult = SchemaPassed | SchemaFailed(messages: seq<string>)

  /** What `getLicenseAvailability` reports. */
  datatype Availability = Availability(success: bool, available: int)

  /** The answers of the two directory calls the validator awaits: the
      seat availability of the type and the licenses the target holds. */
  datatype Directory = Directory(
    availability: Call<Availability>,
    currentLicenses: Call<seq<LicenseType>>)

  /** One entry of the verdict's error list. `Message` gives the text the
      source puts in the list for it. */
  datatype ValidationError =
    | SchemaIssue(issue: string)
    | InsufficientLicenses(required: int, available: int)
    | MissingPrerequisites(licenseType: LicenseType)
    | ConflictDetected
    | UnexpectedError

  function Message(e: ValidationError): string {
    match e
    case SchemaIssue(issue) => issue
    case InsufficientLicenses(q, a) =>
      "Insufficient licenses available. Required: " + IntToString(q) + ", Available: " + IntToString(a)
    case MissingPrerequisites(t) => "Missing required prerequisite licenses for " + Name(t)
    case ConflictDetected => "License conflicts detected with existing assignments"
    case UnexpectedError => "An unexpected error occurred during license validation"
  }

  /** The texts of a list of errors, in order. */
  function Messages(errors: seq<ValidationError>): (texts: seq<string>)
    ensures |texts| == |errors|
    ensures forall i :: 0 <= i < |errors| ==> texts[i] == Message(errors[i])
  {
    if errors == [] then [] else [Message(errors[0])] + Messages(errors[1..])
  }

  /** The schema's issue messages as verdict errors. */
  function Issues(messages: seq<string>): (errors: seq<ValidationError>)
    ensures Messages(errors) == messages
  {
    if messages == [] then [] else [SchemaIssue(messages[0])] + Issues(messages[1..])
  }

  datatype ValidationResult = ValidationResult(isValid: bool, errors: seq<ValidationError>)

  /** A validation's result and the audit entries it wrote. */
  datatype Validation = Validation(result: ValidationResult, logged: seq<OperationEntry>)

  /** The `failed` 'assign' entry written when an operation is refused. */
  function FailedEntry(t: LicenseType, targetId: string, targetType: TargetType, message: string): OperationEntry {
    OperationEntry(Assign, t, targetId, targetType, Failed, Some(message))
  }

  /** The errors the three rule checks contribute, in the order they run:
      at most three, and none exactly when the seats suffice and both the
      dependency and the conflict check pass. */
  function RuleErrors(t: LicenseType, quantity: int, a: Availability, held: seq<LicenseType>): (errors: seq<ValidationError>)
    ensures |errors| <= 3
    ensures errors == [] <==> a.success && quantity <= a.available && CheckDependencies(t, held) && CheckConflicts(t, held)
  {
    (if !a.success || a.available < quantity then [InsufficientLicenses(quantity, a.available)] else [])
    + (if !CheckDependencies(t, held) then [MissingPrerequisites(t)] else [])
    + (if !CheckConflicts(t, held) then [ConflictDetected] else [])
  }

  /** The `catch` block: one failed entry carrying the rejection's message,
      and a verdict with the single generic error. */
  function Caught(t: LicenseType, targetId: string, targetType: TargetType, e: Thrown): (v: Validation)
    ensures !v.result.isValid
    ensures |v.result.errors| == 1
    ensures Message(v.result.errors[0]) == "An unexpected error occurred during license validation"
    ensures |v.logged| == 1 && v.logged[0].operationType == Assign && v.logged[0].status == Failed
    ensures v.logged[0].errorMessage == Some(MessageOr(e, "Unknown error"))
  {
    Validation(ValidationResult(false, [UnexpectedError]),
               [FailedEntry(t, targetId, targetType, MessageOr(e, "Unknown error"))])
  }

  /** What `validateLicenseAssignment` returns and logs. A valid verdict
      comes only from the rule checks, with no error; at most one entry is
      logged, and one exactly when a directory call rejected. */
  function Validate(t: LicenseType, targetId: string, targetType: TargetType, quantity: int,
                    schema: SchemaResult, dir: Directory): (v: Validation)
    ensures v.result.isValid ==> ChecksRan(schema, dir) && v.result.errors == []
    ensures |v.logged| <= 1
    ensures v.logged != [] <==> CallRejected(schema, dir)
  {
    if schema.SchemaFailed? then Validation(ValidationResult(false, Issues(schema.messages)), [])
    else match dir.availability
      case Threw(e) => Caught(t, targetId, targetType, e)
      case Returned(a) =>
        match dir.currentLicenses
        case Threw(e) => Caught(t, targetId, targetType, e)
        case Returned(held) =>
          var errors := RuleErrors(t, quantity, a, held);
          Validation(ValidationResult(|errors| == 0, errors), [])
  }

  /** The path on which both directory calls answered and the rule checks
      ran. */
  predicate ChecksRan(schema: SchemaResult, dir: Directory) {
    schema.SchemaPassed? && dir.availability.Returned? && dir.currentLicenses.Returned?
  }

  /** The path on which one of the directory calls rejected. */
  predicate CallRejected(schema: SchemaResult, dir: Directory) {
    schema.SchemaPassed? && (dir.availability.Threw?
      || (dir.availability.Returned? && dir.currentLicenses.Threw?))
  }

  // ------------------------------------------------------------ the method

  /** `validateLicenseAssignment`, step by step over a local error list. */
  method ValidateLicenseAssignment(log: AuditLog, licenseType: LicenseType, targetId: string,
                                   targetType: TargetType, quantity: int,
                                   schema: SchemaResult, dir: Directory)
    returns (result: ValidationResult)
    modifies log
    ensures result == Validate(licenseType, targetId, targetType, quantity, schema, dir).result
    ensures log.entries == old(log.entries) + Validate(licenseType, targetId, targetType, quantity, schema, dir).logged
  {
    var errors: seq<ValidationError> := [];
    if schema.SchemaFailed? {
      return ValidationResult(false, Issues(schema.messages));
    }
    if dir.availability.Threw? {
      result := HandleValidationError(log, licenseType, targetId, targetType, dir.availability.error);
      return;
    }
    var availability := dir.availability.value;
    if !availability.success || availability.available < quantity {
      errors := errors + [InsufficientLicenses(quantity, availability.available)];
    }
    if dir.currentLicenses.Threw? {
      result := HandleValidationError(log, licenseType, targetId, targetType, dir.currentLicenses.error);
      return;
    }
    var currentLicenses := dir.currentLicenses.value;
    if !CheckDependencies(licenseType, currentLicenses) {
      errors := errors + [MissingPrerequisites(licenseType)];
    }
    if !CheckConflicts(licenseType, currentLicenses) {
      errors := errors + [ConflictDetected];
    }
    assert errors == RuleErrors(licenseType, quantity, availability, currentLicenses);
    return ValidationResult(|errors| == 0, errors);
  }

  /** The `catch` block of `validateLicenseAssignment`. */
  method HandleValidationError(log: AuditLog, licenseType: LicenseType, targetId: string,
                               targetType: TargetType, e: Thrown)
    returns (result: ValidationResult)
    modifies log
    ensures result == Caught(licenseType, targetId, targetType, e).result
    ensures log.entries == old(log.entries) + Caught(licenseType, targetId, targetType, e).logged
  {
    log.LogLicenseOperation(FailedEntry(licenseType, targetId, targetType, MessageOr(e, "Unknown error")));
    return ValidationResult(false, [UnexpectedError]);
  }

  // ------------------------------------------------- properties of Validate

  /** A failing schema short-circuits: its messages are the whole verdict,
      nothing is logged and the directory is not consulted. */
  lemma SchemaFailureShortCircuits(t: LicenseType, targetId: string, targetType: TargetType,
                                   q: int, messages: seq<string>, d1: Directory, d2: Directory)
    ensures var v := Validate(t, targetId, targetType, q, SchemaFailed(messages), d1);
      && !v.result.isValid
      && Messages(v.result.errors) == messages
      && v.logged == []
      && v == Validate(t, targetId, targetType, q, SchemaFailed(messages), d2)
  {
  }

  /** `isValid` holds exactly when the error list is empty (a failing
      schema always reports at least one issue). */
  lemma ValidIffNoErrors(t: LicenseType, targetId: string, targetType: TargetType, q: int,
                         schema: SchemaResult, dir: Directory)
    requires schema.SchemaFailed? ==> schema.messages != []
    ensures var r := Validate(t, targetId, targetType, q, schema, dir).result;
      r.isValid <==> r.errors == []
  {
    if schema.SchemaFailed? {
      assert |Messages(Issues(schema.messages))| == |schema.messages|;
    }
  }

  /** On the rule-check path the insufficient-seat error appears, once,
      exactly when availability failed or falls short of the quantity. */
  lemma AvailabilityErrorIff(t: LicenseType, targetId: string, targetType: TargetType, q: int,
                             schema: SchemaResult, dir: Directory)
    requires ChecksRan(schema, dir)
    ensures var a := dir.availability.value;
      var errors := Validate(t, targetId, targetType, q, schema, dir).result.errors;
      && (InsufficientLicenses(q, a.available) in errors <==> !a.success || a.available < q)
      && multiset(errors)[InsufficientLicenses(q, a.available)] <= 1
  {
    var a := dir.availability.value;
    var held := dir.currentLicenses.value;
    var b1, b2, b3 := !a.success || a.available < q, !CheckDependencies(t, held), !CheckConflicts(t, held);
    var x, y, z := InsufficientLicenses(q, a.available), MissingPrerequisites(t), ConflictDetected;
    var errors := Validate(t, targetId, targetType, q, schema, dir).result.errors;
    assert errors == (if b1 then [x] else []) + (if b2 then [y] else []) + (if b3 then [z] else []);
    FirstPickedOnce(b1, b2, b3, x, y, z);
  }

  /** Of three values each kept or dropped, the first is present exactly
      when kept, and then once, when it differs from the other two. */
  lemma FirstPickedOnce<T>(b1: bool, b2: bool, b3: bool, x: T, y: T, z: T)
    requires x != y && x != z
    ensures var s := (if b1 then [x] else []) + (if b2 then [y] else []) + (if b3 then [z] else []);
      (x in s <==> b1) && multiset(s)[x] <= 1
  {
    var p1: seq<T> := if b1 then [x] else [];
    var p2: seq<T> := if b2 then [y] else [];
    var p3: seq<T> := if b3 then [z] else [];
    var s := p1 + p2 + p3;
    assert multiset(s) == multiset(p1) + multiset(p2) + multiset(p3);
    assert multiset(p1)[x] == if b1 then 1 else 0;
    assert multiset(p2)[x] == 0 && multiset(p3)[x] == 0;
    assert x in s <==> x in multiset(s);
  }

  /** On the rule-check path the missing-prerequisite error naming the type
      appears exactly when `checkDependencies` fails. */
  lemma DependencyErrorIff(t: LicenseType, targetId: string, targetType: TargetType, q: int,
                           schema: SchemaResult, dir: Directory)
    requires ChecksRan(schema, dir)
    ensures var errors := Validate(t, targetId, targetType, q, schema, dir).result.errors;
      MissingPrerequisites(t) in errors <==> !CheckDependencies(t, dir.currentLicenses.value)
  {
  }

  /** On the rule-check path the conflict error appears exactly when
      `checkConflicts` fails. */
  lemma ConflictErrorIff(t: LicenseType, targetId: string, targetType: TargetType, q: int,
                         schema: SchemaResult, dir: Directory)
    requires ChecksRan(schema, dir)
    ensures var errors := Validate(t, targetId, targetType, q, schema, dir).result.errors;
      ConflictDetected in errors <==> !CheckConflicts(t, dir.currentLicenses.value)
  {
  }

  /** On the rule-check path the errors keep the fixed order availability,
      dependency, conflict, so there are at most three, and nothing is
      logged. */
  lemma ErrorsOrderedAndBounded(t: LicenseType, targetId: string, targetType: TargetType, q: int,
                                schema: SchemaResult, dir: Directory)
    requires ChecksRan(schema, dir)
    ensures var v := Validate(t, targetId, targetType, q, schema, dir);
      var a := dir.availability.value;
      && IsSubsequence(v.result.errors,
                       [InsufficientLicenses(q, a.available), MissingPrerequisites(t), ConflictDetected])
      && |v.result.errors| <= 3
      && v.logged == []
  {
    var a := dir.availability.value;
    var held := dir.currentLicenses.value;
    var b1, b2, b3 := !a.success || a.available < q, !CheckDependencies(t, held), !CheckConflicts(t, held);
    var x, y, z := InsufficientLicenses(q, a.available), MissingPrerequisites(t), ConflictDetected;
    var v := Validate(t, targetId, targetType, q, schema, dir);
    assert v.result.errors == (if b1 then [x] else []) + (if b2 then [y] else []) + (if b3 then [z] else []);
    assert v.logged == [];
    PickedInOrder(b1, b2, b3, x, y, z);
  }

  /** Some of three distinct values, each kept or dropped, stay in their
      order. */
  lemma PickedInOrder<T(!new)>(b1: bool, b2: bool, b3: bool, x: T, y: T, z: T)
    requires x != y && x != z && y != z
    ensures IsSubsequence((if b1 then [x] else []) + (if b2 then [y] else []) + (if b3 then [z] else []), [x, y, z])
  {
    var p3: seq<T> := if b3 then [z] else [];
    var p2 := (if b2 then [y] else []) + p3;
    assert IsSubsequence(p3, [z]) by {
      if b3 { SubsequenceKeep(z, [], []); }
    }
    assert [y, z] == [y] + [z];
    if b2 { SubsequenceKeep(y, p3, [z]); } else { SubsequenceSkip(y, p3, [z]); }
    assert [x, y, z] == [x] + [y, z];
    if b1 { SubsequenceKeep(x, p2, [y, z]); } else { SubsequenceSkip(x, p2, [y, z]); }
    assert (if b1 then [x] else []) + (if b2 then [y] else []) + p3 == (if b1 then [x] else []) + p2;
  }

  /** When a directory call rejects, the verdict is the single generic error
      and exactly one failed 'assign' entry carrying the rejection's message
      is logged. */
  lemma RejectionLogsOnce(t: LicenseType, targetId: string, targetType: TargetType, q: int,
                          schema: SchemaResult, dir: Directory)
    requires CallRejected(schema, dir)
    ensures var v := Validate(t, targetId, targetType, q, schema, dir);
      var e := if dir.availability.Threw? then dir.availability.error else dir.currentLicenses.error;
      && v.result == ValidationResult(false, [UnexpectedError])
      && v.logged == [OperationEntry(Assign, t, targetId, targetType, Failed, Some(MessageOr(e, "Unknown error")))]
  {
    var v := Validate(t, targetId, targetType, q, schema, dir);
    if dir.availability.Threw? {
      assert v == Caught(t, targetId, targetType, dir.availability.error);
    } else {
      assert v == Caught(t, targetId, targetType, dir.currentLicenses.error);
    }
  }

  /** A target missing a prerequisite is refused whatever the inventory. */
  lemma DependencyGate(t: LicenseType, targetId: string, targetType: TargetType, q: int,
                       schema: SchemaResult, dir: Directory)
    requires ChecksRan(schema, dir)
    requires exists d :: d in Dependencies(t) && d !in dir.currentLicenses.value
    ensures var r := Validate(t, targetId, targetType, q, schema, dir).result;
      !r.isValid && MissingPrerequisites(t) in r.errors
  {
  }

  /** A target holding a declared conflict of the type is refused. */
  lemma ConflictGate(t: LicenseType, targetId: string, targetType: TargetType, q: int,
                     schema: SchemaResult, dir: Directory)
    requires dir.currentLicenses.Returned?
    requires exists c :: c in Conflicts(t) && c in dir.currentLicenses.value
    ensures !Validate(t, targetId, targetType, q, schema, dir).result.isValid
  {
  }

  /** AAD_PREMIUM_P2 is never valid, whatever the directory answers. */
  lemma PremiumP2NeverValid(targetId: string, targetType: TargetType, q: int,
                            schema: SchemaResult, dir: Directory)
    ensures !Validate(AadPremiumP2, targetId, targetType, q, schema, dir).result.isValid
  {
    if ChecksRan(schema, dir) {
      PremiumP2NeverPasses(dir.currentLicenses.value);
    }
  }

  // -------------------------------------------- the schema actually applied

  /** The keys of the object the validator hands to `safeParse`. */
  const RequestKeys: set<string> := {"licenseType", "quantity", "targetId", "targetType"}

  /** The required keys of `licenseSchema`, the license-record schema the
      validator imports, in declaration order. */
  const LicenseRecordRequiredKeys: seq<string> :=
    ["name", "vendor", "type", "key", "totalQuantity", "purchaseDate", "cost"]

  /** `licenseSchema.safeParse` applied to an object with the given keys, as
      far as absent required keys go: one "Required" issue per absent key.
      (An object with all keys would still have its values checked; that
      case never arises for the request object.) */
  function RecordSchemaOnKeys(keys: set<string>): SchemaResult {
    var missing := Filter((k: string) => k !in keys, LicenseRecordRequiredKeys);
    if missing == [] then SchemaPassed else SchemaFailed(RequiredIssues(|missing|))
  }

  /** `n` copies of zod's "Required" message. */
  function RequiredIssues(n: nat): (r: seq<string>)
    ensures |r| == n
    ensures forall m :: m in r ==> m == "Required"
  {
    if n == 0 then [] else ["Required"] + RequiredIssues(n - 1)
  }

  /** As written, the record schema rejects the request object whatever its
      values (it has no `name`, for one), so every validation fails with
      "Required" issues only and the rule checks never run. */
  lemma AsWrittenSchemaRejectsEveryRequest(t: LicenseType, targetId: string, targetType: TargetType,
                                           q: int, dir: Directory)
    ensures var v := Validate(t, targetId, targetType, q, RecordSchemaOnKeys(RequestKeys), dir);
      && !v.result.isValid
      && v.result.errors != []
      && (forall m :: m in Messages(v.result.errors) ==> m == "Required")
      && !ChecksRan(RecordSchemaOnKeys(RequestKeys), dir)
  {
    var schema := RecordSchemaOnKeys(RequestKeys);
    RecordSchemaRejectsRequestKeys();
    var errors := Issues(schema.messages);
    assert Messages(errors) == schema.messages;
    assert errors != [] by { assert |Messages(errors)| == |errors|; }
  }

  /** The request object lacks `name`, so the record schema reports only
      "Required" issues, at least one of them. */
  lemma RecordSchemaRejectsRequestKeys()
    ensures RecordSchemaOnKeys(RequestKeys).SchemaFailed?
    ensures RecordSchemaOnKeys(RequestKeys).messages != []
    ensures forall m :: m in RecordSchemaOnKeys(RequestKeys).messages ==> m == "Required"
  {
    assert |"name"| == 4;
    assert "name" !in RequestKeys;
    assert "name" in LicenseRecordRequiredKeys;
    var missing := Filter((k: string) => k !in RequestKeys, LicenseRecordRequiredKeys);
    assert "name" in missing;
    assert RecordSchemaOnKeys(RequestKeys) == SchemaFailed(RequiredIssues(|missing|));
  }

  /** The request schema the validator evidently intends: a positive
      quantity and a non-empty target id (the license and target types are
      already restricted by their types). */
  function RequestSchema(targetId: string, quantity: int): SchemaResult {
    var issues := (if quantity <= 0 then ["Quantity must be positive"] else [])
      + (if targetId == "" then ["Target id is required"] else []);
    if issues == [] then SchemaPassed else SchemaFailed(issues)
  }

  /** The request schema accepts exactly the well-formed requests, reports
      an issue otherwise, and lets a well-formed request that satisfies
      every rule through as valid with no errors. */
  lemma RequestSchemaAdmitsEligibleRequests(t: LicenseType, targetId: string, targetType: TargetType,
                                            q: int, dir: Directory)
    ensures RequestSchema(targetId, q).SchemaPassed? <==> q > 0 && targetId != ""
    ensures RequestSchema(targetId, q).SchemaFailed? ==> RequestSchema(targetId, q).messages != []
    ensures q > 0 && targetId != "" && dir.availability.Returned? && dir.currentLicenses.Returned?
      && dir.availability.value.success && dir.availability.value.available >= q
      && CheckDependencies(t, dir.currentLicenses.value) && CheckConflicts(t, dir.currentLicenses.value)
      ==> Validate(t, targetId, targetType, q, RequestSchema(targetId, q), dir)
          == Validation(ValidationResult(true, []), [])
  {
  }
}
