/** `assignLicense`: validate, append one audit entry for the outcome, and
    answer with an `AssignLicenseResult`. The grant itself is not
    implemented by the application, so no seat inventory changes. */
module LicenseAssignment {
  import opened Base
  import opened Text
  import opened LicenseCatalog
  import opened LicenseLog
  import opened LicenseValidation

  datatype AssignLicenseResult = AssignLicenseResult(success: bool, message: string, errors: Option<seq<string>>)

  /** An assignment's result and every audit entry the call wrote, the
      validator's included, in order. */
  datatype Assignment = Assignment(result: AssignLicenseResult, logged: seq<OperationEntry>)

  /** The `success` 'assign' entry. */
  function SuccessEntry(t: LicenseType, targetId: string, targetType: TargetType): OperationEntry {
    OperationEntry(Assign, t, targetId, targetType, Success, None)
  }

  /** The quantity the validator is given: the caller's, or one when the
      caller passes none. */
  function QuantityOrDefault(quantity: Option<int>): (q: int)
    ensures quantity.Some? ==> q == quantity.value
    ensures quantity.None? ==> q == 1
  {
    quantity.GetOr(1)
  }

  /** What `assignLicense` returns and logs, given what the schema and the
      directory answer: success exactly when the verdict is valid, and the
      validator's entries followed by one entry of its own. */
  function AssignSpec(targetId: string, targetType: TargetType, t: LicenseType, quantity: Option<int>,
                      schema: SchemaResult, dir: Directory): (a: Assignment)
    ensures var v := Validate(t, targetId, targetType, QuantityOrDefault(quantity), schema, dir);
      && (a.result.success <==> v.result.isValid)
      && |a.logged| == |v.logged| + 1
      && a.logged[..|v.logged|] == v.logged
  {
    var v := Validate(t, targetId, targetType, QuantityOrDefault(quantity), schema, dir);
    if !v.result.isValid then
      var texts := Messages(v.result.errors);
      Assignment(AssignLicenseResult(false, "License validation failed", Some(texts)),
                 v.logged + [FailedEntry(t, targetId, targetType, Join(texts, ", "))])
    else
      Assignment(AssignLicenseResult(true, "License assigned successfully", None),
                 v.logged + [SuccessEntry(t, targetId, targetType)])
  }

  /** `assignLicense`, with a log append that never rejects (an entry id
      is always available), so its `catch` is not entered. */
  method AssignLicense(log: AuditLog, targetId: string, targetType: TargetType, licenseType: LicenseType,
                       quantity: Option<int>, schema: SchemaResult, dir: Directory)
    returns (result: AssignLicenseResult)
    modifies log
    ensures result == AssignSpec(targetId, targetType, licenseType, quantity, schema, dir).result
    ensures log.entries == old(log.entries) + AssignSpec(targetId, targetType, licenseType, quantity, schema, dir).logged
  {
    var q := QuantityOrDefault(quantity);
    ghost var v := Validate(licenseType, targetId, targetType, q, schema, dir);
    ghost var spec := AssignSpec(targetId, targetType, licenseType, quantity, schema, dir);
    var validation := ValidateLicenseAssignment(log, licenseType, targetId, targetType, q, schema, dir);
    assert log.entries == old(log.entries) + v.logged;
    if !validation.isValid {
      var texts := Messages(validation.errors);
      log.LogLicenseOperation(FailedEntry(licenseType, targetId, targetType, Join(texts, ", ")));
      assert spec.logged == v.logged + [FailedEntry(licenseType, targetId, targetType, Join(texts, ", "))];
      return AssignLicenseResult(false, "License validation failed", Some(texts));
    }
    log.LogLicenseOperation(SuccessEntry(licenseType, targetId, targetType));
    assert spec.logged == v.logged + [SuccessEntry(licenseType, targetId, targetType)];
    return AssignLicenseResult(true, "License assigned successfully", None);
  }

  // ------------------------------------------------------------ properties

  /** The last entry an assignment appends is its own: an 'assign' entry on
      the request's type and target whose status agrees with `success`, and
      whose message is the joined error texts exactly when it failed. */
  lemma OutcomeMatchesLastEntry(targetId: string, targetType: TargetType, t: LicenseType, quantity: Option<int>,
                                schema: SchemaResult, dir: Directory)
    ensures var a := AssignSpec(targetId, targetType, t, quantity, schema, dir);
      && a.logged != []
      && var last := a.logged[|a.logged| - 1];
      && last.operationType == Assign && last.licenseType == t
      && last.targetId == targetId && last.targetType == targetType
      && (a.result.success <==> last.status == Success)
      && (a.result.success <==> a.result.errors == None)
      && (!a.result.success ==> last.errorMessage == Some(Join(a.result.errors.value, ", ")))
      && (a.result.success ==> last.errorMessage == None)
  {
    var v := Validate(t, targetId, targetType, QuantityOrDefault(quantity), schema, dir);
    var a := AssignSpec(targetId, targetType, t, quantity, schema, dir);
    if v.result.isValid {
      assert a.logged == v.logged + [SuccessEntry(t, targetId, targetType)];
    } else {
      assert a.logged == v.logged + [FailedEntry(t, targetId, targetType, Join(Messages(v.result.errors), ", "))];
    }
  }

  /** A refused assignment reports the validator's errors, in order. */
  lemma FailureReportsValidatorErrors(targetId: string, targetType: TargetType, t: LicenseType,
                                      quantity: Option<int>, schema: SchemaResult, dir: Directory)
    ensures var a := AssignSpec(targetId, targetType, t, quantity, schema, dir);
      var v := Validate(t, targetId, targetType, QuantityOrDefault(quantity), schema, dir);
      && (a.result.success <==> v.result.isValid)
      && (!a.result.success ==> a.result.message == "License validation failed"
                                && a.result.errors == Some(Messages(v.result.errors)))
      && (a.result.success ==> a.result.message == "License assigned successfully")
  {
  }

  /** When both directory calls answer (or the schema fails), one call
      appends exactly one entry. */
  lemma LogsOnceWhenNoCallRejects(targetId: string, targetType: TargetType, t: LicenseType,
                                  quantity: Option<int>, schema: SchemaResult, dir: Directory)
    requires !CallRejected(schema, dir)
    ensures |AssignSpec(targetId, targetType, t, quantity, schema, dir).logged| == 1
  {
  }

  /** When a directory call rejects, the call appends two failed entries:
      the validator's, carrying the rejection's message, then its own,
      carrying the generic validation message. */
  lemma RejectionLogsTwice(targetId: string, targetType: TargetType, t: LicenseType,
                           quantity: Option<int>, schema: SchemaResult, dir: Directory)
    requires CallRejected(schema, dir)
    ensures var a := AssignSpec(targetId, targetType, t, quantity, schema, dir);
      var e := if dir.availability.Threw? then dir.availability.error else dir.currentLicenses.error;
      && !a.result.success
      && a.logged == [FailedEntry(t, targetId, targetType, MessageOr(e, "Unknown error")),
                      FailedEntry(t, targetId, targetType, "An unexpected error occurred during license validation")]
  {
    var q := QuantityOrDefault(quantity);
    RejectionLogsOnce(t, targetId, targetType, q, schema, dir);
    assert Messages([UnexpectedError]) == ["An unexpected error occurred during license validation"];
  }

  /** An omitted quantity behaves as a quantity of one. */
  lemma QuantityDefaultsToOne(targetId: string, targetType: TargetType, t: LicenseType,
                              schema: SchemaResult, dir: Directory)
    ensures AssignSpec(targetId, targetType, t, None, schema, dir)
         == AssignSpec(targetId, targetType, t, Some(1), schema, dir)
  {
  }

  /** AAD_PREMIUM_P2 is never assigned. */
  lemma PremiumP2NeverAssigned(targetId: string, targetType: TargetType, quantity: Option<int>,
                               schema: SchemaResult, dir: Directory)
    ensures !AssignSpec(targetId, targetType, AadPremiumP2, quantity, schema, dir).result.success
  {
    PremiumP2NeverValid(targetId, targetType, QuantityOrDefault(quantity), schema, dir);
  }

  /** A request the schema rejects is refused with the schema's messages
      as its errors, and only the refusal is logged. */
  lemma SchemaRejectionRefused(targetId: string, targetType: TargetType, t: LicenseType,
                               quantity: Option<int>, messages: seq<string>, dir: Directory)
    ensures AssignSpec(targetId, targetType, t, quantity, SchemaFailed(messages), dir)
         == Assignment(AssignLicenseResult(false, "License validation failed", Some(messages)),
                       [FailedEntry(t, targetId, targetType, Join(messages, ", "))])
  {
    SchemaFailureShortCircuits(t, targetId, targetType, QuantityOrDefault(quantity), messages, dir, dir);
  }

  /** With the record schema the validator applies, no assignment succeeds,
      and each refusal is logged once with "Required" issues only. */
  lemma AsWrittenAssignNeverSucceeds(targetId: string, targetType: TargetType, t: LicenseType,
                                     quantity: Option<int>, dir: Directory)
    ensures var a := AssignSpec(targetId, targetType, t, quantity, RecordSchemaOnKeys(RequestKeys), dir);
      && !a.result.success
      && |a.logged| == 1
      && a.result.errors.Some?
      && (forall m :: m in a.result.errors.value ==> m == "Required")
  {
    RecordSchemaRejectsRequestKeys();
    SchemaRejectionRefused(targetId, targetType, t, quantity, RecordSchemaOnKeys(RequestKeys).messages, dir);
  }

  /** With the request schema, an eligible request is assigned and logged
      once as a success. */
  lemma EligibleRequestIsAssigned(targetId: string, targetType: TargetType, t: LicenseType,
                                  quantity: Option<int>, dir: Directory)
    requires QuantityOrDefault(quantity) > 0 && targetId != ""
    requires dir.availability.Returned? && dir.currentLicenses.Returned?
    requires dir.availability.value.success && dir.availability.value.available >= QuantityOrDefault(quantity)
    requires CheckDependencies(t, dir.currentLicenses.value) && CheckConflicts(t, dir.currentLicenses.value)
    ensures AssignSpec(targetId, targetType, t, quantity, RequestSchema(targetId, QuantityOrDefault(quantity)), dir)
         == Assignment(AssignLicenseResult(true, "License assigned successfully", None),
                       [SuccessEntry(t, targetId, targetType)])
  {
    RequestSchemaAdmitsEligibleRequests(t, targetId, targetType, QuantityOrDefault(quantity), dir);
  }
}
