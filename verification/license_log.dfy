/** The license operation audit trail: every assignment attempt appends an
    entry, and nothing is ever removed or rewritten. */
module LicenseLog {
  import opened Base
  import opened LicenseCatalog

  datatype OperationType = Assign | Unassign
  datatype TargetType = User | Group
  datatype Status = Success | Failed

  /** A `LicenseOperation` without its generated id and timestamp. */
  datatype OperationEntry = OperationEntry(
    operationType: OperationType,
    licenseType: LicenseType,
    targetId: string,
    targetType: TargetType,
    status: Status,
    errorMessage: Option<string>)

  /** The sink `logLicenseOperation` writes to, as an append-only list. */
  class AuditLog {
    var entries: seq<OperationEntry>

    constructor ()
      ensures entries == []
    {
      entries := [];
    }

    /** `logLicenseOperation`: appends one entry. */
    method LogLicenseOperation(e: OperationEntry)
      modifies this
      ensures entries == old(entries) + [e]
    {
      entries := entries + [e];
    }
  }
}
