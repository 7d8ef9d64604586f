/**
 * The audit trail records and the audit filter with its date-range check.
 */
module AuditModel {
  import opened Wrappers
  import opened PyValue
  import opened EncounterModel

  /** One audit trail entry. `additionalData` may hold `None` when a caller
      passes it explicitly; left out, it is the empty dictionary. */
  datatype AuditEvent = AuditEvent(
    eventId: string,
    eventType: string,
    resourceType: string,
    resourceId: string,
    userId: string,
    timestamp: int,
    ipAddress: Option<string>,
    userAgent: Option<string>,
    additionalData: Option<Dict>)

  /** An event built from the required fields alone: no address, no user agent
      and an empty (not a missing) dictionary of additional data. */
  function DefaultAuditEvent(eventId: string, eventType: string, resourceType: string,
                             resourceId: string, userId: string, timestamp: int): (e: AuditEvent)
    ensures e.ipAddress.None? && e.userAgent.None?
    ensures e.additionalData == Some([])
    ensures e.eventId == eventId && e.resourceId == resourceId && e.userId == userId
  {
    AuditEvent(eventId, eventType, resourceType, resourceId, userId, timestamp, None, None, Some([]))
  }

  datatype AuditFilter = AuditFilter(
    resourceType: Option<string>,
    resourceId: Option<string>,
    userId: Option<string>,
    eventType: Option<string>,
    startDate: Option<int>,
    endDate: Option<int>)

  /** Building an `AuditFilter` runs the same date-range check as the encounter
      filter: it fails exactly when both ends are given and the end comes first. */
  function MakeAuditFilter(resourceType: Option<string>, resourceId: Option<string>,
                           userId: Option<string>, eventType: Option<string>,
                           startDate: Option<int>, endDate: Option<int>): (r: Result<AuditFilter, string>)
    ensures r.Ok? ==> r.value == AuditFilter(resourceType, resourceId, userId, eventType, startDate, endDate)
    ensures r.Ok? && startDate.Some? && endDate.Some? ==> startDate.value <= endDate.value
    ensures r.Err? <==> startDate.Some? && endDate.Some? && endDate.value < startDate.value
    ensures r.Err? ==> r.error == DateRangeMessage
  {
    match ValidateDateRange(startDate, endDate)
    case Ok(e) => Ok(AuditFilter(resourceType, resourceId, userId, eventType, startDate, e))
    case Err(m) => Err(m)
  }
}
