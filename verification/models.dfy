/** pkg/types: statuses, severities, outage rows, validation and time normalisation. */
module Models {
  import opened Base

  datatype Severity =
    | SeverityDown
    | SeverityDegraded
    | SeveritySuspected
    | SeverityCapacityExhausted
    | SeverityOther(text: string) // any other string; "" when a conversion has no result

  datatype Status =
    | StatusHealthy
    | StatusDegraded
    | StatusDown
    | StatusCapacityExhausted
    | StatusSuspected
    | StatusPartial
    | StatusOther(text: string)

  function ToStatus(s: Severity): Status {
    match s
    case SeverityDown => StatusDown
    case SeverityDegraded => StatusDegraded
    case SeverityCapacityExhausted => StatusCapacityExhausted
    case SeveritySuspected => StatusSuspected
    case SeverityOther(_) => StatusOther("Invalid")
  }

  function ToSeverity(s: Status): Severity {
    match s
    case StatusDown => SeverityDown
    case StatusDegraded => SeverityDegraded
    case StatusCapacityExhausted => SeverityCapacityExhausted
    case StatusSuspected => SeveritySuspected
    case _ => SeverityOther("")
  }

  /** Criticality; 0 marks a string that names no severity. */
  function SeverityLevel(s: Severity): nat {
    match s
    case SeverityDown => 4
    case SeverityDegraded => 3
    case SeverityCapacityExhausted => 2
    case SeveritySuspected => 1
    case SeverityOther(_) => 0
  }

  function StatusLevel(s: Status): nat {
    SeverityLevel(ToSeverity(s))
  }

  predicate IsValidSeverity(s: Severity) {
    !s.SeverityOther?
  }

  datatype CheckType = CheckPrometheus | CheckHTTP | CheckSystemd | CheckJUnit

  datatype Reason = Reason(checkType: CheckType, check: string, results: string)

  /** The own columns of an outage row; its primary key is the key of the table. */
  datatype Outage = Outage(
    component: string,
    subComponent: string,
    severity: Severity,
    start: Time,
    end: Option<Time>,
    description: string,
    discoveredFrom: string,
    createdBy: string,
    confirmedAt: Option<Time>,
    triageNotes: Option<string>,
    updatedAt: Time)

  predicate Valid(o: Outage) {
    && IsValidSeverity(o.severity)
    && o.start != 0
    && !Blank(o.description)
    && o.discoveredFrom != ""
    && o.createdBy != ""
  }

  /** `Outage.Validate`, with its messages counted: a row is accepted when none was added. */
  method Validate(o: Outage) returns (valid: bool)
    ensures valid <==> Valid(o)
  {
    TrimSpaceBlank(o.description);
    var messages := 0;
    if o.severity == SeverityOther("") {
      messages := messages + 1;
    } else if !IsValidSeverity(o.severity) {
      messages := messages + 1;
    }
    if o.start == 0 {
      messages := messages + 1;
    }
    if TrimSpace(o.description) == "" {
      messages := messages + 1;
    }
    if o.discoveredFrom == "" {
      messages := messages + 1;
    }
    if o.createdBy == "" {
      messages := messages + 1;
    }
    valid := messages == 0;
  }

  /** `roundOutageTimes`: every stored time is a whole second. */
  function Rounded(o: Outage): Outage {
    o.(start := Truncate(o.start), end := TruncateOption(o.end), confirmedAt := TruncateOption(o.confirmedAt))
  }

  predicate WholeSeconds(o: Outage) {
    Rounded(o) == o
  }

  /** What a row was when it was created and must stay. */
  predicate SameIdentity(a: Outage, b: Outage) {
    && a.component == b.component
    && a.subComponent == b.subComponent
    && a.createdBy == b.createdBy
    && a.discoveredFrom == b.discoveredFrom
  }

  /** The two notions of "active": `end_time IS NULL`, and `end_time IS NULL OR end_time > now`. */
  predicate OpenEnded(o: Outage) {
    o.end.None?
  }

  predicate ActiveAt(o: Outage, now: Time) {
    o.end.None? || o.end.value > now
  }

  /** Truncation is a projection: stored times are fixed points of it. */
  lemma RoundedIdempotent(o: Outage)
    ensures WholeSeconds(Rounded(o))
  {
    TruncateTwice(o.start);
    if o.end.Some? {
      TruncateTwice(o.end.value);
    }
    if o.confirmedAt.Some? {
      TruncateTwice(o.confirmedAt.value);
    }
  }

  lemma TruncateTwice(t: Time)
    ensures Truncate(Truncate(t)) == Truncate(t)
  {
  }
}
