/** What an agent reports about one application, and the expressions that are matched against it. */
module Evidence {
  import opened Wrappers

  datatype Platform = Windows | MacOS

  datatype Field =
    | RuntimeIdentity | BinaryHash | PackageId | DistributionKey | ProductKey | HostedAppId
    | SignerKey | FileSeriesKey | ProductName | DeclaredType | InstallationSource

  datatype AppEvidence = AppEvidence(
    platform: Platform,
    runtimeIdentity: string,
    values: map<Field, string>,
    verifiedFields: set<Field>)

  /** A condition without a value asks for a field that the evidence does not have. */
  datatype Condition = Condition(field: Field, value: Option<string>)

  /** `Unsupported` is any operator other than the two the program knows; it never matches. */
  datatype Operator = All | Any | Unsupported

  datatype Expression = Expression(operator: Operator, conditions: seq<Condition>)

  datatype Selector = Selector(platform: Platform, match_: Expression)

  /** The fields whose value identifies software on its own; the rest are hints. */
  predicate Strong(field: Field) {
    field in {RuntimeIdentity, BinaryHash, PackageId, DistributionKey, ProductKey, HostedAppId,
              SignerKey, FileSeriesKey}
  }

  predicate SafeAutomatic(e: Expression) {
    && e.conditions != []
    && (match e.operator
        case All => exists c :: c in e.conditions && Strong(c.field)
        case Any => forall c :: c in e.conditions ==> Strong(c.field)
        case Unsupported => false)
  }

  function ActualValue(field: Field, ev: AppEvidence): Option<string> {
    if field == RuntimeIdentity then Some(ev.runtimeIdentity)
    else if field in ev.values then Some(ev.values[field])
    else None
  }

  predicate ConditionMatches(c: Condition, ev: AppEvidence, requireVerified: bool) {
    && ActualValue(c.field, ev) == c.value
    && (requireVerified && Strong(c.field) ==> c.field in ev.verifiedFields)
  }

  predicate Matches(e: Expression, ev: AppEvidence, requireVerified: bool) {
    && e.conditions != []
    && (match e.operator
        case All => forall c :: c in e.conditions ==> ConditionMatches(c, ev, requireVerified)
        case Any => exists c :: c in e.conditions && ConditionMatches(c, ev, requireVerified)
        case Unsupported => false)
  }

  predicate SelectorIdentifies(s: Selector, ev: AppEvidence) {
    s.platform == ev.platform && SafeAutomatic(s.match_) && Matches(s.match_, ev, true)
  }
}
