/** The rule store as the service sees it (internal/repository). The database itself is not
    modelled: each query's answer for one request is an input. */
module Repository {
  import opened Results
  import opened Domain

  /** What gorm's `First` on the sanctions table reports for one account id. */
  datatype QueryOutcome = RecordFound | RecordNotFound | QueryFailed(error: Error)

  /** An audit row with the fields the weighted service writes and reads back; `score` is the
      number rendered into the `Meta` text. */
  datatype AuditLog = AuditLog(
    transactionId: string,
    customerId: string,
    decision: string,
    reason: string,
    score: real)

  /** The store's answers during one request. */
  datatype Store = Store(
    findRulesByType: RuleType -> Result<seq<Rule>>,
    sanctionsQuery: string -> QueryOutcome,
    listAuditsForCustomer: (string, int) -> Result<seq<AuditLog>>)

  /** IsAccountSanctioned: a found record means sanctioned, "record not found" means clear,
      and any other failure is returned as an error. */
  function IsAccountSanctioned(store: Store, accId: string): (r: Result<bool>)
    ensures r == Ok(true) <==> store.sanctionsQuery(accId) == RecordFound
    ensures r == Ok(false) <==> store.sanctionsQuery(accId) == RecordNotFound
    ensures r.Err? <==> store.sanctionsQuery(accId).QueryFailed?
    ensures r.Err? ==> r.error == store.sanctionsQuery(accId).error
  {
    match store.sanctionsQuery(accId)
    case RecordFound => Ok(true)
    case RecordNotFound => Ok(false)
    case QueryFailed(e) => Err(e)
  }
}
