/** The binary gating variant of ValidateTransaction (internal/service/compliance.go): amount
    rules first, stopping at the first rule whose threshold is exceeded, then the from-account
    and to-account sanction lookups. */
module Gating {
  import opened Results
  import opened Domain
  import opened Repository
  import AmountRule

  const FromSanctioned: string := "From account is sanctioned"
  const ToSanctioned: string := "To account is sanctioned"

  /** A rule that carries a threshold which the amount strictly exceeds. */
  predicate Exceeds(r: Rule, tx: Transaction)
  {
    r.threshold.Some? && tx.amount > r.threshold.value
  }

  /** The decision of the first rule (in store order) that rejects `tx`, skipping rules whose
      threshold is nil. */
  function FirstRejection(rules: seq<Rule>, tx: Transaction): (d: Option<Decision>)
    ensures d.Some? <==> exists k :: 0 <= k < |rules| && Exceeds(rules[k], tx)
    ensures d.Some? ==> d.value == Decision(false, AmountRule.ExceedsThreshold)
  {
    if rules == [] then None
    else if rules[0].threshold.None? then FirstRejection(rules[1..], tx)
    else
      var dec := AmountRule.Validate(AmountRule.AmountThresholdRule(rules[0].base, rules[0].threshold.value), tx);
      if !dec.approved then Some(dec) else FirstRejection(rules[1..], tx)
  }

  /** Everything passes: the amount rules were fetched, none is exceeded, and both accounts
      are reported clear. */
  predicate AllChecksPass(store: Store, tx: Transaction)
  {
    && store.findRulesByType(AmountThreshold).Ok?
    && (forall k :: 0 <= k < |store.findRulesByType(AmountThreshold).value| ==>
          !Exceeds(store.findRulesByType(AmountThreshold).value[k], tx))
    && store.sanctionsQuery(tx.fromAcc) == RecordNotFound
    && store.sanctionsQuery(tx.toAcc) == RecordNotFound
  }

  /** What ValidateTransaction returns: a decision, or the first store error met. */
  function Gate(store: Store, tx: Transaction): (r: Result<Decision>)
    ensures r == Ok(Decision(true, AmountRule.OkReason)) <==> AllChecksPass(store, tx)
    ensures r.Ok? && r.value.approved ==> r.value.reason == AmountRule.OkReason
  {
    match store.findRulesByType(AmountThreshold)
    case Err(e) => Err(e)
    case Ok(amtRules) =>
      match FirstRejection(amtRules, tx)
      case Some(d) => Ok(d)
      case None =>
        match IsAccountSanctioned(store, tx.fromAcc)
        case Err(e) => Err(e)
        case Ok(true) => Ok(Decision(false, FromSanctioned))
        case Ok(false) =>
          match IsAccountSanctioned(store, tx.toAcc)
          case Err(e) => Err(e)
          case Ok(true) => Ok(Decision(false, ToSanctioned))
          case Ok(false) => Ok(Decision(true, AmountRule.OkReason))
  }

  /** ComplianceService.ValidateTransaction, step by step as the service runs it. */
  method ValidateTransaction(store: Store, tx: Transaction) returns (res: Result<Decision>)
    ensures res == Gate(store, tx)
  {
    var fetched := store.findRulesByType(AmountThreshold);
    if fetched.Err? {
      return Err(fetched.error);
    }
    var amtRules := fetched.value;
    for k := 0 to |amtRules|
      invariant FirstRejection(amtRules[k..], tx) == FirstRejection(amtRules, tx)
    {
      assert amtRules[k..][1..] == amtRules[k + 1..];
      var r := amtRules[k];
      if r.threshold.None? {
        continue;
      }
      var ar := AmountRule.AmountThresholdRule(r.base, r.threshold.value);
      var dec := AmountRule.Validate(ar, tx);
      if !dec.approved {
        return Ok(dec);
      }
    }
    assert amtRules[|amtRules|..] == [];

    var fromSanctioned := IsAccountSanctioned(store, tx.fromAcc);
    if fromSanctioned.Err? {
      return Err(fromSanctioned.error);
    }
    if fromSanctioned.value {
      return Ok(Decision(false, FromSanctioned));
    }

    var toSanctioned := IsAccountSanctioned(store, tx.toAcc);
    if toSanctioned.Err? {
      return Err(toSanctioned.error);
    }
    if toSanctioned.value {
      return Ok(Decision(false, ToSanctioned));
    }

    return Ok(Decision(true, AmountRule.OkReason));
  }

  /** A failure to fetch the amount rules is returned as that error, with no decision. */
  lemma RuleStoreErrorIsReturned(store: Store, tx: Transaction)
    requires store.findRulesByType(AmountThreshold).Err?
    ensures Gate(store, tx) == Err(store.findRulesByType(AmountThreshold).error)
  {
  }

  /** A rule with a nil threshold never changes the outcome, wherever it stands in the list. */
  lemma {:induction false} NilThresholdIsSkipped(rules: seq<Rule>, k: nat, nil: Rule, tx: Transaction)
    requires k <= |rules| && nil.threshold.None?
    ensures FirstRejection(rules[..k] + [nil] + rules[k..], tx) == FirstRejection(rules, tx)
  {
    if k == 0 {
      assert ([nil] + rules)[1..] == rules;
      assert rules[..0] + [nil] + rules[0..] == [nil] + rules;
    } else {
      NilThresholdIsSkipped(rules[1..], k - 1, nil, tx);
      var whole := rules[..k] + [nil] + rules[k..];
      assert whole[0] == rules[0];
      assert whole[1..] == rules[1..][..k - 1] + [nil] + rules[1..][k - 1..];
    }
  }

  /** An exceeded threshold rejects with "Transaction exceeds threshold", and the sanctions
      table is never consulted: any store that returns the same amount rules gives the same
      result. */
  lemma ExceededThresholdRejects(store: Store, store': Store, tx: Transaction)
    requires store.findRulesByType(AmountThreshold).Ok?
    requires exists k :: 0 <= k < |store.findRulesByType(AmountThreshold).value| &&
                         Exceeds(store.findRulesByType(AmountThreshold).value[k], tx)
    requires store'.findRulesByType(AmountThreshold) == store.findRulesByType(AmountThreshold)
    ensures Gate(store, tx) == Ok(Decision(false, AmountRule.ExceedsThreshold))
    ensures Gate(store', tx) == Gate(store, tx)
  {
  }

  /** An amount at or below every non-nil threshold, in particular one equal to all of them,
      passes the amount stage. */
  lemma AmountAtThresholdsPasses(rules: seq<Rule>, tx: Transaction)
    requires forall k :: 0 <= k < |rules| && rules[k].threshold.Some? ==> tx.amount <= rules[k].threshold.value
    ensures FirstRejection(rules, tx) == None
  {
  }

  /** After the amount stage passes, a sanctioned from-account rejects, and the to-account's
      answer is never consulted. */
  lemma FromAccountSanctionedRejects(store: Store, store': Store, tx: Transaction)
    requires store.findRulesByType(AmountThreshold).Ok?
    requires FirstRejection(store.findRulesByType(AmountThreshold).value, tx) == None
    requires store.sanctionsQuery(tx.fromAcc) == RecordFound
    requires store'.findRulesByType(AmountThreshold) == store.findRulesByType(AmountThreshold)
    requires store'.sanctionsQuery(tx.fromAcc) == RecordFound
    ensures Gate(store, tx) == Ok(Decision(false, FromSanctioned))
    ensures Gate(store', tx) == Gate(store, tx)
  {
  }

  /** A clear from-account and a sanctioned to-account reject with "To account is sanctioned". */
  lemma ToAccountSanctionedRejects(store: Store, tx: Transaction)
    requires store.findRulesByType(AmountThreshold).Ok?
    requires FirstRejection(store.findRulesByType(AmountThreshold).value, tx) == None
    requires store.sanctionsQuery(tx.fromAcc) == RecordNotFound
    requires store.sanctionsQuery(tx.toAcc) == RecordFound
    ensures Gate(store, tx) == Ok(Decision(false, ToSanctioned))
  {
  }

  /** A failed sanctions lookup that is reached is returned as an error, never as a decision. */
  lemma SanctionsLookupErrorIsReturned(store: Store, tx: Transaction)
    requires store.findRulesByType(AmountThreshold).Ok?
    requires FirstRejection(store.findRulesByType(AmountThreshold).value, tx) == None
    requires store.sanctionsQuery(tx.fromAcc).QueryFailed?
             || (store.sanctionsQuery(tx.fromAcc) == RecordNotFound && store.sanctionsQuery(tx.toAcc).QueryFailed?)
    ensures Gate(store, tx).Err?
    ensures store.sanctionsQuery(tx.fromAcc).QueryFailed? ==> Gate(store, tx).error == store.sanctionsQuery(tx.fromAcc).error
    ensures !store.sanctionsQuery(tx.fromAcc).QueryFailed? ==> Gate(store, tx).error == store.sanctionsQuery(tx.toAcc).error
  {
  }

  /** The amount stage reads nothing of a transaction but its amount. */
  lemma {:induction false} FirstRejectionReadsOnlyAmount(rules: seq<Rule>, tx: Transaction, tx': Transaction)
    requires tx.amount == tx'.amount
    ensures FirstRejection(rules, tx) == FirstRejection(rules, tx')
  {
    if rules != [] {
      FirstRejectionReadsOnlyAmount(rules[1..], tx, tx');
    }
  }

  /** Id, customer, currency and metadata never influence the result. */
  lemma GateIgnoresCustomerCurrencyAndMetadata(store: Store, tx: Transaction, tx': Transaction)
    requires tx.amount == tx'.amount && tx.fromAcc == tx'.fromAcc && tx.toAcc == tx'.toAcc
    ensures Gate(store, tx) == Gate(store, tx')
  {
    if store.findRulesByType(AmountThreshold).Ok? {
      FirstRejectionReadsOnlyAmount(store.findRulesByType(AmountThreshold).value, tx, tx');
    }
  }
}
