/** The binary amount gate (internal/repository/rules/amountRule.go). */
module AmountRule {
  import opened Domain

  const ExceedsThreshold: string := "Transaction exceeds threshold"
  const OkReason: string := "OK"

  datatype AmountThresholdRule = AmountThresholdRule(base: RuleBase, threshold: real)

  /** AmountThresholdRule.Validate: rejects exactly the amounts strictly above the threshold. */
  function Validate(rule: AmountThresholdRule, tx: Transaction): (d: Decision)
    ensures d.approved <==> tx.amount <= rule.threshold
    ensures d.approved ==> d.reason == OkReason
    ensures !d.approved ==> d.reason == ExceedsThreshold
  {
    if tx.amount > rule.threshold then
      Decision(approved := false, reason := ExceedsThreshold)
    else
      Decision(approved := true, reason := OkReason)
  }

  /** An amount equal to the threshold passes. */
  lemma EqualAmountPasses(rule: AmountThresholdRule, tx: Transaction)
    requires tx.amount == rule.threshold
    ensures Validate(rule, tx) == Decision(true, OkReason)
  {
  }

  /** Once an amount is rejected, every larger amount is rejected with the same decision. */
  lemma RejectionIsMonotone(rule: AmountThresholdRule, tx: Transaction, larger: Transaction)
    requires !Validate(rule, tx).approved
    requires larger.amount >= tx.amount
    ensures Validate(rule, larger) == Validate(rule, tx)
  {
  }

  /** Only the amount and the threshold matter: accounts, customer, currency, metadata and
      the rule's name, description and owner do not. */
  lemma DependsOnlyOnAmountAndThreshold(
    rule: AmountThresholdRule, rule': AmountThresholdRule, tx: Transaction, tx': Transaction)
    requires rule.threshold == rule'.threshold && tx.amount == tx'.amount
    ensures Validate(rule, tx) == Validate(rule', tx')
  {
  }

  /** A zero or negative amount never exceeds a non-negative threshold. */
  lemma NonPositiveAmountPasses(rule: AmountThresholdRule, tx: Transaction)
    requires rule.threshold >= 0.0 && tx.amount <= 0.0
    ensures Validate(rule, tx) == Decision(true, OkReason)
  {
  }
}
