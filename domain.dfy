/** Values of the service's domain: the transaction DTO, stored rules and gating decisions
    (internal/dto/transaction.go, internal/repository/rules/base.go, rules/decision.go). */
module Domain {
  import opened Results

  /** A Go dynamic value (`interface{}` / `any`), as found in decoded JSON objects and in
      transaction metadata. JSON numbers decode as `Float64`. */
  datatype Value =
    | Nil
    | Float64(f: real)
    | Float32(f: real)
    | Int(n: int)
    | Int64(n: int)
    | Str(s: string)
    | Bool(b: bool)
    | Composite  // slices, nested objects and every other dynamic type

  /** Go's `m[key]` on a `map[string]interface{}`: a missing key reads as nil. */
  function Get(m: map<string, Value>, key: string): Value
  {
    if key in m then m[key] else Nil
  }

  /** dto.Transaction */
  datatype Transaction = Transaction(
    id: string,
    customerId: string,
    fromAcc: string,
    toAcc: string,
    amount: real,
    currency: string,
    metadata: map<string, Value>)

  /** The closed set of rule type tags ("amount_threshold", "sanctions_list"). */
  datatype RuleType = AmountThreshold | SanctionsList

  /** rules.RuleBase without gorm's bookkeeping columns. */
  datatype RuleBase = RuleBase(name: string, description: string, ruleType: RuleType, user: string)

  /** A stored rule: its base, the nullable `Threshold` column, and the raw `Params` text
      that the weighted service decodes as JSON. */
  datatype Rule = Rule(base: RuleBase, threshold: Option<real>, params: string)

  /** rules.Decision without gorm's bookkeeping columns. */
  datatype Decision = Decision(approved: bool, reason: string)
}
