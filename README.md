# Transaction-compliance decision core, in Dafny

This project models the decision logic of a small Go transaction-compliance service. The service
screens a financial transaction in one of two ways, both present in the same package:

- **Weighted scoring** (`ComplianceService` in `internal/service/compliance_service.go`). It sums
  the weights of the `amount_threshold` rules whose threshold the amount meets. It adds 1.0 for
  each `sanctions_list` rule whose raw parameter text contains one of the transaction's ids. It
  adds the external fraud oracle's `score`. A total above 1.0 is halved. The result is classified
  as reject (≥ 1.5), review (≥ 0.7) or approve, and an audit record is written. `GetRiskScore`
  folds a customer's recent audit decisions into a score in [0, 1].
- **Binary gating** (`ComplianceService` in `internal/service/compliance.go`, using
  `AmountThresholdRule.Validate`). The first amount rule whose threshold is strictly exceeded
  rejects. Otherwise the from-account and then the to-account are looked up in the sanctions
  table. A store failure is returned as an error.

The fraud client (`internal/service/fraud_client.go`) contributes two pieces. With no URL
configured, it gives a fixed benign answer. `bytesReaderT` is the in-memory cursor that carries
the request body.

The rule store, the sanctions table, the audit listing, the JSON decoder, `ParseFloat` and the
fraud oracle are inputs, not I/O:

- `Repository.Store` bundles the store's answers for one request.
- `Scoring.Decoders` holds the decoders.
- `Scoring.FraudEvaluate` is the oracle's answer as a function of the payload.

Amounts, weights and scores are exact `real`s.

Files, one module each:

| file | module | source |
|---|---|---|
| results.dfy | Results | Go's `(value, error)` results and nil-able values |
| domain.dfy | Domain | internal/dto/transaction.go, internal/repository/rules/base.go, rules/decision.go |
| repository.dfy | Repository | internal/repository/repository.go, mysql_repository.go |
| amount_rule.dfy | AmountRule | internal/repository/rules/amountRule.go |
| gating.dfy | Gating | internal/service/compliance.go |
| strings.dfy | Strings | Go's `strings.Contains` |
| scoring.dfy | Scoring | internal/service/compliance_service.go |
| fraud_client.dfy | FraudClient | internal/service/fraud_client.go |

Three details of the code worth knowing:

- The weighted service approves with an empty reason (compliance_service.go:96). The gating
  service approves with "OK" (compliance.go:64).
- The binary gate rejects only amounts strictly above a threshold (amountRule.go:11). The weighted
  service adds a rule's weight when the amount meets or exceeds its threshold
  (compliance_service.go:62).
- The gating service's sanction reasons are "From account is sanctioned" and "To account is
  sanctioned" (compliance.go:50, 59).

## Model

| member | source | states |
|---|---|---|
| AmountRule.Validate | internal/repository/rules/amountRule.go:10-18 | approves exactly when amount ≤ threshold; reason "OK" when approved, "Transaction exceeds threshold" when not |
| AmountRule.EqualAmountPasses | internal/repository/rules/amountRule.go:11-17 | an amount equal to the threshold is approved with "OK" |
| AmountRule.RejectionIsMonotone | internal/repository/rules/amountRule.go:11 | if an amount is rejected, every larger amount is rejected under the same threshold |
| AmountRule.DependsOnlyOnAmountAndThreshold | internal/repository/rules/amountRule.go:10-18 | the decision depends only on the amount and the threshold; accounts, customer, currency, metadata and rule name do not matter |
| AmountRule.NonPositiveAmountPasses | internal/repository/rules/amountRule.go:11 | a zero or negative amount is never rejected by a non-negative threshold |
| Repository.IsAccountSanctioned | internal/repository/mysql_repository.go:61-71 | found record → Ok(true); record not found → Ok(false); any other query failure → that error |
| Gating.FirstRejection | internal/service/compliance.go:27-41 | the amount stage rejects iff some rule has a non-nil threshold that the amount strictly exceeds; its decision is then (false, "Transaction exceeds threshold") |
| Gating.Gate | internal/service/compliance.go:20-65 | approved with "OK" iff the rules were fetched, no threshold is exceeded and both accounts are reported clear; an approval always carries "OK" |
| Gating.ValidateTransaction | internal/service/compliance.go:20-66 | the loop with early returns and the two sequential lookups return exactly Gate's result |
| Gating.RuleStoreErrorIsReturned | internal/service/compliance.go:22-25 | a failed amount-rule fetch returns that error and no decision |
| Gating.NilThresholdIsSkipped | internal/service/compliance.go:28-31 | inserting a nil-threshold rule anywhere in the list never changes the amount stage |
| Gating.ExceededThresholdRejects | internal/service/compliance.go:27-41 | an exceeded threshold gives (false, "Transaction exceeds threshold"), and the result is the same for every sanctions table (no lookup is made) |
| Gating.AmountAtThresholdsPasses | internal/service/compliance.go:33-40 | an amount at or below every non-nil threshold, equality included, passes the amount stage |
| Gating.FromAccountSanctionedRejects | internal/service/compliance.go:45-52 | after the amount stage, a sanctioned from-account gives "From account is sanctioned" whatever the to-account's lookup would say |
| Gating.ToAccountSanctionedRejects | internal/service/compliance.go:54-61 | a clear from-account and a sanctioned to-account give "To account is sanctioned" |
| Gating.SanctionsLookupErrorIsReturned | internal/service/compliance.go:45-57 | a lookup failure that is reached is returned as that error, not as a decision |
| Gating.FirstRejectionReadsOnlyAmount | internal/service/compliance.go:27-41 | the amount stage reads only the transaction's amount |
| Gating.GateIgnoresCustomerCurrencyAndMetadata | internal/service/compliance.go:20-65 | transactions that agree on amount and both accounts get the same result; id, customer, currency and metadata never matter |
| Strings.Contains | internal/service/compliance_service.go:70 | true iff the needle occurs at some position of the text; so the empty needle is contained in every text |
| Scoring.ToFloat | internal/service/compliance_service.go:142-158 | numbers convert exactly, strings go through ParseFloat, and nil (a missing key), booleans and other values read as 0 |
| Scoring.RuleWeight | internal/service/compliance_service.go:54-65 | an undecodable rule adds 0; a decoded rule adds its weight when amount ≥ threshold and 0 when amount < threshold |
| Scoring.AmountAtThresholdAddsWeight | internal/service/compliance_service.go:62-64 | the comparison is inclusive: an amount equal to a decoded rule's threshold adds its weight |
| Scoring.AmountScore | internal/service/compliance_service.go:53-65 | the amount score, accumulated in store order, is non-negative when every rule's contribution is |
| Scoring.UndecodableRuleAddsNothing | internal/service/compliance_service.go:54-59 | a rule whose Params fail to decode leaves the amount score unchanged wherever it is inserted |
| Scoring.MissingParamsReadAsZero | internal/service/compliance_service.go:60-65 | a missing or unrecognised threshold reads as 0, so the weight is added for every non-negative amount; a missing weight adds 0 |
| Scoring.BelowEveryThresholdScoresZero | internal/service/compliance_service.go:60-65 | an amount below every decoded threshold scores 0 from the amount rules |
| Scoring.AmountScoreIsMonotone | internal/service/compliance_service.go:62-64 | with non-negative weights, a larger amount never has a smaller amount score |
| Scoring.AmountScoreAppend | internal/service/compliance_service.go:53-65 | the amount score of a concatenation of rule lists is the sum of the parts |
| Scoring.Matches | internal/service/compliance_service.go:70 | a rule whose Params contain the to-account, from-account or customer id hits; an empty id always hits |
| Scoring.SanctionsScore | internal/service/compliance_service.go:68-73 | the sanctions score lies between 0 and the number of sanctions rules |
| Scoring.Hits | internal/service/compliance_service.go:69-70 | the hitting sanctions rules: exactly the rules whose Params contain the to-account, from-account or customer id; never more than there are rules |
| Scoring.HitsKeepMultiplicity | internal/service/compliance_service.go:69-72 | each matching stored rule appears among the hits as often as it is stored; a non-matching rule never appears |
| Scoring.SanctionsScoreCountsHits | internal/service/compliance_service.go:68-73 | the sanctions score is exactly 1.0 per hitting rule, counted once per rule |
| Scoring.EmptyIdHitsEveryRule | internal/service/compliance_service.go:70 | if any of the three ids is empty, every sanctions rule hits |
| Scoring.SanctionsRules | internal/service/compliance_service.go:68 | a failed sanctions fetch is ignored and scans no rules; otherwise the fetched rules are scanned |
| Scoring.FraudPayload | internal/service/compliance_service.go:76-82 | the oracle is sent exactly the transaction id, amount, from-account, to-account and customer id |
| Scoring.ExternalScore | internal/service/compliance_service.go:83-88 | the oracle adds its "score" only when the call succeeded and the value is a float64; otherwise it adds 0 |
| Scoring.FraudFailureContributesZero | internal/service/compliance_service.go:83-88 | a failed fraud call still yields a decision, the one computed from the rule and sanctions scores alone |
| Scoring.Normalize | internal/service/compliance_service.go:91-93 | a raw score above 1.0 is halved exactly; one ≤ 1.0 is unchanged |
| Scoring.Classify | internal/service/compliance_service.go:95-103 | reject iff score ≥ 1.5; review iff 0.7 ≤ score < 1.5; approve iff score < 0.7 |
| Scoring.Outcome | internal/service/compliance_service.go:90-103 | the decision is one of approve/review/reject; approve iff the reason is empty; a non-negative raw score is never increased; reject only with a score ≥ 1.5 |
| Scoring.OutcomeByRawScore | internal/service/compliance_service.go:90-103 | in terms of the raw score: reject iff raw ≥ 3.0; review iff raw is in [0.7, 1.0] or [1.4, 3.0); approve iff raw < 0.7 or 1.0 < raw < 1.4; each tier carries its reason |
| Scoring.OutcomeIsNotMonotone | internal/service/compliance_service.go:90-103 | raw 1.0 is reviewed while raw 1.2 is approved |
| Scoring.Validate | internal/service/compliance_service.go:43-118 | fails iff the amount-rule fetch fails, with its error; otherwise the outcome of the sum of the amount, sanctions and oracle scores |
| Scoring.AuditOf | internal/service/compliance_service.go:105-113 | the audit record carries the transaction id, customer id, decision, reason and score of the result |
| Scoring.ValidateTransaction | internal/service/compliance_service.go:43-118 | the loops, the oracle call, normalisation and classification return exactly Validate's result; the audit record carries the same transaction, customer, decision, reason and score, and none is written when the rule fetch fails |
| Scoring.OnlyRuleStoreFailureFails | internal/service/compliance_service.go:47-50 | validation fails iff the amount-rule fetch fails, and then with that error; sanctions and oracle failures never fail it |
| Scoring.BenignTransactionIsApproved | internal/service/compliance_service.go:43-118 | below every threshold, matched by no sanctions rule and scored by the unconfigured client, the result is ("approve", "", 0.1) |
| Scoring.Tally | internal/service/compliance_service.go:126-134 | the accumulated history score lies between 0 and the number of audits |
| Scoring.TallyByCounts | internal/service/compliance_service.go:126-134 | the accumulated history score is 1.0 per "reject" plus 0.5 per "review" |
| Scoring.RiskScore | internal/service/compliance_service.go:135-139 | the tally capped at 5 and divided by 5 always lies in [0, 1] |
| Scoring.RiskScoreExtremes | internal/service/compliance_service.go:126-139 | no audits give 0; five or more rejects give exactly 1.0 |
| Scoring.GetRiskScore | internal/service/compliance_service.go:120-140 | a listing error gives (0, err); otherwise no error and the risk score of the listed audits, always in [0, 1] |
| FraudClient.Evaluate | internal/service/fraud_client.go:26-44 | with an empty URL: Ok with exactly {score: 0.1, recommendation: "approve"}; otherwise the transport's answer for the payload |
| FraudClient.UnconfiguredIgnoresPayload | internal/service/fraud_client.go:27-30 | the unconfigured client's answer does not depend on the payload or the transport |
| FraudClient.BytesReader.constructor | internal/service/fraud_client.go:47 | a new reader shares the given buffer, and its cursor is at 0 |
| FraudClient.BytesReader.Read | internal/service/fraud_client.go:55-62 | at the end: (0, EOF) with nothing changed. Otherwise: nil error, n = min(len(p), len(b) − i), p[0..n) = b[i..i+n), the cursor advances by exactly n, p[n..) is unchanged, b is unchanged unless it is p, and the cursor stays ≤ len(b) |
| FraudClient.BytesReader.Close | internal/service/fraud_client.go:63 | always nil, with no change to the reader |
| FraudClient.Drain | internal/service/fraud_client.go:55-62 | repeated reads into a non-empty buffer end in EOF; the chunks read concatenate to the unread bytes and leave the cursor at the end |

## Left out

- The HTTP branch of `HTTPFraudClient.Evaluate` is not modelled (fraud_client.go:31-43). This covers the request, the 5-second timeout, context cancellation and JSON decoding. Its outcome is the `post` input.
- `json.Unmarshal` of a rule's Params is an opaque input (`Decoders.unmarshal`). So is `strconv.ParseFloat` in `toFloat`'s string case (`Decoders.parseFloat`).
- Floating point is not modelled: amounts, weights and scores are exact reals. IEEE-754 rounding (for example, 0.1 + 0.6 landing just below 0.7) is abstracted away.
- Scoring.ToFloat: the conversions from float32, int and int64 are exact; the range and precision limits of float64 are not modelled.
- The audit record's `Meta` text (`fmt.Sprintf("score=%.2f")`) is kept as the numeric score, and `CreatedAt` (`time.Now()`) is dropped.
- The service discards the error returned by `CreateAudit`. The model has no input for it, so the result cannot depend on it. Persistence of the record is not modelled.
- Scoring.SanctionsRules: a failed sanctions fetch is taken to return no rules, as the MySQL repository does. A repository returning both rules and an error would have its rules scanned by the Go code.
- `ListAuditsForCustomer` is not declared by the `Repository` interface in repository.go, but compliance_service.go calls it. The model's store answers it, and the limit of 50 is passed to the store, not enforced by the model.
- The weighted service reads `Rule.Params` and the `AuditLog` fields `Decision` (a string), `Reason` and `Meta`, which rules/base.go and repository.go do not declare. The model gives `Rule` a `params` text and `AuditLog` those fields.
- The two `ComplianceService` types in one package are kept apart as `Gating` and `Scoring`, and are not reconciled.
- gorm's bookkeeping columns (`gorm.Model`) on rules, decisions and audit rows are not modelled. The database queries themselves are not modelled either; their answers are inputs.
- The store gives one sanctions answer per account id during a request. When the from-account and the to-account are the same, the Go code queries twice (compliance.go:45, 54), and the two answers could differ, for instance on a transient failure. The model cannot show that case.
- rules/blacklistRule.go is not modelled, because its meaning rests on gorm's zero-value struct conditions.
- HTTP handlers, start-up wiring, configuration, request logging, rule CRUD delegation and logrus logging are not part of this model.
- FraudClient.BytesReader: Go slices that share one backing array at different offsets are modelled as whole arrays. Aliasing of `p` with the whole buffer is handled as Go's `copy` does.
- FraudClient.Drain is not code of the repository: it stands for the HTTP transport consuming the request body through `Read`.
