/** The weighted variant of ComplianceService (internal/service/compliance_service.go):
    ValidateTransaction adds up amount-rule weights, sanctions hits and the fraud oracle's
    score, halves a total above 1.0 and classifies it; GetRiskScore folds a customer's recent
    audit decisions into a score in [0, 1]. */
module Scoring {
  import opened Results
  import opened Domain
  import opened Repository
  import Strings
  import FraudClient

  /** ValidateTransactionInput */
  datatype ValidateTransactionInput = ValidateTransactionInput(
    transactionId: string,
    customerId: string,
    fromAccount: string,
    toAccount: string,
    amount: real,
    currency: string,
    metadata: string)

  /** ValidateTransactionResult */
  datatype ValidateTransactionResult = ValidateTransactionResult(decision: string, reason: string, score: real)

  /** The fraud client's Evaluate, as a function of the payload it is sent. */
  type FraudEvaluate = map<string, Value> -> Result<map<string, Value>>

  /** The decoders the service relies on: `json.Unmarshal` of a rule's Params into a
      `map[string]interface{}` (None when it fails) and `strconv.ParseFloat` (its value, 0 on a
      syntax error). */
  datatype Decoders = Decoders(unmarshal: string -> Option<map<string, Value>>, parseFloat: string -> real)

  const NormalizeAbove: real := 1.0
  const RejectAt: real := 1.5
  const ReviewAt: real := 0.7
  const SanctionsHit: real := 1.0
  const RejectReason: string := "high risk based on rules and external signals"
  const ReviewReason: string := "requires manual review"

  // ---------------------------------------------------------------------------------------
  // Amount-threshold rules

  /** toFloat: numbers convert exactly, strings go through ParseFloat, and every other value,
      nil (a missing key) included, reads as 0. */
  function ToFloat(v: Value, parseFloat: string -> real): (r: real)
    ensures (v.Float64? || v.Float32?) ==> r == v.f
    ensures (v.Int? || v.Int64?) ==> r == v.n as real
    ensures v.Str? ==> r == parseFloat(v.s)
    ensures (v.Nil? || v.Bool? || v.Composite?) ==> r == 0.0
  {
    match v
    case Float64(x) => x
    case Float32(x) => x
    case Int(x) => x as real
    case Int64(x) => x as real
    case Str(x) => parseFloat(x)
    case _ => 0.0
  }

  /** What one amount_threshold rule adds: nothing when its Params do not decode, otherwise its
      weight when the amount meets or exceeds its threshold. */
  function RuleWeight(r: Rule, amount: real, dec: Decoders): (w: real)
    ensures dec.unmarshal(r.params).None? ==> w == 0.0
    ensures dec.unmarshal(r.params).Some? && amount >= Threshold(r, dec) ==>
              w == ToFloat(Get(dec.unmarshal(r.params).value, "weight"), dec.parseFloat)
    ensures dec.unmarshal(r.params).Some? && amount < Threshold(r, dec) ==> w == 0.0
  {
    match dec.unmarshal(r.params)
    case None => 0.0
    case Some(params) =>
      if amount >= ToFloat(Get(params, "threshold"), dec.parseFloat)
      then ToFloat(Get(params, "weight"), dec.parseFloat)
      else 0.0
  }

  /** The rule-based part of the score, accumulated in store order. */
  function AmountScore(rules: seq<Rule>, amount: real, dec: Decoders): (score: real)
    ensures (forall k :: 0 <= k < |rules| ==> RuleWeight(rules[k], amount, dec) >= 0.0) ==> score >= 0.0
  {
    if rules == [] then 0.0
    else AmountScore(rules[..|rules| - 1], amount, dec) + RuleWeight(rules[|rules| - 1], amount, dec)
  }

  lemma {:induction false} AmountScoreAppend(a: seq<Rule>, b: seq<Rule>, amount: real, dec: Decoders)
    ensures AmountScore(a + b, amount, dec) == AmountScore(a, amount, dec) + AmountScore(b, amount, dec)
    decreases |b|
  {
    if b == [] {
      assert a + b == a;
    } else {
      var b' := b[..|b| - 1];
      assert (a + b)[..|a + b| - 1] == a + b';
      assert (a + b)[|a + b| - 1] == b[|b| - 1];
      AmountScoreAppend(a, b', amount, dec);
    }
  }

  /** A rule whose Params fail to decode contributes nothing, wherever it stands. */
  lemma UndecodableRuleAddsNothing(rules: seq<Rule>, k: nat, r: Rule, amount: real, dec: Decoders)
    requires k <= |rules| && dec.unmarshal(r.params).None?
    ensures AmountScore(rules[..k] + [r] + rules[k..], amount, dec) == AmountScore(rules, amount, dec)
  {
    assert AmountScore([r], amount, dec) == 0.0 by {
      assert [r][..0] == [];
    }
    AmountScoreAppend(rules[..k], [r], amount, dec);
    AmountScoreAppend(rules[..k] + [r], rules[k..], amount, dec);
    AmountScoreAppend(rules[..k], rules[k..], amount, dec);
    assert rules[..k] + rules[k..] == rules;
  }

  /** A decoded rule whose threshold is missing or not a recognised number has threshold 0: it
      adds its weight to every non-negative amount. A missing weight adds 0. */
  lemma MissingParamsReadAsZero(r: Rule, amount: real, dec: Decoders)
    requires dec.unmarshal(r.params).Some?
    ensures var params := dec.unmarshal(r.params).value;
            var t := Get(params, "threshold");
            (t.Nil? || t.Bool? || t.Composite?) && amount >= 0.0 ==>
              RuleWeight(r, amount, dec) == ToFloat(Get(params, "weight"), dec.parseFloat)
    ensures "weight" !in dec.unmarshal(r.params).value ==> RuleWeight(r, amount, dec) == 0.0
  {
  }

  /** The threshold of a rule, as the service reads it. */
  function Threshold(r: Rule, dec: Decoders): real
    requires dec.unmarshal(r.params).Some?
  {
    ToFloat(Get(dec.unmarshal(r.params).value, "threshold"), dec.parseFloat)
  }

  /** The comparison is inclusive: an amount equal to a decoded rule's threshold adds its
      weight (the binary gate, by contrast, lets an equal amount pass). */
  lemma AmountAtThresholdAddsWeight(r: Rule, amount: real, dec: Decoders)
    requires dec.unmarshal(r.params).Some? && amount == Threshold(r, dec)
    ensures RuleWeight(r, amount, dec) == ToFloat(Get(dec.unmarshal(r.params).value, "weight"), dec.parseFloat)
  {
  }

  /** An amount below every decoded threshold scores 0 from the amount rules. */
  lemma {:induction false} BelowEveryThresholdScoresZero(rules: seq<Rule>, amount: real, dec: Decoders)
    requires forall k :: 0 <= k < |rules| && dec.unmarshal(rules[k].params).Some? ==> amount < Threshold(rules[k], dec)
    ensures AmountScore(rules, amount, dec) == 0.0
  {
    if rules != [] {
      BelowEveryThresholdScoresZero(rules[..|rules| - 1], amount, dec);
    }
  }

  /** With non-negative weights, a larger amount never scores less. */
  lemma {:induction false} AmountScoreIsMonotone(rules: seq<Rule>, amount: real, larger: real, dec: Decoders)
    requires amount <= larger
    requires forall k :: 0 <= k < |rules| && dec.unmarshal(rules[k].params).Some? ==>
               ToFloat(Get(dec.unmarshal(rules[k].params).value, "weight"), dec.parseFloat) >= 0.0
    ensures AmountScore(rules, amount, dec) <= AmountScore(rules, larger, dec)
  {
    if rules != [] {
      AmountScoreIsMonotone(rules[..|rules| - 1], amount, larger, dec);
    }
  }

  // ---------------------------------------------------------------------------------------
  // Sanctions-list rules

  /** A sanctions rule hits when its raw Params contain the to-account, the from-account or the
      customer id. */
  predicate Matches(r: Rule, input: ValidateTransactionInput)
    ensures (input.toAccount == "" || input.fromAccount == "" || input.customerId == "") ==> Matches(r, input)
  {
    Strings.EmptyIsContained(r.params);
    || Strings.Contains(r.params, input.toAccount)
    || Strings.Contains(r.params, input.fromAccount)
    || Strings.Contains(r.params, input.customerId)
  }

  /** The sanctions part of the score, accumulated in store order. */
  function SanctionsScore(rules: seq<Rule>, input: ValidateTransactionInput): (score: real)
    ensures 0.0 <= score <= |rules| as real
  {
    if rules == [] then 0.0
    else SanctionsScore(rules[..|rules| - 1], input) + (if Matches(rules[|rules| - 1], input) then SanctionsHit else 0.0)
  }

  /** The rules that hit, in order: the reference the sanctions score is checked against. */
  function Hits(rules: seq<Rule>, input: ValidateTransactionInput): (h: seq<Rule>)
    ensures |h| <= |rules|
    ensures forall r :: r in h <==> r in rules && Matches(r, input)
  {
    if rules == [] then []
    else
      (if Matches(rules[0], input) then [rules[0]] else []) + Hits(rules[1..], input)
  }

  lemma {:induction false} HitsAppend(rules: seq<Rule>, r: Rule, input: ValidateTransactionInput)
    ensures Hits(rules + [r], input) == Hits(rules, input) + (if Matches(r, input) then [r] else [])
  {
    if rules == [] {
      assert ([] + [r])[1..] == [];
    } else {
      assert (rules + [r])[1..] == rules[1..] + [r];
      HitsAppend(rules[1..], r, input);
    }
  }

  /** Every matching stored rule appears in the hits exactly as often as it is stored, and no
      other rule appears: two stored rows with the same fields are counted twice. */
  lemma {:induction false} HitsKeepMultiplicity(rules: seq<Rule>, input: ValidateTransactionInput, r: Rule)
    ensures multiset(Hits(rules, input))[r] == if Matches(r, input) then multiset(rules)[r] else 0
  {
    if rules != [] {
      HitsKeepMultiplicity(rules[1..], input, r);
      var head := if Matches(rules[0], input) then [rules[0]] else [];
      assert rules == [rules[0]] + rules[1..];
      assert multiset(rules) == multiset([rules[0]]) + multiset(rules[1..]);
      assert multiset(Hits(rules, input)) == multiset(head) + multiset(Hits(rules[1..], input));
    }
  }

  /** Each hitting rule adds exactly 1.0, once. */
  lemma {:induction false} SanctionsScoreCountsHits(rules: seq<Rule>, input: ValidateTransactionInput)
    ensures SanctionsScore(rules, input) == |Hits(rules, input)| as real
    decreases |rules|
  {
    if rules != [] {
      var init := rules[..|rules| - 1];
      assert rules == init + [rules[|rules| - 1]];
      SanctionsScoreCountsHits(init, input);
      HitsAppend(init, rules[|rules| - 1], input);
    }
  }

  /** An empty id is contained in every Params text, so every sanctions rule hits. */
  lemma EmptyIdHitsEveryRule(rules: seq<Rule>, input: ValidateTransactionInput)
    requires input.toAccount == "" || input.fromAccount == "" || input.customerId == ""
    ensures SanctionsScore(rules, input) == |rules| as real
  {
    forall r | r in rules ensures Matches(r, input) {
      Strings.EmptyIsContained(r.params);
    }
    AllHit(rules, input);
    SanctionsScoreCountsHits(rules, input);
  }

  lemma {:induction false} AllHit(rules: seq<Rule>, input: ValidateTransactionInput)
    requires forall r :: r in rules ==> Matches(r, input)
    ensures Hits(rules, input) == rules
  {
    if rules != [] {
      AllHit(rules[1..], input);
    }
  }

  /** The sanctions rules the scan sees: a failed fetch is ignored and scans nothing. */
  function SanctionsRules(store: Store): (rules: seq<Rule>)
    ensures store.findRulesByType(SanctionsList).Err? ==> rules == []
    ensures store.findRulesByType(SanctionsList).Ok? ==> rules == store.findRulesByType(SanctionsList).value
  {
    match store.findRulesByType(SanctionsList)
    case Ok(rules) => rules
    case Err(_) => []
  }

  // ---------------------------------------------------------------------------------------
  // External fraud score

  /** The payload sent to the fraud client. */
  function FraudPayload(input: ValidateTransactionInput): (payload: map<string, Value>)
    ensures payload.Keys == {"transactionId", "amount", "from", "to", "customerId"}
    ensures payload["amount"] == Float64(input.amount)
    ensures payload["from"] == Str(input.fromAccount) && payload["to"] == Str(input.toAccount)
    ensures payload["transactionId"] == Str(input.transactionId) && payload["customerId"] == Str(input.customerId)
  {
    map[
      "transactionId" := Str(input.transactionId),
      "amount" := Float64(input.amount),
      "from" := Str(input.fromAccount),
      "to" := Str(input.toAccount),
      "customerId" := Str(input.customerId)]
  }

  /** The oracle's contribution: its "score" when the call succeeded and the field holds a
      float64, and 0 otherwise. */
  function ExternalScore(resp: Result<map<string, Value>>): (r: real)
    ensures resp.Err? ==> r == 0.0
    ensures resp.Ok? && Get(resp.value, "score").Float64? ==> r == Get(resp.value, "score").f
    ensures resp.Ok? && !Get(resp.value, "score").Float64? ==> r == 0.0
  {
    if resp.Ok? && Get(resp.value, "score").Float64? then Get(resp.value, "score").f else 0.0
  }

  // ---------------------------------------------------------------------------------------
  // Normalisation and classification

  /** The crude normalisation: a total above 1.0 is halved, anything else is kept. */
  function Normalize(raw: real): (s: real)
    ensures raw > NormalizeAbove ==> s == raw / 2.0
    ensures raw <= NormalizeAbove ==> s == raw
  {
    if raw > NormalizeAbove then raw / 2.0 else raw
  }

  datatype Tier = Approve | Review | Reject

  /** The three tiers partition the scores at 0.7 and 1.5, each lower bound included. */
  function Classify(score: real): (t: Tier)
    ensures t == Reject <==> score >= RejectAt
    ensures t == Review <==> ReviewAt <= score < RejectAt
    ensures t == Approve <==> score < ReviewAt
  {
    if score >= RejectAt then Reject
    else if score >= ReviewAt then Review
    else Approve
  }

  function TierName(t: Tier): string
  {
    match t
    case Approve => "approve"
    case Review => "review"
    case Reject => "reject"
  }

  function TierReason(t: Tier): string
  {
    match t
    case Approve => ""
    case Review => ReviewReason
    case Reject => RejectReason
  }

  /** The result reported for a raw total. */
  function Outcome(raw: real): (o: ValidateTransactionResult)
    ensures o.decision in {"approve", "review", "reject"}
    ensures o.decision == "approve" <==> o.reason == ""
    ensures raw >= 0.0 ==> 0.0 <= o.score <= raw
    ensures o.decision == "reject" ==> o.score >= RejectAt
  {
    var score := Normalize(raw);
    var t := Classify(score);
    ValidateTransactionResult(TierName(t), TierReason(t), score)
  }

  /** In terms of the raw total: reject iff raw >= 3.0; review on [0.7, 1.0] and [1.4, 3.0);
      approve below 0.7 and on (1.0, 1.4). */
  lemma OutcomeByRawScore(raw: real)
    ensures Outcome(raw).decision == "reject" <==> raw >= 3.0
    ensures Outcome(raw).decision == "review" <==> (0.7 <= raw <= 1.0 || 1.4 <= raw < 3.0)
    ensures Outcome(raw).decision == "approve" <==> (raw < 0.7 || (1.0 < raw < 1.4))
    ensures Outcome(raw).decision == "reject" ==> Outcome(raw).reason == RejectReason
    ensures Outcome(raw).decision == "review" ==> Outcome(raw).reason == ReviewReason
    ensures Outcome(raw).decision == "approve" ==> Outcome(raw).reason == ""
  {
  }

  /** The mapping is not monotone: a raw total of 1.0 is reviewed, a larger one of 1.2 approved. */
  lemma OutcomeIsNotMonotone()
    ensures Outcome(1.0).decision == "review"
    ensures Outcome(1.2).decision == "approve"
  {
  }

  // ---------------------------------------------------------------------------------------
  // The pipeline

  function RawScore(amountRules: seq<Rule>, store: Store, evaluate: FraudEvaluate, dec: Decoders,
                    input: ValidateTransactionInput): real
  {
    AmountScore(amountRules, input.amount, dec)
    + SanctionsScore(SanctionsRules(store), input)
    + ExternalScore(evaluate(FraudPayload(input)))
  }

  /** What ValidateTransaction returns. */
  function Validate(store: Store, evaluate: FraudEvaluate, dec: Decoders, input: ValidateTransactionInput)
    : (r: Result<ValidateTransactionResult>)
    ensures r.Err? <==> store.findRulesByType(AmountThreshold).Err?
    ensures r.Err? ==> r.error == store.findRulesByType(AmountThreshold).error
    ensures r.Ok? ==> r.value == Outcome(RawScore(store.findRulesByType(AmountThreshold).value, store, evaluate, dec, input))
  {
    match store.findRulesByType(AmountThreshold)
    case Err(e) => Err(e)
    case Ok(rules) => Ok(Outcome(RawScore(rules, store, evaluate, dec, input)))
  }

  /** The record handed to CreateAudit for a result. */
  function AuditOf(input: ValidateTransactionInput, res: ValidateTransactionResult): (a: AuditLog)
    ensures a.transactionId == input.transactionId && a.customerId == input.customerId
    ensures a.decision == res.decision && a.reason == res.reason && a.score == res.score
  {
    AuditLog(input.transactionId, input.customerId, res.decision, res.reason, res.score)
  }

  /** ComplianceService.ValidateTransaction as the service runs it. Returns the result and the
      audit record it hands to CreateAudit (none when it fails before scoring). */
  method ValidateTransaction(store: Store, evaluate: FraudEvaluate, dec: Decoders, input: ValidateTransactionInput)
    returns (res: Result<ValidateTransactionResult>, audit: Option<AuditLog>)
    ensures res == Validate(store, evaluate, dec, input)
    ensures res.Err? ==> audit == None
    ensures res.Ok? ==> audit == Some(AuditOf(input, res.value))
  {
    // 1. amount threshold rules
    var fetched := store.findRulesByType(AmountThreshold);
    if fetched.Err? {
      return Err(fetched.error), None;
    }
    var rules := fetched.value;
    var score := 0.0;
    for k := 0 to |rules|
      invariant score == AmountScore(rules[..k], input.amount, dec)
    {
      assert rules[..k + 1][..k] == rules[..k];
      var params := dec.unmarshal(rules[k].params);
      if params.None? {
        continue;
      }
      var threshold := ToFloat(Get(params.value, "threshold"), dec.parseFloat);
      var weight := ToFloat(Get(params.value, "weight"), dec.parseFloat);
      if input.amount >= threshold {
        score := score + weight;
      }
    }
    assert rules[..|rules|] == rules;

    // 2. sanctions list
    var sanctions := SanctionsRules(store);
    ghost var amountPart := score;
    for k := 0 to |sanctions|
      invariant score == amountPart + SanctionsScore(sanctions[..k], input)
    {
      assert sanctions[..k + 1][..k] == sanctions[..k];
      var r := sanctions[k];
      if Strings.Contains(r.params, input.toAccount) || Strings.Contains(r.params, input.fromAccount)
         || Strings.Contains(r.params, input.customerId) {
        score := score + SanctionsHit;
      }
    }
    assert sanctions[..|sanctions|] == sanctions;

    // 3. external fraud oracle
    var fraudResp := evaluate(FraudPayload(input));
    if fraudResp.Ok? {
      var v := Get(fraudResp.value, "score");
      if v.Float64? {
        score := score + v.f;
      }
    }

    // normalise and classify
    if score > NormalizeAbove {
      score := score / 2.0;
    }
    var decision := "approve";
    var reason := "";
    if score >= RejectAt {
      decision := "reject";
      reason := RejectReason;
    } else if score >= ReviewAt {
      decision := "review";
      reason := ReviewReason;
    }

    // 4. audit record (the outcome of the write is not looked at)
    var result := ValidateTransactionResult(decision, reason, score);
    audit := Some(AuditOf(input, result));
    res := Ok(result);
  }

  /** Only the amount-rule fetch can fail validation, and then with its own error; sanctions
      fetch failures and fraud-oracle failures still produce a decision. */
  lemma OnlyRuleStoreFailureFails(store: Store, evaluate: FraudEvaluate, dec: Decoders, input: ValidateTransactionInput)
    ensures Validate(store, evaluate, dec, input).Err? <==> store.findRulesByType(AmountThreshold).Err?
    ensures Validate(store, evaluate, dec, input).Err? ==>
              Validate(store, evaluate, dec, input).error == store.findRulesByType(AmountThreshold).error
  {
  }

  /** A failed fraud call contributes 0: the result is the one computed from the rules alone. */
  lemma FraudFailureContributesZero(store: Store, evaluate: FraudEvaluate, dec: Decoders, input: ValidateTransactionInput)
    requires store.findRulesByType(AmountThreshold).Ok?
    requires evaluate(FraudPayload(input)).Err?
    ensures Validate(store, evaluate, dec, input) ==
              Ok(Outcome(AmountScore(store.findRulesByType(AmountThreshold).value, input.amount, dec)
                         + SanctionsScore(SanctionsRules(store), input)))
  {
  }

  /** A transaction below every threshold, matched by no sanctions rule and scored by the
      unconfigured fraud client, is approved with score 0.1. */
  lemma BenignTransactionIsApproved(
    store: Store, dec: Decoders, input: ValidateTransactionInput,
    post: map<string, Value> -> Result<map<string, Value>>)
    requires store.findRulesByType(AmountThreshold).Ok?
    requires var rules := store.findRulesByType(AmountThreshold).value;
             forall k :: 0 <= k < |rules| && dec.unmarshal(rules[k].params).Some? ==> input.amount < Threshold(rules[k], dec)
    requires forall r :: r in SanctionsRules(store) ==> !Matches(r, input)
    ensures Validate(store, p => FraudClient.Evaluate(FraudClient.HTTPFraudClient(""), p, post), dec, input)
            == Ok(ValidateTransactionResult("approve", "", 0.1))
  {
    BelowEveryThresholdScoresZero(store.findRulesByType(AmountThreshold).value, input.amount, dec);
    SanctionsScoreCountsHits(SanctionsRules(store), input);
    NoHits(SanctionsRules(store), input);
  }

  lemma NoHits(rules: seq<Rule>, input: ValidateTransactionInput)
    requires forall r :: r in rules ==> !Matches(r, input)
    ensures Hits(rules, input) == []
  {
  }

  // ---------------------------------------------------------------------------------------
  // Historical risk

  const AuditWindow: int := 50
  const RiskCap: real := 5.0

  /** Sum over audits: 1.0 per "reject", 0.5 per "review", in order. */
  function Tally(audits: seq<AuditLog>): (t: real)
    ensures 0.0 <= t <= |audits| as real
  {
    if audits == [] then 0.0
    else
      var a := audits[|audits| - 1];
      Tally(audits[..|audits| - 1])
      + (if a.decision == "reject" then 1.0 else 0.0)
      + (if a.decision == "review" then 0.5 else 0.0)
  }

  /** Number of audits carrying the given decision. */
  function Count(audits: seq<AuditLog>, decision: string): (n: nat)
    ensures n <= |audits|
  {
    if audits == [] then 0
    else (if audits[0].decision == decision then 1 else 0) + Count(audits[1..], decision)
  }

  lemma {:induction false} CountAppend(audits: seq<AuditLog>, a: AuditLog, decision: string)
    ensures Count(audits + [a], decision) == Count(audits, decision) + (if a.decision == decision then 1 else 0)
  {
    if audits == [] {
      assert ([] + [a])[1..] == [];
    } else {
      assert (audits + [a])[1..] == audits[1..] + [a];
      CountAppend(audits[1..], a, decision);
    }
  }

  /** The tally is one per reject plus one half per review. */
  lemma {:induction false} TallyByCounts(audits: seq<AuditLog>)
    ensures Tally(audits) == Count(audits, "reject") as real + 0.5 * Count(audits, "review") as real
    decreases |audits|
  {
    if audits != [] {
      var init := audits[..|audits| - 1];
      var a := audits[|audits| - 1];
      assert audits == init + [a];
      TallyByCounts(init);
      CountAppend(init, a, "reject");
      CountAppend(init, a, "review");
    }
  }

  /** The risk score: the tally capped at 5, divided by 5; always within [0, 1]. */
  function RiskScore(audits: seq<AuditLog>): (r: real)
    ensures 0.0 <= r <= 1.0
  {
    TallyByCounts(audits);
    var t := Tally(audits);
    (if t > RiskCap then RiskCap else t) / RiskCap
  }

  /** No audits give 0; five or more rejects give exactly 1. */
  lemma RiskScoreExtremes(audits: seq<AuditLog>)
    ensures audits == [] ==> RiskScore(audits) == 0.0
    ensures Count(audits, "reject") >= 5 ==> RiskScore(audits) == 1.0
  {
    TallyByCounts(audits);
  }

  /** ComplianceService.GetRiskScore as the service runs it: (0, err) when the audits cannot be
      listed, otherwise the risk score of the customer's most recent audits. */
  method GetRiskScore(store: Store, customerId: string) returns (score: real, err: Option<Error>)
    ensures store.listAuditsForCustomer(customerId, AuditWindow).Err? ==>
              score == 0.0 && err == Some(store.listAuditsForCustomer(customerId, AuditWindow).error)
    ensures store.listAuditsForCustomer(customerId, AuditWindow).Ok? ==>
              err == None && score == RiskScore(store.listAuditsForCustomer(customerId, AuditWindow).value)
    ensures 0.0 <= score <= 1.0
  {
    var listed := store.listAuditsForCustomer(customerId, AuditWindow);
    if listed.Err? {
      return 0.0, Some(listed.error);
    }
    var audits := listed.value;
    score := 0.0;
    for k := 0 to |audits|
      invariant score == Tally(audits[..k])
    {
      assert audits[..k + 1][..k] == audits[..k];
      var a := audits[k];
      if a.decision == "reject" {
        score := score + 1.0;
      }
      if a.decision == "review" {
        score := score + 0.5;
      }
    }
    assert audits[..|audits|] == audits;
    if score > RiskCap {
      score := RiskCap;
    }
    return score / RiskCap, None;
  }
}
