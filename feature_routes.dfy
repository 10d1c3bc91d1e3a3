/** The middleware chains of the routes in `src/routes/features.js`:
    `POST /verify`, `POST /adjust-price` and `GET /usage-stats`. */
module FeatureRoutes {
  import opened Common
  import opened SubscriptionModel
  import opened SubscriptionCheck
  import opened Features
  import opened AbuseDetector

  /** The answer of `POST /verify`. */
  datatype VerifyFeatureResponse =
    | VerifyDenied            // 403 from `checkSubscription`
    | Answered(report: FeatureReport)

  /** `POST /verify`: the subscription check, then the report. The limiter
      is not on this route, so its logs are untouched. */
  method PostVerifyFeature(subs: SubscriptionStore, userId: string, feature: string, now: Millis)
    returns (check: CheckOutcome, r: VerifyFeatureResponse)
    requires subs.Valid()
    modifies subs
    ensures subs.Valid() && subs.nextId == old(subs.nextId)
    ensures CheckedAs(old(subs.records), userId, now, check, subs.records)
    ensures !check.Granted? <==> r.VerifyDenied?
    ensures check.Granted? ==> r == Answered(VerifyFeature(feature, PlanName(check.sub.plan)))
  {
    check := CheckSubscription(subs, userId, now);
    if !check.Granted? {
      return check, VerifyDenied;
    }
    r := Answered(VerifyFeature(feature, PlanName(check.sub.plan)));
  }

  /** The answer of `POST /adjust-price`; the price itself is computed in
      floating point and is not modelled. */
  datatype AdjustResponse =
    | AdjustDenied                         // 403 from `checkSubscription`
    | GateRefused(gate: Gate)              // 400 or 403 from `checkFeaturePermission`
    | SignatureRefused(check: SignatureCheck)  // 401 from `verifySignature`
    | RateLimited(retryAfter: nat)         // 429 from `detectAbnormalBehavior`
    | Priced

  /** The feature this route is gated on. */
  const AdjustFeature: string := "adjustPriceAndStock"

  /** `POST /adjust-price`: subscription, plan tier, request freshness and
      the limiter, in this order. Only a request that reaches the limiter
      touches its logs, and its key is the `feature` field of the body. */
  method PostAdjustPrice(subs: SubscriptionStore, logs: UsageLogs, userId: string, bodyFeature: string,
                         headers: SecurityHeaders, now: Millis)
    returns (check: CheckOutcome, r: AdjustResponse)
    requires subs.Valid() && logs.Valid()
    modifies subs, logs
    ensures subs.Valid() && logs.Valid() && subs.nextId == old(subs.nextId)
    ensures CheckedAs(old(subs.records), userId, now, check, subs.records)
    ensures !check.Granted? ==> r == AdjustDenied
    ensures check.Granted? && !CheckFeaturePermission(AdjustFeature, PlanName(check.sub.plan)).Permitted? ==>
      r == GateRefused(CheckFeaturePermission(AdjustFeature, PlanName(check.sub.plan)))
    ensures !(r.RateLimited? || r.Priced?) ==> logs.entries == old(logs.entries)
    ensures r.RateLimited? || r.Priced? <==>
      check.Granted? && CheckFeaturePermission(AdjustFeature, PlanName(check.sub.plan)).Permitted?
      && VerifySignature(headers, now).Fresh?
    ensures r.RateLimited? || r.Priced? ==>
      var step := LimitStep(LogOf(old(logs.entries), Key(userId, bodyFeature)), now);
      && logs.entries == SetEntry(old(logs.entries), Key(userId, bodyFeature), step.log)
      && (r.RateLimited? <==> step.verdict == TooFrequent)
      && (r.RateLimited? ==> r.retryAfter == RetryAfterSeconds)
  {
    check := CheckSubscription(subs, userId, now);
    if !check.Granted? {
      return check, AdjustDenied;
    }
    var gate := CheckFeaturePermission(AdjustFeature, PlanName(check.sub.plan));
    if !gate.Permitted? {
      return check, GateRefused(gate);
    }
    var signature := VerifySignature(headers, now);
    if !signature.Fresh? {
      return check, SignatureRefused(signature);
    }
    var verdict := DetectAbnormalBehavior(logs, userId, bodyFeature, now);
    if verdict == TooFrequent {
      return check, RateLimited(RetryAfterSeconds);
    }
    r := Priced;
  }

  /** Only premium and enterprise subscriptions pass the gate of
      `/adjust-price`. */
  lemma AdjustPriceNeedsPremium(p: Plan)
    ensures CheckFeaturePermission(AdjustFeature, PlanName(p)).Permitted? <==> p == Premium || p == Enterprise
  {
    PlanNamesRoundTrip(p, PlanName(p));
  }

  /** The answer of `GET /usage-stats`. */
  datatype UsageStatsResponse =
    | StatsFailed       // 500
    | StatsDenied       // 403 from `checkSubscription`
    | Stats(userId: string, plan: Plan, stats: map<string, FeatureStats>)

  /** The handler of `/usage-stats`, given what earlier middleware attached
      to the request: reading `req.subscription.plan` when nothing is
      attached throws, and the handler's catch answers 500. */
  method UsageStatsHandler(logs: UsageLogs, userId: string, attached: Option<Subscription>)
    returns (r: UsageStatsResponse)
    ensures attached.None? <==> r.StatsFailed?
    ensures attached.Some? ==> r == Stats(userId, attached.value.plan, UsageStats(logs.entries, userId))
  {
    var stats := CollectUsageStats(logs, userId);
    match attached
    case None =>
      r := StatsFailed;
    case Some(sub) =>
      r := Stats(userId, sub.plan, stats);
  }

  /** `GET /usage-stats` as written: only `authenticateToken` runs before the
      handler, and it attaches the user but no subscription, so every
      request ends in 500 whatever the logs and the subscriptions hold. */
  method GetUsageStatsAsWritten(logs: UsageLogs, userId: string) returns (r: UsageStatsResponse)
    ensures r == StatsFailed
  {
    r := UsageStatsHandler(logs, userId, None);
  }

  /** `GET /usage-stats` with `checkSubscription` in its chain, as the
      handler's use of `req.subscription` requires: a user with a valid
      subscription is answered with the statistics of their own keys. */
  method GetUsageStats(subs: SubscriptionStore, logs: UsageLogs, userId: string, now: Millis)
    returns (check: CheckOutcome, r: UsageStatsResponse)
    requires subs.Valid()
    modifies subs
    ensures subs.Valid() && subs.nextId == old(subs.nextId)
    ensures CheckedAs(old(subs.records), userId, now, check, subs.records)
    ensures !check.Granted? <==> r.StatsDenied?
    ensures check.Granted? ==> r == Stats(userId, check.sub.plan, UsageStats(logs.entries, userId))
  {
    check := CheckSubscription(subs, userId, now);
    if !check.Granted? {
      return check, StatsDenied;
    }
    r := UsageStatsHandler(logs, userId, Some(check.sub));
  }
}
