/** The feature authorisation gate (`src/routes/features.js`): the static
    feature-to-plan table, the ordinal plan ranking, the `checkFeaturePermission`
    tier check, the `verifySignature` freshness check and the decision of
    `POST /verify`. */
module Features {
  import opened Common
  import opened Js
  import opened SubscriptionModel

  /** `FEATURE_PERMISSIONS`: the plan each feature requires, for the names the
      table declares. */
  function RequiredPlan(feature: string): (required: Option<Plan>)
    // no feature is reserved for enterprise
    ensures required != Some(Enterprise)
  {
    if feature in {"optimizeTitle", "applyTemplate", "addWatermark"} then Some(Free)
    else if feature in {"generateMarketingImage", "mapVariants", "processSkuTable"} then Some(Basic)
    else if feature in {"adjustPriceAndStock", "translateContent", "uploadAllQualificationImageByPolicy",
                        "selectRegionalPricingTemplate", "runAllSteps", "runAliexpressCategoryAllSteps",
                        "runSelectedSteps"} then Some(Premium)
    else None
  }

  /** `PLAN_LEVELS`: the rank of each plan. */
  function Rank(p: Plan): (level: nat)
    ensures level <= 3
  {
    match p
    case Free => 0
    case Basic => 1
    case Premium => 2
    case Enterprise => 3
  }

  /** `PLAN_LEVELS[name] || 0` for a plan name read from a stored
      subscription: levels lie in 0..3, only a paid plan's name has a
      positive level, and a positive level names its plan. */
  function LevelOf(name: string): (level: nat)
    ensures level <= 3
    ensures level == 0 <==> ParsePlan(name) !in {Some(Basic), Some(Premium), Some(Enterprise)}
    ensures level > 0 ==> ParsePlan(name).Some? && PlanName(ParsePlan(name).value) == name
  {
    match ParsePlan(name)
    case Some(p) => Rank(p)
    case None => 0
  }

  /** Reading a plan's name back gives its rank, so the gate compares the
      ranks of the stored plans. */
  lemma LevelOfPlanName(p: Plan)
    ensures LevelOf(PlanName(p)) == Rank(p)
  {
    PlanNamesRoundTrip(p, PlanName(p));
  }

  /** The ranking is a strict total order free < basic < premium < enterprise. */
  lemma RankIsStrictOrder(p: Plan, q: Plan)
    ensures Rank(p) == Rank(q) <==> p == q
    ensures Rank(Free) < Rank(Basic) < Rank(Premium) < Rank(Enterprise)
  {
  }

  /** How `checkFeaturePermission(featureName)` ends. */
  datatype Gate =
    | UnknownFeature                                     // 400
    | InsufficientPlan(currentPlan: string, requiredPlan: Plan)  // 403
    | Permitted                                          // next()

  /** The tier check for a user whose subscription names the plan `userPlan`:
      an unknown feature is refused before any comparison of levels. */
  function CheckFeaturePermission(featureName: string, userPlan: string): (g: Gate)
    ensures g.UnknownFeature? <==> RequiredPlan(featureName).None?
    ensures g.InsufficientPlan? <==>
      RequiredPlan(featureName).Some? && LevelOf(userPlan) < Rank(RequiredPlan(featureName).value)
    ensures g.InsufficientPlan? ==>
      g.currentPlan == userPlan && g.requiredPlan == RequiredPlan(featureName).value
  {
    match RequiredPlan(featureName)
    case None => UnknownFeature
    case Some(required) =>
      if LevelOf(userPlan) < Rank(required) then InsufficientPlan(userPlan, required) else Permitted
  }

  /** Tier monotonicity: a plan that passes a feature's check is passed by
      every plan ranked at least as high; enterprise passes every declared
      feature, and free passes exactly the free-tier ones. */
  lemma TierMonotone(featureName: string, p: Plan, q: Plan)
    requires RequiredPlan(featureName).Some?
    requires Rank(p) <= Rank(q)
    ensures (CheckFeaturePermission(featureName, PlanName(p)).Permitted? ==>
             CheckFeaturePermission(featureName, PlanName(q)).Permitted?)
    ensures CheckFeaturePermission(featureName, PlanName(Enterprise)).Permitted?
    ensures (CheckFeaturePermission(featureName, PlanName(Free)).Permitted? <==>
             RequiredPlan(featureName) == Some(Free))
  {
    PlanNamesRoundTrip(p, PlanName(p));
    PlanNamesRoundTrip(q, PlanName(q));
    PlanNamesRoundTrip(Enterprise, PlanName(Enterprise));
    PlanNamesRoundTrip(Free, PlanName(Free));
  }

  /** The freshness window of `verifySignature`, in milliseconds. */
  const FreshnessWindow: int := 60000

  /** How `verifySignature` ends. */
  datatype SignatureCheck =
    | MissingHeaders   // 401: a header is absent or empty
    | Stale            // 401: the timestamp is too far from now
    | Fresh            // next(); the signature itself is not checked

  /** The `x-timestamp`, `x-signature` and `x-device-id` headers; an empty
      string stands for an absent header. */
  datatype SecurityHeaders = SecurityHeaders(timestamp: string, signature: string, deviceId: string)

  /** `Math.abs(now - parseInt(timestamp)) > 60000`: a comparison with `NaN`
      is false, so an unparsable timestamp is never stale. */
  predicate IsStale(timestamp: string, now: Millis)
  {
    match ParseInt(timestamp)
    case NaN => false
    case Finite(t) => Abs(now - t) > FreshnessWindow
  }

  function VerifySignature(h: SecurityHeaders, now: Millis): (r: SignatureCheck)
    ensures r.MissingHeaders? <==> h.timestamp == "" || h.signature == "" || h.deviceId == ""
    ensures r.Stale? <==> !r.MissingHeaders? && IsStale(h.timestamp, now)
  {
    if h.timestamp == "" || h.signature == "" || h.deviceId == "" then MissingHeaders
    else if IsStale(h.timestamp, now) then Stale
    else Fresh
  }

  /** A client that stamps its request with `String(t)` passes the freshness
      check exactly when `t` is within 60000 ms of the server's clock either
      way; the boundary itself passes. */
  lemma FreshIffWithinWindow(t: Millis, signature: string, deviceId: string, now: Millis)
    requires signature != "" && deviceId != ""
    ensures (VerifySignature(SecurityHeaders(IntToString(t), signature, deviceId), now).Fresh?
             <==> now - FreshnessWindow <= t <= now + FreshnessWindow)
  {
    ParseIntOfIntToString(t);
    assert IntToString(t) != [] by {
      assert NatToString(if t < 0 then -t else t) != [];
    }
  }

  /** A timestamp with no decimal digit reads as `NaN`, and the request
      passes the freshness check however far the clock is from it. */
  lemma NaNTimestampIsFresh(ts: string, signature: string, deviceId: string, now: Millis)
    requires ts != "" && signature != "" && deviceId != ""
    requires forall i :: 0 <= i < |ts| ==> !('0' <= ts[i] <= '9')
    ensures VerifySignature(SecurityHeaders(ts, signature, deviceId), now).Fresh?
  {
    ParseIntWithoutDigits(ts);
  }

  /** The answer of `POST /verify` once the subscription check has passed. */
  datatype FeatureReport =
    | NoFeatureName      // 400: `feature` absent or empty
    | NotAFeature        // 400: the table has no such feature
    | Report(feature: string, hasPermission: bool, currentPlan: string, requiredPlan: Option<Plan>)

  /** `POST /verify`: it reports, and changes nothing. */
  function VerifyFeature(feature: string, userPlan: string): (r: FeatureReport)
    ensures r.NoFeatureName? <==> feature == ""
    ensures r.NotAFeature? <==> feature != "" && RequiredPlan(feature).None?
    ensures r.Report? ==> r.feature == feature && r.currentPlan == userPlan && r.requiredPlan == RequiredPlan(feature)
    // the report agrees with the gate that guards the features themselves
    ensures r.Report? ==> (r.hasPermission <==> CheckFeaturePermission(feature, userPlan).Permitted?)
  {
    if feature == "" then NoFeatureName
    else match RequiredPlan(feature)
      case None => NotAFeature
      case Some(required) => Report(feature, LevelOf(userPlan) >= Rank(required), userPlan, Some(required))
  }

  /** `POST /verify` as written: `FEATURE_PERMISSIONS[feature]` is a lookup in
      a plain object, so a name the object inherits from `Object.prototype`
      finds a truthy non-plan value; `PLAN_LEVELS` of that value is undefined,
      the required level becomes 0 and permission is reported as granted. */
  function VerifyFeatureAsWritten(feature: string, userPlan: string): FeatureReport
  {
    if feature == "" then NoFeatureName
    else if RequiredPlan(feature).None? && feature in ObjectPrototypeNames then
      Report(feature, LevelOf(userPlan) >= 0, userPlan, None)
    else VerifyFeature(feature, userPlan)
  }

  /** The discrepancy: for `feature = "constructor"` a free user is told the
      feature is permitted, where the table has no such feature. Every other
      name is answered the same way by both. */
  lemma InheritedNameReportedAsPermitted(feature: string, userPlan: string)
    ensures VerifyFeatureAsWritten("constructor", "free") == Report("constructor", true, "free", None)
    ensures VerifyFeature("constructor", "free") == NotAFeature
    ensures (feature !in ObjectPrototypeNames ==>
             VerifyFeatureAsWritten(feature, userPlan) == VerifyFeature(feature, userPlan))
  {
    assert RequiredPlan("constructor").None?;
  }
}
