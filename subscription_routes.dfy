/** The subscription routes (`src/routes/subscription.js`): `GET /current`,
    `POST /subscribe` and `GET /status`, each for an already authenticated
    user. */
module SubscriptionRoutes {
  import opened Common
  import opened Js
  import opened SubscriptionModel
  import opened SubscriptionCheck

  /** What `GET /current` reports about a record. */
  datatype PlanView = PlanView(plan: Plan, maxDevices: int, startDate: Millis, endDate: Millis,
                               isValid: bool, autoRenew: bool)

  datatype CurrentResponse = NoSubscription | Current(view: PlanView)

  function ViewOf(s: Subscription, now: Millis): PlanView
  {
    PlanView(s.plan, s.maxDevices, s.startDate, s.endDate, IsValid(s, now), s.autoRenew)
  }

  /** `GET /current`: the latest active record, or 404; it writes nothing, so
      an expired active record is reported with `isValid` false and stays active. */
  method GetCurrent(store: SubscriptionStore, userId: string, now: Millis) returns (r: CurrentResponse)
    ensures r.NoSubscription? <==> !HasActive(store.records, userId)
    ensures r.Current? ==>
      exists id :: IsCurrent(store.records, userId, id) && r.view == ViewOf(store.records[id], now)
  {
    var found := store.FindCurrent(userId);
    if found.None? {
      return NoSubscription;
    }
    r := Current(ViewOf(store.records[found.value], now));
  }

  /** `validPlans`: the device quota each plan grants (prices are left out). */
  function PlanMaxDevices(p: Plan): (n: int)
    ensures n >= 3
  {
    match p
    case Free => 3
    case Basic => 5
    case Premium => 10
    case Enterprise => 50
  }

  /** `duration || 1`: the subscription length in months, where an absent
      duration reads as 0. */
  function Months(duration: int): (months: int)
    ensures months != 0
    ensures duration != 0 ==> months == duration
  {
    if duration == 0 then 1 else duration
  }

  /** `Date.now() + months * 30 * 24 * 60 * 60 * 1000`: the subscription
      runs out after `now` exactly when it runs for a positive number of
      months. */
  function SubscriptionEnd(now: Millis, months: int): (end: Millis)
    ensures end > now <==> months > 0
  {
    now + months * 30 * MsPerDay
  }

  /** A longer subscription never ends earlier, and a positive length gives
      at least 30 days. */
  lemma SubscriptionEndMonotone(now: Millis, months: int, longer: int)
    requires months <= longer
    ensures SubscriptionEnd(now, months) <= SubscriptionEnd(now, longer)
    ensures months > 0 ==> SubscriptionEnd(now, months) - now >= 30 * MsPerDay
  {
    assert (longer - months) * (30 * MsPerDay) >= 0;
    assert months > 0 ==> (months - 1) * (30 * MsPerDay) >= 0;
  }

  datatype SubscribeResponse =
    | InvalidPlan
    | Subscribed(plan: Plan, maxDevices: int, startDate: Millis, endDate: Millis)
    | SaveFailed

  datatype SubscribeResult = SubscribeResult(response: SubscribeResponse, records: SubscriptionMap)

  /** `POST /subscribe` on a store whose next fresh id is `nextId`: an unknown
      plan is refused with nothing written; otherwise every active record of
      the user is deactivated and then the new record is inserted, which
      fails with 500 when its end date is beyond the range of a `Date`. */
  function Subscribe(m: SubscriptionMap, nextId: nat, userId: string, plan: string,
                     duration: int, now: Millis): (r: SubscribeResult)
    requires nextId !in m
    ensures r.response.InvalidPlan? <==> ParsePlan(plan).None?
    ensures r.response.InvalidPlan? ==> r.records == m
    ensures r.response.SaveFailed? <==>
      ParsePlan(plan).Some? && !IsTimeValue(SubscriptionEnd(now, Months(duration)))
    // the deactivation is already written when the insert fails
    ensures r.response.SaveFailed? ==> r.records == DeactivateAll(m, userId)
    ensures r.response.Subscribed? ==>
      var p := ParsePlan(plan).value;
      var end := now + Months(duration) * 30 * MsPerDay;
      && r.response == Subscribed(p, PlanMaxDevices(p), now, end)
      && r.records == DeactivateAll(m, userId)[nextId := Subscription(userId, p, PlanMaxDevices(p), now, end,
                                                                     true, false, now, now)]
      && ActiveIds(r.records, userId) == {nextId}
    ensures forall id :: id in m && m[id].userId != userId ==> id in r.records && r.records[id] == m[id]
  {
    var p := ParsePlan(plan);
    if p.None? then SubscribeResult(InvalidPlan, m)
    else
      var endDate := SubscriptionEnd(now, Months(duration));
      var deactivated := DeactivateAll(m, userId);
      match NewSubscription(userId, Some(plan), Some(PlanMaxDevices(p.value)), None, endDate, now)
      case Rejected(_) => SubscribeResult(SaveFailed, deactivated)
      case Created(s) =>
        SubscribeResult(Subscribed(s.plan, s.maxDevices, s.startDate, s.endDate), deactivated[nextId := s])
  }

  /** A user who subscribes for too long loses every subscription: from
      3 333 334 months on (some 274 000 years) the end date is past the last
      representable instant, the insert fails with 500, and the deactivation
      before it has already been written. */
  lemma OverlongSubscriptionDropsAll(m: SubscriptionMap, nextId: nat, userId: string, plan: string,
                                     duration: int, now: Millis)
    requires nextId !in m && ParsePlan(plan).Some?
    requires 0 <= now && duration >= 3333334
    ensures Subscribe(m, nextId, userId, plan, duration, now).response == SaveFailed
    ensures !HasActive(Subscribe(m, nextId, userId, plan, duration, now).records, userId)
  {
    assert Months(duration) == duration;
    assert duration * 30 >= 3333334 * 30;
    assert duration * 30 * MsPerDay >= 3333334 * 30 * MsPerDay == 8640001728000000;
    assert SubscriptionEnd(now, duration) >= 8640001728000000;
    assert !IsTimeValue(SubscriptionEnd(now, Months(duration)));
    var after := DeactivateAll(m, userId);
    assert forall id :: id in after ==> !Selectable(after[id], userId);
  }

  /** `POST /subscribe` as written: `validPlans[plan]` is a lookup in a plain
      object, so a name it inherits from `Object.prototype` passes the plan
      check. The user's active records are then deactivated, and the insert
      that follows fails the schema's plan enum, answering 500. */
  function SubscribeAsWritten(m: SubscriptionMap, nextId: nat, userId: string, plan: string,
                              duration: int, now: Millis): SubscribeResult
    requires nextId !in m
  {
    if ParsePlan(plan).None? && plan in ObjectPrototypeNames then
      SubscribeResult(SaveFailed, DeactivateAll(m, userId))
    else Subscribe(m, nextId, userId, plan, duration, now)
  }

  /** The discrepancy: subscribing to `constructor` costs a user with an
      active subscription every active record and gives nothing back, where
      an unknown plan should be refused with 400 and nothing written. Other
      names are answered alike. */
  lemma InheritedPlanNameDropsSubscription(m: SubscriptionMap, nextId: nat, userId: string,
                                           plan: string, duration: int, now: Millis)
    requires nextId !in m
    ensures SubscribeAsWritten(m, nextId, userId, "constructor", duration, now).response == SaveFailed
    ensures !HasActive(SubscribeAsWritten(m, nextId, userId, "constructor", duration, now).records, userId)
    ensures Subscribe(m, nextId, userId, "constructor", duration, now) == SubscribeResult(InvalidPlan, m)
    ensures (plan !in ObjectPrototypeNames ==>
             SubscribeAsWritten(m, nextId, userId, plan, duration, now) == Subscribe(m, nextId, userId, plan, duration, now))
  {
    var after := DeactivateAll(m, userId);
    assert ParsePlan("constructor").None?;
    assert forall id :: id in after && after[id].userId == userId ==> !after[id].isActive;
  }

  method PostSubscribe(store: SubscriptionStore, userId: string, plan: string, duration: int, now: Millis)
    returns (r: SubscribeResponse)
    requires store.Valid()
    modifies store
    ensures store.Valid()
    ensures SubscribeResult(r, store.records) == Subscribe(old(store.records), old(store.nextId), userId, plan, duration, now)
    ensures r.Subscribed? ==> store.nextId == old(store.nextId) + 1 && ActiveIds(store.records, userId) == {old(store.nextId)}
  {
    var p := ParsePlan(plan);
    if p.None? {
      return InvalidPlan;
    }
    var months := Months(duration);
    var endDate := SubscriptionEnd(now, months);
    store.DeactivateAllOf(userId);
    var created := NewSubscription(userId, Some(plan), Some(PlanMaxDevices(p.value)), None, endDate, now);
    if created.Rejected? {
      return SaveFailed;
    }
    var s := created.sub;
    var id := store.Insert(s);
    r := Subscribed(s.plan, s.maxDevices, s.startDate, s.endDate);
  }

  /** `daysRemaining` as `/status` computes it: the number of started days
      until `endDate`, not clamped, so negative once the record has expired. */
  function DaysRemaining(endDate: Millis, now: Millis): (d: int)
    ensures (d - 1) * MsPerDay < endDate - now <= d * MsPerDay
    ensures d >= 1 <==> endDate > now
  {
    CeilDiv(endDate - now, MsPerDay)
  }

  datatype StatusResponse =
    | NoStatus
    | Status(isValid: bool, plan: Plan, endDate: Millis, daysRemaining: int)

  /** `GET /status`: with no active record, `hasSubscription` and `isValid`
      are false; otherwise the latest active record is reported and, when it
      is no longer valid, flipped to inactive. */
  method GetStatus(store: SubscriptionStore, userId: string, now: Millis) returns (r: StatusResponse)
    requires store.Valid()
    modifies store
    ensures store.Valid() && store.nextId == old(store.nextId)
    ensures r.NoStatus? <==> !HasActive(old(store.records), userId)
    ensures r.NoStatus? ==> store.records == old(store.records)
    ensures r.Status? ==> exists id ::
      && IsCurrent(old(store.records), userId, id)
      && r.isValid == IsValid(old(store.records)[id], now)
      && r.plan == old(store.records)[id].plan && r.endDate == old(store.records)[id].endDate
      && r.daysRemaining == DaysRemaining(r.endDate, now)
      && store.records == (if r.isValid then old(store.records) else Expire(old(store.records), id, now))
    ensures r.Status? ==> (r.isValid <==> r.daysRemaining >= 1)
  {
    var found := store.FindCurrent(userId);
    if found.None? {
      return NoStatus;
    }
    var id := found.value;
    var sub := store.records[id];
    var isValid := IsValid(sub, now);
    if !isValid && sub.isActive {
      store.Save(id, sub.(isActive := false), now);
    }
    r := Status(isValid, sub.plan, sub.endDate, DaysRemaining(sub.endDate, now));
  }
}
