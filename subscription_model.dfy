/** The subscription record (`src/models/Subscription.js`): its shape and
    defaults, the enum check on `plan`, the `isValid` predicate, the pre-save
    hook that stamps `updatedAt`, and the record store it lives in together
    with the query every subscription check starts from. */
module SubscriptionModel {
  import opened Common

  /** The four plans, in tier order. */
  datatype Plan = Free | Basic | Premium | Enterprise

  /** The string stored in the `plan` field. */
  function PlanName(p: Plan): string
  {
    match p
    case Free => "free"
    case Basic => "basic"
    case Premium => "premium"
    case Enterprise => "enterprise"
  }

  /** The schema's enum check: the plan a string names, if it names one. */
  function ParsePlan(name: string): Option<Plan>
  {
    if name == "free" then Some(Free)
    else if name == "basic" then Some(Basic)
    else if name == "premium" then Some(Premium)
    else if name == "enterprise" then Some(Enterprise)
    else None
  }

  /** The enum accepts exactly the four plan names, and each names one plan. */
  lemma PlanNamesRoundTrip(p: Plan, name: string)
    ensures ParsePlan(PlanName(p)) == Some(p)
    ensures ParsePlan(name) == Some(p) <==> PlanName(p) == name
  {
  }

  /** A stored subscription document. */
  datatype Subscription = Subscription(
    userId: string,
    plan: Plan,
    maxDevices: int,
    startDate: Millis,
    endDate: Millis,
    isActive: bool,
    autoRenew: bool,
    createdAt: Millis,
    updatedAt: Millis)

  /** Why the store refused to save a new document. */
  datatype SaveError = PlanNotInEnum(plan: string) | EndDateNotADate(endDate: Millis)

  datatype Created = Created(sub: Subscription) | Rejected(error: SaveError)

  /** `new Subscription({...}).save()` at time `now`: the fields the caller
      leaves out take their schema defaults (plan free, three devices, starting
      now, active, no auto-renewal), a plan outside the enum fails validation,
      an `endDate` outside the range of a `Date` is an Invalid Date that the
      `Date` field cannot cast, and the pre-save hook stamps `updatedAt`. */
  function NewSubscription(userId: string, plan: Option<string>, maxDevices: Option<int>,
                           startDate: Option<Millis>, endDate: Millis, now: Millis): (r: Created)
    ensures r.Rejected? <==> (plan.Some? && ParsePlan(plan.value).None?) || !IsTimeValue(endDate)
    ensures r.Created? ==>
      && r.sub.userId == userId && r.sub.endDate == endDate
      && r.sub.plan == (if plan.Some? then ParsePlan(plan.value).value else Free)
      && r.sub.maxDevices == (if maxDevices.Some? then maxDevices.value else 3)
      && r.sub.startDate == (if startDate.Some? then startDate.value else now)
      && r.sub.isActive && !r.sub.autoRenew
      && r.sub.createdAt == now && r.sub.updatedAt == now
  {
    var p := if plan.Some? then ParsePlan(plan.value) else Some(Free);
    if p.None? then Rejected(PlanNotInEnum(plan.value))
    else if !IsTimeValue(endDate) then Rejected(EndDateNotADate(endDate))
    else
      Created(Subscription(userId, p.value,
                           if maxDevices.Some? then maxDevices.value else 3,
                           if startDate.Some? then startDate.value else now,
                           endDate, true, false, now, now))
  }

  /** `subscription.isValid()` evaluated at `now`. */
  predicate IsValid(s: Subscription, now: Millis)
  {
    s.isActive && s.endDate > now
  }

  /** The expiry the validity check draws: a record stops being valid at the
      very instant `endDate`, and an inactive record is never valid. */
  lemma ValidityBoundary(s: Subscription, now: Millis)
    ensures IsValid(s, now) <==> s.isActive && now < s.endDate
    ensures s.endDate == now ==> !IsValid(s, now)
    ensures !s.isActive ==> forall t :: !IsValid(s, t)
  {
  }

  /** What `save()` of an existing document writes: the pre-save hook sets
      `updatedAt` to the time of the save. */
  function Saved(s: Subscription, now: Millis): (r: Subscription)
    ensures r.updatedAt == now
    ensures r.(updatedAt := s.updatedAt) == s
  {
    s.(updatedAt := now)
  }

  type SubscriptionMap = map<nat, Subscription>

  /** A record the query `{ userId, isActive: true }` matches. */
  predicate Selectable(s: Subscription, userId: string)
  {
    s.userId == userId && s.isActive
  }

  ghost predicate HasActive(m: SubscriptionMap, userId: string)
  {
    exists id :: id in m && Selectable(m[id], userId)
  }

  /** `id` is a record the query `findOne({ userId, isActive: true })
      .sort({ endDate: -1 })` may return: an active record of the user whose
      `endDate` no other active record of the user exceeds. */
  ghost predicate IsCurrent(m: SubscriptionMap, userId: string, id: nat)
  {
    && id in m && Selectable(m[id], userId)
    && forall j :: j in m && Selectable(m[j], userId) ==> m[j].endDate <= m[id].endDate
  }

  /** The ids of the user's active records. */
  ghost function ActiveIds(m: SubscriptionMap, userId: string): set<nat>
  {
    set id | id in m && Selectable(m[id], userId)
  }

  /** `Subscription.updateMany({ userId, isActive: true }, { isActive: false })`.
      A bulk update does not run the save hook, so `updatedAt` is not touched. */
  function DeactivateAll(m: SubscriptionMap, userId: string): (r: SubscriptionMap)
    ensures r.Keys == m.Keys
    ensures forall id :: id in m ==> !Selectable(r[id], userId)
    ensures forall id :: id in m ==> r[id].(isActive := m[id].isActive) == m[id]
    ensures forall id :: id in m && m[id].userId != userId ==> r[id] == m[id]
  {
    map id | id in m :: if Selectable(m[id], userId) then m[id].(isActive := false) else m[id]
  }

  /** The subscription collection. Ids are handed out in increasing order, so
      an inserted document never overwrites a stored one. */
  class SubscriptionStore {
    var records: SubscriptionMap
    var nextId: nat

    ghost predicate Valid()
      reads this
    {
      forall id :: id in records ==> id < nextId
    }

    constructor ()
      ensures Valid() && records == map[] && nextId == 0
    {
      records, nextId := map[], 0;
    }

    /** The query behind every subscription check: among the user's active
        records, one with the latest `endDate`, or none when there is none. */
    method FindCurrent(userId: string) returns (found: Option<nat>)
      ensures found.None? <==> !HasActive(records, userId)
      ensures found.Some? ==> IsCurrent(records, userId, found.value)
    {
      var remaining := records.Keys;
      found := None;
      while remaining != {}
        invariant remaining <= records.Keys
        invariant found.None? ==>
          forall j :: j in records.Keys - remaining ==> !Selectable(records[j], userId)
        invariant found.Some? ==>
          && found.value in records.Keys - remaining
          && Selectable(records[found.value], userId)
          && forall j :: j in records.Keys - remaining && Selectable(records[j], userId) ==>
               records[j].endDate <= records[found.value].endDate
        decreases remaining
      {
        var id :| id in remaining;
        if Selectable(records[id], userId)
          && (found.None? || records[id].endDate > records[found.value].endDate)
        {
          found := Some(id);
        }
        remaining := remaining - {id};
      }
    }

    /** `subscription.save()` of a stored document: the hook stamps `updatedAt`. */
    method Save(id: nat, s: Subscription, now: Millis)
      requires Valid() && id in records
      modifies this
      ensures Valid() && nextId == old(nextId)
      ensures records == old(records)[id := Saved(s, now)]
    {
      records := records[id := Saved(s, now)];
    }

    /** Inserting a new document under a fresh id. */
    method Insert(s: Subscription) returns (id: nat)
      requires Valid()
      modifies this
      ensures Valid() && id == old(nextId) && id !in old(records)
      ensures records == old(records)[id := s] && nextId == id + 1
    {
      id := nextId;
      records := records[id := s];
      nextId := nextId + 1;
    }

    /** The bulk deactivation of all the user's active records. */
    method DeactivateAllOf(userId: string)
      requires Valid()
      modifies this
      ensures Valid() && nextId == old(nextId)
      ensures records == DeactivateAll(old(records), userId)
    {
      records := DeactivateAll(records, userId);
    }
  }
}
