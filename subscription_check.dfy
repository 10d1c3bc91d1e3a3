/** The `checkSubscription` middleware (`src/middleware/subscription.js`):
    select the user's current subscription, expire it lazily when it is no
    longer valid, and either deny the request or attach the record to it. */
module SubscriptionCheck {
  import opened Common
  import opened SubscriptionModel

  /** How the middleware ends: a 403 denial because nothing is active, a 403
      denial after expiring record `id`, or passing on with record `id`
      attached as `req.subscription`. */
  datatype CheckOutcome =
    | NotFound
    | Expired(id: nat)
    | Granted(id: nat, sub: Subscription)

  function StatusCode(r: CheckOutcome): (code: int)
    ensures code == 403 <==> !r.Granted?
  {
    if r.Granted? then 200 else 403
  }

  /** The lazy expiry write: `subscription.isActive = false; subscription.save()`. */
  function Expire(m: SubscriptionMap, id: nat, now: Millis): (r: SubscriptionMap)
    requires id in m
    ensures r.Keys == m.Keys
    ensures !r[id].isActive && r[id].updatedAt == now
    ensures r[id].(isActive := m[id].isActive, updatedAt := m[id].updatedAt) == m[id]
    ensures forall j :: j in m && j != id ==> r[j] == m[j]
  {
    m[id := Saved(m[id].(isActive := false), now)]
  }

  /** `r` is how the check ends on the records `m` at `now`, and `after` is
      what it leaves in the store: nothing active is a denial with nothing
      written; otherwise the current record is either valid and granted with
      nothing written, or invalid, expired and denied. */
  ghost predicate CheckedAs(m: SubscriptionMap, userId: string, now: Millis, r: CheckOutcome,
                            after: SubscriptionMap)
  {
    && (r.NotFound? <==> !HasActive(m, userId))
    && (r.NotFound? ==> after == m)
    && (!r.NotFound? ==> IsCurrent(m, userId, r.id))
    && (r.Granted? ==> r.sub == m[r.id] && IsValid(r.sub, now) && after == m)
    && (r.Expired? ==> !IsValid(m[r.id], now) && after == Expire(m, r.id, now))
  }

  method CheckSubscription(store: SubscriptionStore, userId: string, now: Millis) returns (r: CheckOutcome)
    requires store.Valid()
    modifies store
    ensures store.Valid() && store.nextId == old(store.nextId)
    ensures r.NotFound? <==> !HasActive(old(store.records), userId)
    ensures !r.NotFound? ==> IsCurrent(old(store.records), userId, r.id)
    ensures r.Granted? ==>
      r.sub == old(store.records)[r.id] && IsValid(r.sub, now) && store.records == old(store.records)
    ensures r.Expired? ==>
      !IsValid(old(store.records)[r.id], now) && store.records == Expire(old(store.records), r.id, now)
    ensures r.NotFound? ==> store.records == old(store.records)
    ensures CheckedAs(old(store.records), userId, now, r, store.records)
  {
    var found := store.FindCurrent(userId);
    if found.None? {
      return NotFound;
    }
    var id := found.value;
    var sub := store.records[id];
    if !IsValid(sub, now) {
      store.Save(id, sub.(isActive := false), now);
      return Expired(id);
    }
    r := Granted(id, sub);
  }

  /** Once a check has expired record `id`, no later check selects it again:
      it no longer matches `isActive: true`, and the user's active records are
      exactly the previous ones without it. */
  lemma ExpiredNeverSelectedAgain(m: SubscriptionMap, userId: string, id: nat, now: Millis)
    requires IsCurrent(m, userId, id) && !IsValid(m[id], now)
    ensures forall j :: IsCurrent(Expire(m, id, now), userId, j) ==> j != id
    ensures ActiveIds(Expire(m, id, now), userId) == ActiveIds(m, userId) - {id}
  {
    var r := Expire(m, id, now);
    forall j | j in ActiveIds(m, userId) - {id}
      ensures j in ActiveIds(r, userId)
    {
      assert r[j] == m[j];
    }
  }

  /** An expiry happens only when the selected record is past its `endDate`,
      so checking again at the same instant (or later) never turns the
      record back into a grant, and repeated checks deny at most as many
      times as the user has active records. */
  lemma ExpiryShrinksActive(m: SubscriptionMap, userId: string, id: nat, now: Millis)
    requires IsCurrent(m, userId, id) && !IsValid(m[id], now)
    ensures m[id].endDate <= now
    ensures |ActiveIds(Expire(m, id, now), userId)| < |ActiveIds(m, userId)|
  {
    ExpiredNeverSelectedAgain(m, userId, id, now);
    assert id in ActiveIds(m, userId);
  }
}
