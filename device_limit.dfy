/** The `checkDeviceLimit` middleware (`src/middleware/deviceLimit.js`): one
    active device per user. Registering a device first deactivates every
    other active device of the user in one bulk update, then reactivates the
    device's own record if it already exists; a new device is left for the
    route to create. */
module DeviceLimit {
  import opened Common
  import opened DeviceModel

  /** The bulk update `updateMany({ userId, deviceId: { $ne: deviceId },
      isActive: true }, { $set: { isActive: false } })`. */
  function KickOutOthers(m: DeviceMap, userId: string, deviceId: string): (r: DeviceMap)
    ensures r.Keys == m.Keys
    // every other device of the user ends inactive
    ensures forall k :: k in m && k.userId == userId && k.deviceId != deviceId ==> !r[k].isActive
    // only `isActive` may change, and only on a matching record
    ensures forall k :: k in m ==> r[k].(isActive := m[k].isActive) == m[k]
    ensures forall k :: k in m && (k.userId != userId || k.deviceId == deviceId) ==> r[k] == m[k]
    // already inactive records are not touched, so their `lastActiveAt` survives
    ensures forall k :: k in m && !m[k].isActive ==> r[k] == m[k]
  {
    map k | k in m :: if k.userId == userId && k.deviceId != deviceId && m[k].isActive
                      then m[k].(isActive := false) else m[k]
  }

  /** How the middleware ends: 400 for a missing `deviceId`, or `next()`,
      telling whether it found and reactivated an existing record. */
  datatype LimitOutcome = MissingDeviceId | Proceed(reactivated: bool)

  datatype LimitResult = LimitResult(outcome: LimitOutcome, records: DeviceMap)

  /** The whole middleware on the collection `m`; an empty `deviceId` stands
      for any falsy one (absent, null or ""). */
  function DeviceLimitStep(m: DeviceMap, userId: string, deviceId: string, now: Millis): (r: LimitResult)
    ensures r.outcome.MissingDeviceId? <==> deviceId == ""
    ensures r.outcome.MissingDeviceId? ==> r.records == m
    ensures r.outcome.Proceed? ==>
      var key := DeviceKey(userId, deviceId);
      && r.outcome.reactivated == (key in m)
      // the middleware creates nothing
      && r.records.Keys == m.Keys
      // afterwards the device is the user's only active one, or the user has none
      && ActiveKeys(r.records, userId) == (if key in m then {key} else {})
      && (key in m ==> r.records[key] == m[key].(isActive := true, lastActiveAt := now))
      // other users' records and the user's inactive records are untouched
      && (forall k :: k in m && k.userId != userId ==> r.records[k] == m[k])
      && (forall k :: k in m && k != key && !m[k].isActive ==> r.records[k] == m[k])
      // every other record changes at most in `isActive`
      && (forall k :: k in m && k != key ==> r.records[k] == m[k].(isActive := r.records[k].isActive))
  {
    if deviceId == "" then LimitResult(MissingDeviceId, m)
    else
      var key := DeviceKey(userId, deviceId);
      var kicked := KickOutOthers(m, userId, deviceId);
      var after := if key in kicked
                   then kicked[key := kicked[key].(isActive := true, lastActiveAt := now)]
                   else kicked;
      LimitResult(Proceed(key in m), after)
  }

  /** The middleware run against the device collection. */
  method CheckDeviceLimit(store: DeviceStore, userId: string, deviceId: string, now: Millis)
    returns (r: LimitOutcome)
    requires store.Valid()
    modifies store
    ensures store.Valid()
    ensures LimitResult(r, store.records) == DeviceLimitStep(old(store.records), userId, deviceId, now)
  {
    if deviceId == "" {
      return MissingDeviceId;
    }
    store.records := KickOutOthers(store.records, userId, deviceId);
    var key := DeviceKey(userId, deviceId);
    if key in store.records {
      var existing := store.records[key];
      existing := existing.(isActive := true, lastActiveAt := now);
      store.records := store.records[key := existing];
      return Proceed(true);
    }
    r := Proceed(false);
  }
}
