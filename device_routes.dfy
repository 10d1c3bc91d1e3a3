/** The device routes (`src/routes/device.js`): `POST /register` (after the
    subscription check and the one-device middleware), `GET /list`,
    `DELETE /:deviceId` and `POST /verify`, for an already authenticated user. */
module DeviceRoutes {
  import opened Common
  import opened DeviceModel
  import opened DeviceLimit
  import SubscriptionModel
  import SubscriptionCheck
  import SubscriptionRoutes

  /** The registration body; an empty string stands for an absent field. */
  datatype RegisterRequest = RegisterRequest(deviceId: string, deviceName: string, deviceInfo: Option<DeviceInfo>)

  datatype RegisterResponse =
    | SubscriptionDenied          // 403 from the subscription check
    | DeviceIdMissing             // 400 from the middleware
    | MissingFields               // 400 from the route: no device name
    | Updated(device: Device)     // 200: the device was already registered
    | Created(device: Device)     // 201: a new record was inserted

  predicate Registered(r: RegisterResponse)
  {
    r.Updated? || r.Created?
  }

  datatype RegisterResult = RegisterResult(response: RegisterResponse, records: DeviceMap)

  /** The route handler, run on the collection the middleware left behind. */
  function RegisterHandler(m: DeviceMap, userId: string, req: RegisterRequest, now: Millis): (r: RegisterResult)
    ensures r.response.MissingFields? <==> req.deviceId == "" || req.deviceName == ""
    ensures r.response.MissingFields? ==> r.records == m
    // otherwise exactly the device's own record is written, updated or created
    ensures !r.response.MissingFields? ==>
      var key := DeviceKey(userId, req.deviceId);
      && Registered(r.response)
      && (r.response.Created? <==> key !in m)
      && r.records.Keys == m.Keys + {key}
      && r.records[key] == r.response.device
      && r.response.device.deviceName == req.deviceName
      && forall k :: k in m && k != key ==> r.records[k] == m[k]
    // an update changes only the name and, when one is sent, the info
    ensures r.response.Updated? ==>
      var prior := m[DeviceKey(userId, req.deviceId)];
      r.response.device.(deviceName := prior.deviceName, deviceInfo := prior.deviceInfo) == prior
    ensures r.response.Created? ==> r.response.device.isActive && r.response.device.lastActiveAt == now
  {
    var key := DeviceKey(userId, req.deviceId);
    if req.deviceId == "" || req.deviceName == "" then RegisterResult(MissingFields, m)
    else if key in m then
      var d := m[key];
      var d := if req.deviceName != "" then d.(deviceName := req.deviceName) else d;
      var d := if req.deviceInfo.Some? then d.(deviceInfo := req.deviceInfo.value) else d;
      RegisterResult(Updated(d), m[key := d])
    else
      var info := if req.deviceInfo.Some? then req.deviceInfo.value else NoInfo;
      var d := NewDevice(userId, req.deviceId, req.deviceName, info, now);
      RegisterResult(Created(d), m[key := d])
  }

  /** `POST /register` once the subscription check has passed: the one-device
      middleware, then the handler. The middleware runs before the handler
      validates the body, so a request with a device id but no name still
      deactivates the user's other devices. */
  function Register(m: DeviceMap, userId: string, req: RegisterRequest, now: Millis): (r: RegisterResult)
    ensures r.response.DeviceIdMissing? <==> req.deviceId == ""
    ensures r.response.DeviceIdMissing? ==> r.records == m
    ensures r.response.MissingFields? <==> req.deviceId != "" && req.deviceName == ""
    ensures r.response.MissingFields? ==> r.records == DeviceLimitStep(m, userId, req.deviceId, now).records
    ensures !r.response.SubscriptionDenied?
    ensures Registered(r.response) ==>
      var key := DeviceKey(userId, req.deviceId);
      && key in r.records && r.records[key] == r.response.device
      && r.response.device.isActive && r.response.device.lastActiveAt == now
      && r.response.device.deviceName == req.deviceName
      // the registered device is the user's one active device
      && ActiveKeys(r.records, userId) == {key}
      // a second registration creates no second record
      && (r.response.Created? <==> key !in m)
      && (r.response.Updated? ==>
            && r.records.Keys == m.Keys
            && r.response.device.registeredAt == m[key].registeredAt
            && r.response.device.deviceInfo ==
                 (if req.deviceInfo.Some? then req.deviceInfo.value else m[key].deviceInfo))
      && (r.response.Created? ==>
            && r.records.Keys == m.Keys + {key}
            && r.response.device.registeredAt == now
            && r.response.device.deviceInfo ==
                 (if req.deviceInfo.Some? then req.deviceInfo.value else NoInfo))
    // every other record is exactly as the middleware left it
    ensures Registered(r.response) ==>
      forall k :: k in m && k != DeviceKey(userId, req.deviceId) ==>
        k in r.records && r.records[k] == DeviceLimitStep(m, userId, req.deviceId, now).records[k]
    // records of other users, even under the same device id, are untouched
    ensures forall k :: k in m && k.userId != userId ==> k in r.records && r.records[k] == m[k]
    ensures KeysMatch(m) ==> KeysMatch(r.records)
  {
    var limit := DeviceLimitStep(m, userId, req.deviceId, now);
    if limit.outcome.MissingDeviceId? then RegisterResult(DeviceIdMissing, m)
    else
      var r := RegisterHandler(limit.records, userId, req, now);
      if r.response.MissingFields? then r
      else
        OnlyKeyActive(limit.records, r.records, userId, DeviceKey(userId, req.deviceId));
        r
  }

  /** Writing an active record under `key` over a collection where `key` was
      the user's only possible active one leaves exactly that one active. */
  lemma OnlyKeyActive(before: DeviceMap, after: DeviceMap, userId: string, key: DeviceKey)
    requires key.userId == userId && key in after && after[key].isActive
    requires ActiveKeys(before, userId) <= {key}
    requires after.Keys == before.Keys + {key}
    requires forall k :: k in before && k != key ==> after[k] == before[k]
    ensures ActiveKeys(after, userId) == {key}
  {
    assert ActiveKeys(after, userId) <= ActiveKeys(before, userId) + {key};
  }

  /** `POST /register` through the whole chain: the subscription check (which
      may expire the user's subscription and deny), the middleware, the handler. */
  method PostRegister(subs: SubscriptionModel.SubscriptionStore, devices: DeviceStore,
                      userId: string, req: RegisterRequest, now: Millis)
    returns (check: SubscriptionCheck.CheckOutcome, r: RegisterResponse)
    requires subs.Valid() && devices.Valid()
    modifies subs, devices
    ensures subs.Valid() && devices.Valid() && subs.nextId == old(subs.nextId)
    // the subscription check decides, and writes only its lazy expiry
    ensures SubscriptionCheck.CheckedAs(old(subs.records), userId, now, check, subs.records)
    ensures r.SubscriptionDenied? <==> !check.Granted?
    ensures r.SubscriptionDenied? ==> devices.records == old(devices.records)
    ensures check.Granted? ==>
      RegisterResult(r, devices.records) == Register(old(devices.records), userId, req, now)
  {
    check := SubscriptionCheck.CheckSubscription(subs, userId, now);
    if !check.Granted? {
      return check, SubscriptionDenied;
    }
    var limit := CheckDeviceLimit(devices, userId, req.deviceId, now);
    if limit.MissingDeviceId? {
      return check, DeviceIdMissing;
    }
    if req.deviceId == "" || req.deviceName == "" {
      return check, MissingFields;
    }
    var key := DeviceKey(userId, req.deviceId);
    if key in devices.records {
      var d := devices.records[key];
      if req.deviceName != "" {
        d := d.(deviceName := req.deviceName);
      }
      if req.deviceInfo.Some? {
        d := d.(deviceInfo := req.deviceInfo.value);
      }
      devices.records := devices.records[key := d];
      return check, Updated(d);
    }
    var info := if req.deviceInfo.Some? then req.deviceInfo.value else NoInfo;
    var d := NewDevice(userId, req.deviceId, req.deviceName, info, now);
    devices.records := devices.records[key := d];
    r := Created(d);
  }

  datatype RemoveResponse = DeviceNotFound | Removed(device: Device)

  datatype RemoveResult = RemoveResult(response: RemoveResponse, records: DeviceMap)

  /** `DELETE /:deviceId`: a soft removal that only clears `isActive`. */
  function Remove(m: DeviceMap, userId: string, deviceId: string): (r: RemoveResult)
    ensures r.response.DeviceNotFound? <==> DeviceKey(userId, deviceId) !in m
    ensures r.response.DeviceNotFound? ==> r.records == m
    ensures r.response.Removed? ==>
      var key := DeviceKey(userId, deviceId);
      && r.records.Keys == m.Keys
      && r.records[key] == r.response.device
      && !r.records[key].isActive
      && r.records[key].(isActive := m[key].isActive) == m[key]
      && forall k :: k in m && k != key ==> r.records[k] == m[k]
  {
    var key := DeviceKey(userId, deviceId);
    if key !in m then RemoveResult(DeviceNotFound, m)
    else
      var d := m[key].(isActive := false);
      RemoveResult(Removed(d), m[key := d])
  }

  method DeleteDevice(devices: DeviceStore, userId: string, deviceId: string) returns (r: RemoveResponse)
    requires devices.Valid()
    modifies devices
    ensures devices.Valid()
    ensures RemoveResult(r, devices.records) == Remove(old(devices.records), userId, deviceId)
  {
    var key := DeviceKey(userId, deviceId);
    if key !in devices.records {
      return DeviceNotFound;
    }
    var d := devices.records[key];
    d := d.(isActive := false);
    devices.records := devices.records[key := d];
    r := Removed(d);
  }

  /** What `/verify` reports about the subscription the check attached. */
  datatype SubscriptionView = SubscriptionView(plan: SubscriptionModel.Plan, isValid: bool, endDate: Millis,
                                               maxDevices: int, daysRemaining: int)

  datatype VerifyResponse =
    | VerifySubscriptionDenied   // 403 from the subscription check
    | VerifyMissingDeviceId      // 400
    | NeedsRegistration          // 404: no active record for the device
    | Verified(device: Device, subscription: SubscriptionView)

  datatype VerifyResult = VerifyResult(response: VerifyResponse, records: DeviceMap)

  /** `Math.max(0, Math.ceil((endDate - now) / day))`. */
  function VerifyDaysRemaining(endDate: Millis, now: Millis): (d: nat)
    ensures d == 0 <==> endDate <= now
    ensures endDate > now ==> d == SubscriptionRoutes.DaysRemaining(endDate, now)
  {
    ClampToZero(SubscriptionRoutes.DaysRemaining(endDate, now))
  }

  /** `POST /verify` with the subscription `sub` the check attached: the
      device needs an active record, whose activity stamp is refreshed. */
  function Verify(m: DeviceMap, userId: string, deviceId: string, sub: SubscriptionModel.Subscription,
                  now: Millis): (r: VerifyResult)
    ensures r.response.VerifyMissingDeviceId? <==> deviceId == ""
    ensures r.response.NeedsRegistration? <==>
      deviceId != "" && !(DeviceKey(userId, deviceId) in m && m[DeviceKey(userId, deviceId)].isActive)
    ensures !r.response.Verified? ==> r.records == m
    ensures r.response.Verified? ==>
      var key := DeviceKey(userId, deviceId);
      && r.records == m[key := UpdateActivity(m[key], now)]
      && r.response.device == r.records[key]
      // the attached subscription, as it stands, with its clamped day count
      && r.response.subscription == SubscriptionView(sub.plan, SubscriptionModel.IsValid(sub, now), sub.endDate,
                                                     sub.maxDevices, VerifyDaysRemaining(sub.endDate, now))
      && (SubscriptionModel.IsValid(sub, now) ==> r.response.subscription.daysRemaining >= 1)
    ensures !r.response.VerifySubscriptionDenied?
  {
    var key := DeviceKey(userId, deviceId);
    if deviceId == "" then VerifyResult(VerifyMissingDeviceId, m)
    else if !(key in m && m[key].isActive) then VerifyResult(NeedsRegistration, m)
    else
      var d := UpdateActivity(m[key], now);
      var view := SubscriptionView(sub.plan, SubscriptionModel.IsValid(sub, now), sub.endDate, sub.maxDevices,
                                   VerifyDaysRemaining(sub.endDate, now));
      VerifyResult(Verified(d, view), m[key := d])
  }

  method PostVerify(subs: SubscriptionModel.SubscriptionStore, devices: DeviceStore,
                    userId: string, deviceId: string, now: Millis)
    returns (check: SubscriptionCheck.CheckOutcome, r: VerifyResponse)
    requires subs.Valid() && devices.Valid()
    modifies subs, devices
    ensures subs.Valid() && devices.Valid() && subs.nextId == old(subs.nextId)
    // the subscription check decides, and writes only its lazy expiry
    ensures SubscriptionCheck.CheckedAs(old(subs.records), userId, now, check, subs.records)
    ensures r.VerifySubscriptionDenied? <==> !check.Granted?
    ensures r.VerifySubscriptionDenied? ==> devices.records == old(devices.records)
    // what is verified against is the user's current record, valid now
    ensures check.Granted? ==>
      VerifyResult(r, devices.records) == Verify(old(devices.records), userId, deviceId, check.sub, now)
    // a device that passes verification has a subscription at least a day from expiry
    ensures r.Verified? ==> r.subscription.isValid && r.subscription.daysRemaining >= 1
  {
    check := SubscriptionCheck.CheckSubscription(subs, userId, now);
    if !check.Granted? {
      return check, VerifySubscriptionDenied;
    }
    var sub := check.sub;
    if deviceId == "" {
      return check, VerifyMissingDeviceId;
    }
    var key := DeviceKey(userId, deviceId);
    if !(key in devices.records && devices.records[key].isActive) {
      return check, NeedsRegistration;
    }
    var d := UpdateActivity(devices.records[key], now);
    devices.records := devices.records[key := d];
    var view := SubscriptionView(sub.plan, SubscriptionModel.IsValid(sub, now), sub.endDate, sub.maxDevices,
                                 VerifyDaysRemaining(sub.endDate, now));
    r := Verified(d, view);
  }
}
