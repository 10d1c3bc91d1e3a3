/** The single-active-device policy over any sequence of device requests:
    registrations, removals and verifications, each as the device routes
    perform it. */
module DeviceSessions {
  import opened Common
  import opened DeviceModel
  import opened DeviceLimit
  import opened DeviceRoutes
  import SubscriptionModel

  /** A device request of an authenticated user. `granted` / `sub` carry what
      the subscription check decided (`None`: it denied the request). */
  datatype DeviceRequest =
    | RegisterDevice(userId: string, req: RegisterRequest, granted: bool)
    | RemoveDevice(userId: string, deviceId: string)
    | VerifyDevice(userId: string, deviceId: string, sub: Option<SubscriptionModel.Subscription>)

  datatype TimedRequest = TimedRequest(request: DeviceRequest, at: Millis)

  /** The device collection after one request. */
  function Apply(m: DeviceMap, op: DeviceRequest, now: Millis): DeviceMap
  {
    match op
    case RegisterDevice(userId, req, granted) =>
      if granted then Register(m, userId, req, now).records else m
    case RemoveDevice(userId, deviceId) => Remove(m, userId, deviceId).records
    case VerifyDevice(userId, deviceId, sub) =>
      if sub.Some? then Verify(m, userId, deviceId, sub.value, now).records else m
  }

  /** The device collection after a sequence of requests, in order. */
  function Run(m: DeviceMap, ops: seq<TimedRequest>): DeviceMap
    decreases |ops|
  {
    if ops == [] then m else Run(Apply(m, ops[0].request, ops[0].at), ops[1..])
  }

  /** No user has two active records after a registration whose own user
      ends with at most the registered device active. */
  lemma PolicyAfterUserChange(m: DeviceMap, r: DeviceMap, userId: string, key: DeviceKey)
    requires AtMostOneActive(m)
    requires forall k :: k in r && k.userId != userId ==> k in m && r[k] == m[k]
    requires ActiveKeys(r, userId) <= {key}
    ensures AtMostOneActive(r)
  {
    forall k1, k2 | k1 in r && k2 in r && k1.userId == k2.userId && r[k1].isActive && r[k2].isActive
      ensures k1 == k2
    {
      if k1.userId == userId {
        assert k1 in ActiveKeys(r, userId) && k2 in ActiveKeys(r, userId);
      }
    }
  }

  lemma ApplyKeepsPolicy(m: DeviceMap, op: DeviceRequest, now: Millis)
    requires KeysMatch(m) && AtMostOneActive(m)
    ensures KeysMatch(Apply(m, op, now)) && AtMostOneActive(Apply(m, op, now))
  {
    match op
    case RegisterDevice(userId, req, granted) =>
      if granted {
        var r := Register(m, userId, req, now);
        var key := DeviceKey(userId, req.deviceId);
        if !r.response.DeviceIdMissing? {
          PolicyAfterUserChange(m, r.records, userId, key);
        }
      }
    case RemoveDevice(userId, deviceId) =>
    case VerifyDevice(userId, deviceId, sub) =>
  }

  /** After any sequence of register, remove and verify requests, each user
      has at most one active device. */
  lemma {:induction false} RunKeepsPolicy(m: DeviceMap, ops: seq<TimedRequest>)
    requires KeysMatch(m) && AtMostOneActive(m)
    ensures KeysMatch(Run(m, ops)) && AtMostOneActive(Run(m, ops))
    ensures forall userId :: |ActiveKeys(Run(m, ops), userId)| <= 1
    decreases |ops|
  {
    if ops != [] {
      ApplyKeepsPolicy(m, ops[0].request, ops[0].at);
      RunKeepsPolicy(Apply(m, ops[0].request, ops[0].at), ops[1..]);
    } else {
      forall userId ensures |ActiveKeys(m, userId)| <= 1 {
        AtMostOneActiveMeansSmallActiveSet(m, userId);
      }
    }
  }

  /** The code has no cooldown: a device kicked out by another registration
      of the same user fails verification, but registering it again succeeds
      at once, reactivates its record and kicks out the other device. */
  lemma KickedOutDeviceReregistersAtOnce(sub: SubscriptionModel.Subscription)
    ensures
      var phone := RegisterRequest("phoneA", "Phone", None);
      var laptop := RegisterRequest("laptopB", "Laptop", None);
      var r1 := Register(map[], "acc1", phone, 1000);
      var r2 := Register(r1.records, "acc1", laptop, 2000);
      var v := Verify(r2.records, "acc1", "phoneA", sub, 3000);
      var r3 := Register(r2.records, "acc1", phone, 4000);
      && r1.response.Created? && r2.response.Created?
      && v.response.NeedsRegistration?
      && r3.response.Updated? && r3.response.device.isActive
      && r3.records.Keys == r2.records.Keys
      && ActiveKeys(r3.records, "acc1") == {DeviceKey("acc1", "phoneA")}
  {
    var phone := RegisterRequest("phoneA", "Phone", None);
    var laptop := RegisterRequest("laptopB", "Laptop", None);
    var r1 := Register(map[], "acc1", phone, 1000);
    var r2 := Register(r1.records, "acc1", laptop, 2000);
    var a, b := DeviceKey("acc1", "phoneA"), DeviceKey("acc1", "laptopB");
    assert a != b;
    assert a in r1.records && b !in r1.records;
    assert ActiveKeys(r2.records, "acc1") == {b};
    assert a in r2.records && a !in ActiveKeys(r2.records, "acc1");
  }
}
