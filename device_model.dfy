/** The device record (`src/models/Device.js`): its shape and defaults,
    `updateActivity`, and the device collection with its unique compound
    index on `(userId, deviceId)`. */
module DeviceModel {
  import opened Common

  /** The optional `deviceInfo` sub-document. */
  datatype DeviceInfo = DeviceInfo(browser: Option<string>, os: Option<string>, userAgent: Option<string>)

  /** `{}`: the sub-document a registration without `deviceInfo` stores. */
  const NoInfo: DeviceInfo := DeviceInfo(None, None, None)

  datatype Device = Device(
    userId: string,
    deviceId: string,
    deviceName: string,
    deviceInfo: DeviceInfo,
    lastActiveAt: Millis,
    registeredAt: Millis,
    isActive: bool)

  /** The unique compound index `{ userId: 1, deviceId: 1 }`. */
  datatype DeviceKey = DeviceKey(userId: string, deviceId: string)

  function KeyOf(d: Device): DeviceKey
  {
    DeviceKey(d.userId, d.deviceId)
  }

  /** `new Device({ userId, deviceId, deviceName, deviceInfo })` created at
      `now`: `lastActiveAt` and `registeredAt` default to the creation time and
      `isActive` to true. */
  function NewDevice(userId: string, deviceId: string, deviceName: string, info: DeviceInfo,
                     now: Millis): (d: Device)
    ensures KeyOf(d) == DeviceKey(userId, deviceId)
    ensures d.isActive && d.lastActiveAt == d.registeredAt == now
  {
    Device(userId, deviceId, deviceName, info, now, now, true)
  }

  /** `device.updateActivity()`: the activity stamp moves to `now` and nothing
      else changes. */
  function UpdateActivity(d: Device, now: Millis): (r: Device)
    ensures r.lastActiveAt == now
    ensures r.(lastActiveAt := d.lastActiveAt) == d
  {
    d.(lastActiveAt := now)
  }

  /** The collection, indexed by the unique `(userId, deviceId)` pair: at most
      one record exists per pair by construction. */
  type DeviceMap = map<DeviceKey, Device>

  /** Every record sits under its own `(userId, deviceId)`. */
  ghost predicate KeysMatch(m: DeviceMap)
  {
    forall k :: k in m ==> KeyOf(m[k]) == k
  }

  /** The keys of the user's records whose `isActive` is true. */
  ghost function ActiveKeys(m: DeviceMap, userId: string): set<DeviceKey>
  {
    set k | k in m && k.userId == userId && m[k].isActive
  }

  /** The single-active-device policy: no user has two active records. */
  ghost predicate AtMostOneActive(m: DeviceMap)
  {
    forall k1, k2 :: k1 in m && k2 in m && k1.userId == k2.userId && m[k1].isActive && m[k2].isActive
      ==> k1 == k2
  }

  lemma AtMostOneActiveMeansSmallActiveSet(m: DeviceMap, userId: string)
    requires AtMostOneActive(m)
    ensures |ActiveKeys(m, userId)| <= 1
  {
    var a := ActiveKeys(m, userId);
    if a != {} {
      var k :| k in a;
      assert a == {k};
    }
  }

  /** The device collection; `Valid` is the unique index together with the
      single-active-device policy every route keeps. */
  class DeviceStore {
    var records: DeviceMap

    ghost predicate Valid()
      reads this
    {
      KeysMatch(records) && AtMostOneActive(records)
    }

    constructor ()
      ensures Valid() && records == map[]
    {
      records := map[];
    }
  }
}
