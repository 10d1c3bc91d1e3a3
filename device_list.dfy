/** `GET /list` (`src/routes/device.js`): all of the user's devices, most
    recently active first, with the number listed and the number active. */
module DeviceList {
  import opened DeviceModel

  /** Ordered by `lastActiveAt` descending (`.sort({ lastActiveAt: -1 })`). */
  predicate NewestFirst(s: seq<Device>)
  {
    forall i :: 0 <= i < |s| - 1 ==> s[i].lastActiveAt >= s[i + 1].lastActiveAt
  }

  /** No record is listed twice. */
  ghost predicate NoDuplicates(s: seq<Device>)
  {
    forall d :: multiset(s)[d] <= 1
  }

  /** The records of `userId` stored under a key of `ks`. */
  ghost function UserDevicesAmong(m: DeviceMap, userId: string, ks: set<DeviceKey>): set<Device>
  {
    set k | k in ks && k in m && k.userId == userId :: m[k]
  }

  ghost function UserDevices(m: DeviceMap, userId: string): set<Device>
  {
    UserDevicesAmong(m, userId, m.Keys)
  }

  /** Places `d` before the first device that is not more recent than it:
      the list gains exactly `d`, and its head is `d` or the old head. */
  function InsertByRecency(s: seq<Device>, d: Device): (r: seq<Device>)
    ensures |r| == |s| + 1
    ensures multiset(r) == multiset(s) + multiset{d}
    ensures r[0] == d || (s != [] && r[0] == s[0])
  {
    if s == [] || d.lastActiveAt >= s[0].lastActiveAt then [d] + s
    else
      assert s == [s[0]] + s[1..];
      [s[0]] + InsertByRecency(s[1..], d)
  }

  /** Inserting into a newest-first list keeps it newest first. */
  lemma {:induction false} InsertKeepsNewestFirst(s: seq<Device>, d: Device)
    requires NewestFirst(s)
    ensures NewestFirst(InsertByRecency(s, d))
  {
    if s != [] && d.lastActiveAt < s[0].lastActiveAt {
      var tail := s[1..];
      assert NewestFirst(tail) by {
        assert forall i :: 0 <= i < |tail| ==> tail[i] == s[i + 1];
      }
      InsertKeepsNewestFirst(tail, d);
      var rest := InsertByRecency(tail, d);
      var r := [s[0]] + rest;
      assert forall i :: 1 <= i < |r| ==> r[i] == rest[i - 1];
      assert r[0].lastActiveAt >= r[1].lastActiveAt;
    }
  }

  /** `devices.filter(d => d.isActive).length`. */
  function CountActive(s: seq<Device>): (n: nat)
    ensures n <= |s|
    ensures n == 0 <==> forall i :: 0 <= i < |s| ==> !s[i].isActive
  {
    if s == [] then 0 else (if s[0].isActive then 1 else 0) + CountActive(s[1..])
  }

  /** A listed device is one of the user's records, under its own key. */
  lemma ListedIsStored(m: DeviceMap, userId: string, d: Device)
    requires KeysMatch(m) && d in UserDevices(m, userId)
    ensures KeyOf(d) in m && m[KeyOf(d)] == d && d.userId == userId
  {
    var k :| k in m && k.userId == userId && m[k] == d;
  }

  /** Under the single-active-device policy a listing shows at most one
      active device. */
  lemma {:induction false} ListedActiveCount(m: DeviceMap, userId: string, s: seq<Device>)
    requires KeysMatch(m) && AtMostOneActive(m)
    requires forall d :: d in s ==> d in UserDevices(m, userId)
    requires NoDuplicates(s)
    ensures CountActive(s) <= 1
  {
    if s != [] {
      assert s == [s[0]] + s[1..];
      assert multiset(s) == multiset{s[0]} + multiset(s[1..]);
      assert NoDuplicates(s[1..]) by {
        forall x ensures multiset(s[1..])[x] <= 1 {
          assert multiset(s[1..])[x] <= multiset(s)[x];
        }
      }
      if s[0].isActive {
        assert multiset(s)[s[0]] <= 1;
        forall i | 0 <= i < |s[1..]| ensures !s[1..][i].isActive {
          var d := s[1..][i];
          assert d in multiset(s[1..]);
          ListedIsStored(m, userId, d);
          ListedIsStored(m, userId, s[0]);
        }
      } else {
        ListedActiveCount(m, userId, s[1..]);
      }
    }
  }

  lemma InsertedElements(s: seq<Device>, d: Device)
    ensures forall x :: x in InsertByRecency(s, d) <==> x in s || x == d
  {
    var r := InsertByRecency(s, d);
    forall x ensures x in r <==> x in s || x == d {
      assert x in r <==> x in multiset(r);
      assert x in s <==> x in multiset(s);
    }
  }

  /** `GET /list` over the device collection; it reads and writes nothing else. */
  method ListDevices(store: DeviceStore, userId: string) returns (devices: seq<Device>, total: nat, active: nat)
    requires store.Valid()
    ensures NewestFirst(devices)
    ensures forall d :: d in devices <==> d in UserDevices(store.records, userId)
    ensures NoDuplicates(devices)
    ensures total == |devices| && active == CountActive(devices)
    ensures active <= 1
    ensures active == 0 <==> ActiveKeys(store.records, userId) == {}
  {
    var m := store.records;
    var remaining := m.Keys;
    devices := [];
    while remaining != {}
      invariant remaining <= m.Keys
      invariant NewestFirst(devices)
      invariant forall d :: d in devices <==> d in UserDevicesAmong(m, userId, m.Keys - remaining)
      invariant NoDuplicates(devices)
      decreases remaining
    {
      var k :| k in remaining;
      ghost var done := m.Keys - remaining;
      assert m.Keys - (remaining - {k}) == done + {k};
      if k.userId == userId {
        assert m[k] !in devices;
        InsertedElements(devices, m[k]);
        InsertKeepsNewestFirst(devices, m[k]);
        devices := InsertByRecency(devices, m[k]);
        assert UserDevicesAmong(m, userId, done + {k}) == UserDevicesAmong(m, userId, done) + {m[k]};
      } else {
        assert UserDevicesAmong(m, userId, done + {k}) == UserDevicesAmong(m, userId, done);
      }
      remaining := remaining - {k};
    }
    assert m.Keys - remaining == m.Keys;
    total, active := |devices|, CountActive(devices);
    ListedActiveCount(m, userId, devices);
    if ActiveKeys(m, userId) != {} {
      var k :| k in ActiveKeys(m, userId);
      assert m[k] in UserDevices(m, userId);
      var i :| 0 <= i < |devices| && devices[i] == m[k];
    } else {
      forall i | 0 <= i < |devices| ensures !devices[i].isActive {
        assert devices[i] in devices;
        ListedIsStored(m, userId, devices[i]);
      }
    }
  }
}
