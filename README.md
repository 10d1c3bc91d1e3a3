# Licence server core, modelled in Dafny

This project models the server-side core of a subscription and licence
server for a browser extension, which is written on Express and Mongoose. It
covers four parts:

- **Device sessions** (`src/middleware/deviceLimit.js`, `src/routes/device.js`,
  `src/models/Device.js`). One account may have only one active device.
  Registering a device deactivates every other active device of the account,
  then reactivates or creates this one. Devices can be listed, removed (a
  soft delete) and verified.
- **Entitlement** (`src/models/Subscription.js`, `src/middleware/subscription.js`,
  `src/routes/subscription.js`). The current subscription is the active record
  with the latest `endDate`. It is expired lazily the first time a request
  finds it invalid. `/subscribe` replaces every active record with a new one,
  and `/status` reports the number of started days that remain.
- **Feature gate and abuse limiter** (`src/routes/features.js`). A static
  table ranks features by plan, and the request timestamp must be fresh
  (within 60 s). The limiter is an in-memory sliding window over a map keyed
  by `userId:feature`. The module also covers the `/verify`,
  `/adjust-price` and `/usage-stats` chains.
- **Administrator provisioning** (`src/routes/admin.js`). `/create-user`
  validates the request, checks uniqueness, saves the user, resolves the
  plan configuration and then saves the subscription. `/users` has
  pagination arithmetic.

## Conventions

- Time is an `int` count of milliseconds. A request reads the clock once, as
  `now`, and passes it in.
- Stores are classes:
  - `SubscriptionStore` is a map from ids to records. It hands out fresh ids.
  - `DeviceStore` is a map keyed by the unique `(userId, deviceId)` index.
  - `UsageLogs` is the limiter's `Map`, kept as an ordered list of entries,
    because a JavaScript `Map` iterates in insertion order.
  - `UserStore` is a sequence of users.
- Each route is a method on those stores. The method is specified by a pure
  function of the old state, and the properties are proved about that
  function.
- An absent or falsy string field of a request is the empty string. An
  absent number is `None`.
- JavaScript's `parseInt` is modelled exactly as far as these routes use it:
  - leading whitespace is skipped
  - an optional sign
  - a `0x` prefix switches to base 16
  - the longest digit prefix is read
  - `NaN` when there are no digits
- A lookup in a plain object also finds the twelve names every object
  inherits from `Object.prototype` (`Js.ObjectPrototypeNames`). Two of the
  findings below depend on this.

### Where the code differs from its design description

The model follows the code:

- **No cooldown.** A device kicked out by a competing registration is
  simply marked inactive. There is no cooldown state and no kick-out
  timestamp, so it can register again at once
  (`DeviceSessions.KickedOutDeviceReregistersAtOnce`).
- **21 calls per window.** The limiter refuses a call only when *more than*
  20 calls of the last 60 s are on record. So 21 calls in one window are
  allowed and the 22nd is refused (`AbuseDetector.TwentySecondCallRefused`),
  not 20 and then the 21st.

## Model

| member | source | states |
|---|---|---|
| Common.CeilDiv | src/routes/admin.js:195 | `Math.ceil(a / b)` is the least `r` with `a <= r*b` for a positive divisor, and the mirrored bound for a negative one |
| Js.TrimStart | src/routes/features.js:88 | `parseInt` skips exactly the leading `\s` characters, and what remains starts with a non-space character |
| Js.ParseIntNeedsADigit | src/routes/features.js:88 | `parseInt` without a radix yields a number only from a string that holds a decimal digit |
| Js.DigitPrefix | src/routes/features.js:88 | `parseInt` reads the longest prefix of digits of the radix, and stops at the first non-digit |
| Js.DigitsValueOfNat | src/routes/admin.js:159-160 | the decimal rendering of `n` consists of digits whose value is `n` |
| Js.ParseIntOfIntToString | src/routes/features.js:88 | `parseInt(String(n)) == n`: a round trip, for the integers `String` writes in plain decimal (see "## Left out") |
| Js.ParseIntWithoutDigits | src/routes/admin.js:159-160 | a string with no digits after optional spaces and sign parses to `NaN` |
| SubscriptionModel.PlanNamesRoundTrip | src/models/Subscription.js:9-13 | the plan enum and its names are inverse: `ParsePlan(PlanName(p)) == p`, and a name parses to `p` exactly when it is `p`'s name |
| SubscriptionModel.NewSubscription | src/models/Subscription.js:3-42 | a new document takes the schema defaults (free, 3 devices, start now, active, no auto-renew); it fails to save iff its plan is outside the enum or its `endDate` is beyond the range of a `Date` |
| SubscriptionModel.IsValid | src/models/Subscription.js:45-48 | `isValid()`: active and `endDate` after now; its boundary is stated by `SubscriptionModel.ValidityBoundary` |
| SubscriptionModel.ValidityBoundary | src/models/Subscription.js:45-48 | `isValid` holds iff the record is active and `now < endDate`; it is false at the instant `endDate`, and never true for an inactive record |
| SubscriptionModel.Saved | src/models/Subscription.js:51-54 | `save()` sets `updatedAt` to the time of the save and changes nothing else |
| SubscriptionModel.DeactivateAll | src/routes/subscription.js:66-69 | the bulk update leaves no active record for the user, changes only `isActive`, and does not touch other users |
| SubscriptionModel.SubscriptionStore.FindCurrent | src/middleware/subscription.js:6-9 | finds a record iff the user has an active one; what it finds is active and has the maximal `endDate` among them |
| SubscriptionModel.SubscriptionStore.Save | src/middleware/subscription.js:19-20 | `save()` writes the record under its id, with the hook's `updatedAt` |
| SubscriptionModel.SubscriptionStore.Insert | src/routes/subscription.js:72-79 | an insert takes a fresh id and never overwrites a stored record |
| SubscriptionModel.SubscriptionStore.DeactivateAllOf | src/routes/subscription.js:66-69 | the store afterwards is `DeactivateAll` of the store before |
| SubscriptionCheck.StatusCode | src/middleware/subscription.js:11-26 | both denials are 403 |
| SubscriptionCheck.Expire | src/middleware/subscription.js:18-20 | lazy expiry clears `isActive`, stamps `updatedAt` and changes nothing else |
| SubscriptionCheck.CheckSubscription | src/middleware/subscription.js:4-37 | with no active record it denies and writes nothing; otherwise it picks the current record, and either grants it (valid, nothing written) or expires it (invalid) and denies |
| SubscriptionCheck.ExpiredNeverSelectedAgain | src/middleware/subscription.js:18-20 | once expired, a record is never selected again: the active set loses exactly it |
| SubscriptionCheck.ExpiryShrinksActive | src/middleware/subscription.js:6-26 | expiry strictly shrinks the user's active set, so repeated checks converge |
| SubscriptionRoutes.GetCurrent | src/routes/subscription.js:7-40 | 404 iff no active record; otherwise it reports the current record with its computed `isValid`, writing nothing |
| SubscriptionRoutes.PlanMaxDevices | src/routes/subscription.js:48-53 | every plan grants at least 3 devices |
| SubscriptionRoutes.Months | src/routes/subscription.js:62 | `duration \|\| 1` is never 0, and is `duration` when that is non-zero |
| SubscriptionRoutes.SubscriptionEnd | src/routes/subscription.js:62-63 | the new end date lies after now iff the subscription runs for a positive number of months |
| SubscriptionRoutes.SubscriptionEndMonotone | src/routes/subscription.js:62-63 | a longer subscription never ends earlier, and a positive length gives at least 30 days |
| SubscriptionRoutes.Subscribe | src/routes/subscription.js:43-100 | an unknown plan is refused with nothing written; an end date beyond the range of a `Date` fails with 500 after every active record of the user is deactivated; otherwise the records are the deactivated ones plus the new record with the plan's quota, start now and end `now + months*30 days`, the user's only active one; other users are untouched |
| SubscriptionRoutes.OverlongSubscriptionDropsAll | src/routes/subscription.js:62-79 | from 3 333 334 months on, a subscribe with a known plan fails with 500 and leaves the user with no active subscription |
| SubscriptionRoutes.InheritedPlanNameDropsSubscription | src/routes/subscription.js:55-79 | as written, plan `constructor` passes the lookup, deactivates every active record and then fails with 500; the corrected `Subscribe` refuses it with nothing written |
| SubscriptionRoutes.PostSubscribe | src/routes/subscription.js:43-100 | the route on the store is `Subscribe`, including the deactivation left behind by a failed insert; on success the user's only active record is the new id |
| SubscriptionRoutes.DaysRemaining | src/routes/subscription.js:135 | the started days until `endDate`; at least 1 iff the record has not reached `endDate` |
| SubscriptionRoutes.GetStatus | src/routes/subscription.js:103-146 | no active record gives `hasSubscription: false` with nothing written; otherwise it reports the current record, expires it if invalid, and `isValid` iff `daysRemaining >= 1` |
| DeviceModel.NewDevice | src/models/Device.js:3-35 | a new device is stored under its own key, active, with both timestamps at `now` |
| DeviceModel.UpdateActivity | src/models/Device.js:42-45 | `updateActivity` moves `lastActiveAt` to `now` and changes nothing else |
| DeviceModel.AtMostOneActiveMeansSmallActiveSet | src/models/Device.js:37-39 | under the policy, a user's set of active records has at most one element |
| DeviceLimit.KickOutOthers | src/middleware/deviceLimit.js:16-23 | every other device of the user ends inactive; this device, other users and inactive records are untouched; only `isActive` changes |
| DeviceLimit.DeviceLimitStep | src/middleware/deviceLimit.js:4-54 | 400 iff `deviceId` is missing, with nothing written; otherwise the user's only possible active record is this device's, which is reactivated with a fresh `lastActiveAt` if it exists; every other record changes at most in `isActive`, and other users' and inactive records not at all |
| DeviceLimit.CheckDeviceLimit | src/middleware/deviceLimit.js:4-54 | the middleware on the store is `DeviceLimitStep` and keeps the unique index and the policy |
| DeviceRoutes.RegisterHandler | src/routes/device.js:11-55 | 400 iff the id or the name is missing, with nothing written; otherwise only the device's own record is written: updated with the new name (and info, if given) when it exists, created otherwise |
| DeviceRoutes.Register | src/routes/device.js:9-55 | the middleware then the handler: missing fields give 400, after the kick-out has already been written; success leaves this device the user's only active one, updated or created, and every other record as the middleware left it; other users are untouched |
| DeviceRoutes.PostRegister | src/routes/device.js:9 | the subscription check runs first and writes only its lazy expiry; registration proceeds iff it granted the user's current, valid record, and is then `Register` on the store; a denial writes no device |
| DeviceRoutes.Remove | src/routes/device.js:121-153 | 404 iff no such record; otherwise only its `isActive` is cleared |
| DeviceRoutes.DeleteDevice | src/routes/device.js:121-153 | the route on the store is `Remove` |
| DeviceRoutes.VerifyDaysRemaining | src/routes/device.js:187 | the clamped day count is 0 iff the end has passed, and otherwise equals `/status`'s count |
| DeviceRoutes.Verify | src/routes/device.js:156-202 | 400 for a missing id; 404 (`needsRegistration`) iff no active record; otherwise only the activity stamp is refreshed, and the attached subscription is reported with its plan, validity, end, quota and clamped day count |
| DeviceRoutes.PostVerify | src/routes/device.js:156 | the subscription check runs first and writes only its lazy expiry; a denial writes no device; otherwise `Verify` runs with the user's current, valid record, so a verified device shows at least one day remaining |
| DeviceList.InsertByRecency | src/routes/device.js:98-100 | insertion adds exactly the one device to the multiset, and the head is the new device or the old head |
| DeviceList.InsertKeepsNewestFirst | src/routes/device.js:98-100 | insertion keeps a list sorted by `lastActiveAt`, newest first |
| DeviceList.CountActive | src/routes/device.js:107 | the active count is 0 iff no listed device is active |
| DeviceList.ListedIsStored | src/routes/device.js:98-100 | a listed device is the user's stored record under its own key |
| DeviceList.ListedActiveCount | src/routes/device.js:106-107 | under the single-device policy a listing counts at most one active device |
| DeviceList.InsertedElements | src/routes/device.js:98-100 | insertion adds exactly the new device |
| DeviceList.ListDevices | src/routes/device.js:96-118 | exactly the user's devices, newest first, without repeats; `total` and `active` are their counts; `active <= 1`, and 0 iff the user has no active record |
| DeviceSessions.PolicyAfterUserChange | src/middleware/deviceLimit.js:16-43 | a step that only touches one user and leaves that user at most one active key keeps the policy |
| DeviceSessions.ApplyKeepsPolicy | src/routes/device.js:9-211 | register, remove and verify each keep the unique index and the single-active-device policy |
| DeviceSessions.RunKeepsPolicy | src/routes/device.js:9-211 | after any sequence of requests every user has at most one active device |
| DeviceSessions.KickedOutDeviceReregistersAtOnce | src/middleware/deviceLimit.js:16-43 | a device kicked out by another registration fails verification, but can register again at once and become the only active one |
| Features.RequiredPlan | src/routes/features.js:13-27 | the table of required plans; no feature requires enterprise |
| Features.Rank | src/routes/features.js:30-35 | plan ranks lie in 0..3 |
| Features.LevelOf | src/routes/features.js:55 | `PLAN_LEVELS[name] \|\| 0` on a stored plan name: a level in 0..3, positive iff the name is a paid plan's, and a positive level names its plan (inherited names such as `constructor` cannot reach it, since a stored plan is an enum value) |
| Features.LevelOfPlanName | src/routes/features.js:55-56 | a plan's stored name reads back as that plan's rank |
| Features.CheckFeaturePermission | src/routes/features.js:43-69 | 400 iff the table lacks the feature; 403 iff the user's level is below the required one, reporting both plans; otherwise next |
| Features.TierMonotone | src/routes/features.js:13-35 | a higher plan passes whatever a lower one passes; enterprise passes every feature, and free passes exactly the free features |
| Features.IsStale | src/routes/features.js:87-93 | `Math.abs(now - parseInt(ts)) > 60000`, false for `NaN`; its meaning is stated by `Features.FreshIffWithinWindow` and `Features.NaNTimestampIsFresh` |
| Features.VerifySignature | src/routes/features.js:74-99 | 401 iff a header is missing; otherwise stale iff the parsed timestamp is more than 60000 ms away from now |
| Features.FreshIffWithinWindow | src/routes/features.js:87-93 | a request stamped `String(t)` passes iff `t` is within 60000 ms of now either way, inclusive |
| Features.NaNTimestampIsFresh | src/routes/features.js:87-93 | any non-empty timestamp with no decimal digit reads as `NaN` and passes the freshness check whatever the clock says |
| Features.VerifyFeature | src/routes/features.js:142-190 | 400 for a missing or unknown feature; otherwise a report whose `hasPermission` agrees with the gate |
| Features.InheritedNameReportedAsPermitted | src/routes/features.js:157-169 | as written, feature `constructor` is reported permitted to a free user with no required plan; the corrected `VerifyFeature` answers 400; other names are answered alike |
| AbuseDetector.Recent | src/routes/features.js:118 | the pruned log holds only entries less than 60000 ms old, and every such entry of the log |
| AbuseDetector.RecentCounts | src/routes/features.js:118 | the pruned log holds each entry less than 60000 ms old exactly as often as the log does, and no older one |
| AbuseDetector.RecentInOrder | src/routes/features.js:118 | the pruned log keeps the log's order: it is a subsequence of it |
| AbuseDetector.RecentKeepsAll | src/routes/features.js:118 | pruning a log whose entries are all recent changes nothing |
| AbuseDetector.RecentDropsAll | src/routes/features.js:118 | pruning a log with no recent entries empties it |
| AbuseDetector.LimitStep | src/routes/features.js:114-134 | refused iff more than 20 recent calls remain; a refused call stores the pruned log, an allowed one appends `now`; a stored log never exceeds 21 entries |
| AbuseDetector.Key | src/routes/features.js:106-107 | the key `userId:feature` belongs to the user, and its text after the separator is the body's feature, or `undefined` when absent |
| AbuseDetector.BurstAllowed | src/routes/features.js:118-134 | up to 21 calls each less than a window after the earlier ones, from an empty log, are all allowed and recorded |
| AbuseDetector.TwentySecondCallRefused | src/routes/features.js:122-130 | 21 calls in one window are allowed and the 22nd is refused |
| AbuseDetector.QuietWindowResets | src/routes/features.js:118-134 | after a full quiet window the next call is allowed and the log restarts with it |
| AbuseDetector.IndexOf | src/routes/features.js:110 | the first entry with the key, or none |
| AbuseDetector.LogOf | src/routes/features.js:114 | `get` yields the key's log, and an empty log for a key never set |
| AbuseDetector.SetEntry | src/routes/features.js:111-134 | `set` replaces the key's log in place or appends it, and leaves every other key's log alone |
| AbuseDetector.SetEntryTwice | src/routes/features.js:119-134 | two `set`s of one key amount to the second |
| AbuseDetector.UsageLogs.Set | src/routes/features.js:119-134 | a `set` on the store keeps the keys distinct and the logs bounded |
| AbuseDetector.DetectAbnormalBehavior | src/routes/features.js:104-137 | the verdict and the stored map are those of `LimitStep` on the key's log, and only that key changes |
| AbuseDetector.RenamingTheFeatureEvadesTheLimit | src/routes/features.js:106-107 | the key comes from the body, so a caller refused under one feature name is allowed at once under another |
| AbuseDetector.UpToColon | src/routes/features.js:258 | the text up to the first `:` |
| AbuseDetector.SecondFieldOfKey | src/routes/features.js:257-258 | for a user id without `:`, `key.split(':')[1]` is the feature up to its own first `:` |
| AbuseDetector.Latest | src/routes/features.js:261 | `Math.max(...logs)` is an entry no other entry exceeds |
| AbuseDetector.StatsOf | src/routes/features.js:259-262 | the raw count, not pruned again, and the latest call iff there is one |
| AbuseDetector.UsageStats | src/routes/features.js:254-264 | the statistics object built in the map's iteration order, a later key with the same feature overwriting an earlier one; its meaning is stated by `AbuseDetector.UsageStatsMeaning` |
| AbuseDetector.UsageStatsMeaning | src/routes/features.js:256-264 | every reported feature comes from an entry of this user, with that entry's counts; every entry of the user is reported |
| AbuseDetector.UsageStatsLastEntryWins | src/routes/features.js:256-262 | of the user's keys naming the same feature (`u:a` and `u:a:b` both name `a`), the last in the map's order decides the reported counts |
| AbuseDetector.UsageStatsBounded | src/routes/features.js:256-264 | with the limiter's bound, no feature reports more than 21 calls |
| AbuseDetector.CollectUsageStats | src/routes/features.js:254-264 | the loop builds `UsageStats` of the map in iteration order |
| FeatureRoutes.PostVerifyFeature | src/routes/features.js:142-190 | the subscription check runs first and writes only its lazy expiry; a denial gives no report; otherwise it gives `VerifyFeature` for the current record's plan |
| FeatureRoutes.PostAdjustPrice | src/routes/features.js:195-242 | subscription (writing only its lazy expiry), then tier, then freshness, then the limiter; a request stopped before the limiter leaves the logs unchanged, and 429 iff the body-named key has more than 20 recent calls |
| FeatureRoutes.AdjustPriceNeedsPremium | src/routes/features.js:195-198 | only premium and enterprise pass the `/adjust-price` gate |
| FeatureRoutes.UsageStatsHandler | src/routes/features.js:249-282 | 500 iff no subscription is attached to the request; otherwise it reports the statistics |
| FeatureRoutes.GetUsageStatsAsWritten | src/routes/features.js:247-283 | as written, every request answers 500 |
| FeatureRoutes.GetUsageStats | src/routes/features.js:247-283 | with `checkSubscription` in the chain (writing only its lazy expiry), a granted user gets their current plan and the statistics of their own keys; a denied one gets 403 |
| Admin.IsValidEmail | src/routes/admin.js:35 | an accepted email has exactly one `@` and no whitespace |
| Admin.AllEmailCharsSplit | src/routes/admin.js:35 | the `[^\s@]+` class splits and joins around a position |
| Admin.AcceptedEmailMatches | src/routes/admin.js:35-41 | every accepted email matches the regular expression |
| Admin.MatchingEmailAccepted | src/routes/admin.js:35-41 | every string the regular expression matches is accepted |
| Admin.EmailCheckIsThePattern | src/routes/admin.js:35-41 | the email check is exactly the regular expression, in both directions |
| Admin.Preset | src/routes/admin.js:84-89 | `planConfigs`: every preset grants at least 3 devices for at least 30 days |
| Admin.OrElse | src/routes/admin.js:77-98 | `x \|\| d` is the default or the given number; a given non-zero number always wins, and a non-zero default never lets 0 through |
| Admin.ConfigFor | src/routes/admin.js:77-98 | a non-zero override always wins; a named preset fills in the rest; no plan gives free/3/30; an unknown plan is kept as given with 3/30 |
| Admin.PresetsAreThePlans | src/routes/admin.js:84-89 | the presets are exactly the plans the subscription enum admits |
| Admin.NoPlanIsFree | src/routes/admin.js:77-98 | leaving the plan out is the same as asking for `free` |
| Admin.FindClash | src/routes/admin.js:52-54 | finds a user iff one has the email or the username |
| Admin.Provision | src/routes/admin.js:22-151 | the refusals come in order (missing field, email, password under 6, clash naming the email when it matches) and write nothing; the user is saved before the subscription; an unknown plan or an end date beyond the range of a `Date` fails with 500 leaving the user saved; success stores the resolved plan, quota and `endDate = now + validDays*86400000` |
| Admin.ProvisionedValidIffPositiveDays | src/routes/admin.js:101-102 | a provisioned subscription is valid at once iff `validDays > 0` |
| Admin.UnknownPlanLeavesUserWithoutSubscription | src/routes/admin.js:74-113 | with an unknown plan the user is saved with no subscription, and the same request again is refused with "email taken" |
| Admin.OverlongValidityLeavesUserWithoutSubscription | src/routes/admin.js:100-113 | with `validDays` over 100 000 000 the subscription does not save: 500, with the user saved and no subscription |
| Admin.UserStore.Add | src/routes/admin.js:67-74 | saving appends the user |
| Admin.CreateUser | src/routes/admin.js:22-151 | the route on the two stores is `Provision` |
| Admin.QueryNumber | src/routes/admin.js:159-160 | in `parseInt(x) \|\| d` a non-zero parse is taken as written, and a non-zero default never yields 0 |
| Admin.QueryNumberIsDefaultOrParsed | src/routes/admin.js:159-160 | `parseInt(x) \|\| d` invents nothing: it is the default or the number parsed |
| Admin.QueryNumberWithoutDigits | src/routes/admin.js:159-160 | an absent, empty or non-numeric query gives the default |
| Admin.QueryNumberOfWrittenNumber | src/routes/admin.js:159-160 | a number written in decimal is read back as itself, and a written `0` gives the default |
| Admin.Paginate | src/routes/admin.js:159-160 | `page` and `limit` are the query strings read by `parseInt(x) \|\| d` with defaults 1 and 20, so the `QueryNumber` lemmas carry over; neither is ever 0 |
| Admin.PageOf | src/routes/admin.js:161-195 | `skip = (page-1)*limit`, and `pages` is `Math.ceil(total / limit)` by its two-sided bounds for either sign of the limit |
| Admin.PaginateCounts | src/routes/admin.js:159-195 | for the pagination read from the query, `skip = (page-1)*limit` and `pages` is the least count of pages holding `total` (the mirrored bound for a negative limit) |
| Admin.PagesCoverEveryUser | src/routes/admin.js:161-195 | the user at position `k` is on page `k/limit + 1`, which is among the reported pages |

## Left out

- Authentication (`src/middleware/auth.js`, JWT and bcrypt) is not part of this model. Every route takes an authenticated `userId`, and the bcrypt hash of `/create-user` is a parameter.
- `src/middleware/adminAuth.js` is not part of this model. It is a single comparison with an environment variable.
- `User.js` is not part of this model. A user is modelled with only the fields `/create-user` writes.
- `new ObjectId()` is randomness, so the new user's id is a parameter.
- The price arithmetic of `/adjust-price` and `/subscribe` is floating point and is left out. `FeatureRoutes.PostAdjustPrice` ends in `Priced`.
- The duplicate-key (11000) recovery of `/register` only arises under concurrent registrations. Concurrency as a whole is left out: every request runs to completion before the next.
- Store failures that lead to 500 in a `catch` are left out, except the two validation failures the model states: a plan outside the enum, and an end date that is no `Date`. The `console` logging is left out too.
- Non-string and non-number request values are left out: arrays and objects in bodies or query strings, and numbers sent as strings (the next two lines say what that leaves unmodelled). So are non-integer numbers.
- SubscriptionRoutes.Subscribe: `duration` is taken to be a number. A form-encoded body (enabled at src/index.js:21) or a JSON string sends it as a string, and JavaScript then acts on it before Mongoose does: `"0"` is truthy, so `duration || 1` keeps it and the record ends at `now` instead of a month on; a non-numeric string makes `endDate` an Invalid Date, so the save fails with 500 after every active record of the user has been deactivated. The model's `duration` of 0 gives one month.
- Admin.Provision: `validDays` and `maxDevices` are taken to be numbers. Sent as strings, `"0"` is truthy and kept, so `validDays: "0"` gives a subscription that has already ended; a non-numeric `validDays` makes `endDate` an Invalid Date, and a non-numeric `maxDevices` fails Mongoose's number cast, each answering 500 after the user has been saved.
- Date parsing and rendering are left out. The `lastCall` date of `/usage-stats` is its millisecond count.
- `/users` is modelled only as its pagination arithmetic. Its store query (sort, skip, limit) and the per-user subscription join are left out.
- Js.IntToString: writes every integer in plain decimal. JavaScript's `String` switches to exponent notation from 10^21, and numbers beyond 2^53 are not exact. So `Js.ParseIntOfIntToString` holds of JavaScript only for |n| < 2^53, which covers every time value.
- AbuseDetector.UsageStats: in JavaScript a feature named `__proto__` is not reported, because assigning `stats["__proto__"]` replaces the object's prototype instead of adding a property. The model reports it like any other name, so `AbuseDetector.UsageStatsMeaning` claims more than JavaScript does for that one name.
- The clock reading `now` is taken to be a valid time value. Only the end dates that `/subscribe` and `/create-user` compute are checked against the range of a `Date`. Within that range every integer is exact as a double, so the model's integer arithmetic agrees with JavaScript there.
- Admin.ConfigFor: does not model a plan name inherited from `Object.prototype`. Such a name gives an undefined allowance and duration. The request still ends in the same 500 after the user is saved, because the plan fails the enum, and `Admin.Provision` states that 500.
- Admin.Provision: `password.length` counts UTF-16 code units in JavaScript. The model counts Unicode scalar values.
- `scripts/`, `examples/`, `src/routes/auth.js`, `src/routes/productLog.js`, `src/index.js` and `src/config/` are left out. They are client code, command-line tools, framework wiring and store queries.
- src/index.js:61-64 mounts only the auth, device, subscription and features routers. The admin router is never mounted, so `/create-user` and `/users` cannot be reached as the server stands; `Admin.CreateUser` and `Admin.Paginate` model the router's own code as written.

## Findings

| source | as written | input that shows it | evidently intended | confidence | as-written member | corrected member |
|---|---|---|---|---|---|---|
| src/routes/features.js:247-283 | `/usage-stats` runs only `authenticateToken`, which attaches no subscription, and then reads `req.subscription.plan`; the read throws, and the route answers 500 | any authenticated `GET /usage-stats` | report the user's plan and statistics, with the subscription attached by `checkSubscription` as on the other routes | high; not executed | FeatureRoutes.GetUsageStatsAsWritten | FeatureRoutes.GetUsageStats |
| src/routes/subscription.js:55-79 | `validPlans[plan]` also finds names inherited from `Object.prototype`, so the check passes; every active subscription is deactivated; the insert then fails the plan enum with 500 | `POST /subscribe` with `{"plan": "constructor"}` by a user with an active subscription | refuse an unknown plan with 400 and write nothing | high; not executed | SubscriptionRoutes.SubscribeAsWritten (shown by SubscriptionRoutes.InheritedPlanNameDropsSubscription) | SubscriptionRoutes.Subscribe |
| src/routes/features.js:157-169 | `FEATURE_PERMISSIONS[feature]` finds an inherited function; its level is `undefined \|\| 0`; the report says the feature is permitted | `POST /features/verify` with `{"feature": "constructor"}` on a free plan | answer 400 "unknown feature" | high; not executed | Features.VerifyFeatureAsWritten (shown by Features.InheritedNameReportedAsPermitted) | Features.VerifyFeature |
