/** The administrator's provisioning routes (`src/routes/admin.js`):
    `POST /create-user`, which validates the request, saves a user and then
    a subscription resolved from the requested plan, and the pagination
    arithmetic of `GET /users`. */
module Admin {
  import opened Common
  import opened Js
  import opened SubscriptionModel

  // ---------------------------------------------------------------- email

  /** A character the class `[^\s@]` admits. */
  predicate EmailChar(c: char)
  {
    c != '@' && !IsSpace(c)
  }

  predicate AllEmailChars(s: string)
  {
    forall i :: 0 <= i < |s| ==> EmailChar(s[i])
  }

  /** The language of `/^[^\s@]+@[^\s@]+\.[^\s@]+$/`, written as the split
      points of a match: `@` at `i`, the chosen `.` at `j`. */
  ghost predicate MatchesEmailPattern(s: string)
  {
    exists i, j :: 0 < i && i + 1 < j && j + 1 < |s| && s[i] == '@' && s[j] == '.'
      && AllEmailChars(s[..i]) && AllEmailChars(s[i + 1..j]) && AllEmailChars(s[j + 1..])
  }

  /** The position of the first `c` in `s`. */
  function FirstIndex(s: string, c: char): (r: Option<nat>)
    ensures r.Some? ==> r.value < |s| && s[r.value] == c && forall k :: 0 <= k < r.value ==> s[k] != c
    ensures r.None? ==> forall k :: 0 <= k < |s| ==> s[k] != c
  {
    if s == [] then None
    else if s[0] == c then Some(0)
    else match FirstIndex(s[1..], c)
      case None => None
      case Some(k) => Some(k + 1)
  }

  /** A `.` that is neither the first nor the last character. */
  predicate HasInnerDot(d: string)
  {
    exists k :: 0 < k < |d| - 1 && d[k] == '.'
  }

  /** The email check, read as the regular expression reads: a non-empty
      local part up to the `@`, then a domain with no whitespace and no
      further `@` that has an inner `.`. */
  function IsValidEmail(s: string): (ok: bool)
    ensures ok ==> multiset(s)['@'] == 1 && forall k :: 0 <= k < |s| ==> !IsSpace(s[k])
  {
    match FirstIndex(s, '@')
    case None => false
    case Some(i) =>
      var ok := i > 0 && AllEmailChars(s[..i]) && AllEmailChars(s[i + 1..]) && HasInnerDot(s[i + 1..]);
      if ok then
        assert s == s[..i] + [s[i]] + s[i + 1..];
        assert '@' !in multiset(s[..i]) && '@' !in multiset(s[i + 1..]);
        ok
      else ok
  }

  lemma AllEmailCharsSplit(s: string, j: nat)
    requires j < |s|
    ensures AllEmailChars(s) ==> AllEmailChars(s[..j]) && AllEmailChars(s[j + 1..])
    ensures AllEmailChars(s[..j]) && EmailChar(s[j]) && AllEmailChars(s[j + 1..]) ==> AllEmailChars(s)
  {
    if AllEmailChars(s[..j]) && EmailChar(s[j]) && AllEmailChars(s[j + 1..]) {
      forall k | 0 <= k < |s|
        ensures EmailChar(s[k])
      {
        if k < j { assert s[k] == s[..j][k]; }
        else if k > j { assert s[k] == s[j + 1..][k - j - 1]; }
      }
    }
  }

  /** Every string the check accepts matches the regular expression. */
  lemma AcceptedEmailMatches(s: string)
    requires IsValidEmail(s)
    ensures MatchesEmailPattern(s)
  {
    var i := FirstIndex(s, '@').value;
    var d := s[i + 1..];
    var k :| 0 < k < |d| - 1 && d[k] == '.';
    var j := i + 1 + k;
    assert s[i + 1..j] == d[..k] && s[j + 1..] == d[k + 1..];
    AllEmailCharsSplit(d, k);
    assert s[j] == '.';
  }

  /** An `@` preceded only by email characters is the first one. */
  lemma FirstAt(s: string, i: nat)
    requires i < |s| && s[i] == '@' && AllEmailChars(s[..i])
    ensures FirstIndex(s, '@') == Some(i)
  {
    forall k | 0 <= k < i
      ensures s[k] != '@'
    {
      assert s[k] == s[..i][k];
    }
  }

  /** A domain made of two runs of email characters around a `.` is
      accepted as a domain. */
  lemma DomainAccepted(d: string, k: nat)
    requires 0 < k < |d| - 1 && d[k] == '.'
    requires AllEmailChars(d[..k]) && AllEmailChars(d[k + 1..])
    ensures AllEmailChars(d) && HasInnerDot(d)
  {
    assert EmailChar(d[k]);
    AllEmailCharsSplit(d, k);
  }

  /** Every string the regular expression matches is accepted. */
  lemma MatchingEmailAccepted(s: string)
    requires MatchesEmailPattern(s)
    ensures IsValidEmail(s)
  {
    var i, j :| 0 < i && i + 1 < j && j + 1 < |s| && s[i] == '@' && s[j] == '.'
      && AllEmailChars(s[..i]) && AllEmailChars(s[i + 1..j]) && AllEmailChars(s[j + 1..]);
    MatchAtAccepted(s, i, j);
  }

  /** A match with `@` at `i` and the chosen `.` at `j` is accepted. */
  lemma MatchAtAccepted(s: string, i: nat, j: nat)
    requires 0 < i && i + 1 < j && j + 1 < |s| && s[i] == '@' && s[j] == '.'
    requires AllEmailChars(s[..i]) && AllEmailChars(s[i + 1..j]) && AllEmailChars(s[j + 1..])
    ensures IsValidEmail(s)
  {
    FirstAt(s, i);
    var d := s[i + 1..];
    var k := j - i - 1;
    assert d[..k] == s[i + 1..j] && d[k + 1..] == s[j + 1..] && d[k] == '.';
    DomainAccepted(d, k);
    AcceptedAt(s, i);
  }

  /** The check's own reading once the first `@` is known. */
  lemma AcceptedAt(s: string, i: nat)
    requires FirstIndex(s, '@') == Some(i) && i > 0
    requires AllEmailChars(s[..i]) && AllEmailChars(s[i + 1..]) && HasInnerDot(s[i + 1..])
    ensures IsValidEmail(s)
  {
  }

  /** The check accepts exactly the strings the regular expression matches. */
  lemma EmailCheckIsThePattern(s: string)
    ensures IsValidEmail(s) <==> MatchesEmailPattern(s)
  {
    if IsValidEmail(s) {
      AcceptedEmailMatches(s);
    }
    if MatchesEmailPattern(s) {
      MatchingEmailAccepted(s);
    }
  }

  // ---------------------------------------------------- subscription config

  /** What the user gets: a plan name, a device allowance and a duration. */
  datatype SubscriptionConfig = SubscriptionConfig(plan: string, maxDevices: int, validDays: int)

  /** `planConfigs`: the preset allowance and duration of each plan. */
  function Preset(plan: string): (preset: Option<(int, int)>)
    // every preset grants at least 3 devices for at least 30 days
    ensures preset.Some? ==> preset.value.0 >= 3 && preset.value.1 >= 30
  {
    if plan == "free" then Some((3, 30))
    else if plan == "basic" then Some((5, 365))
    else if plan == "premium" then Some((10, 365))
    else if plan == "enterprise" then Some((50, 365))
    else None
  }

  /** `x || d` for an optional number: absent and `0` both fall back. */
  function OrElse(x: Option<int>, d: int): (r: int)
    // a given non-zero number always wins
    ensures x.Some? && x.value != 0 ==> r == x.value
    // the result is the default or the given number
    ensures r == d || (x.Some? && r == x.value)
    // a non-zero default never lets a 0 through
    ensures d != 0 ==> r != 0
  {
    if x.Some? && x.value != 0 then x.value else d
  }

  /** The subscription configuration resolved from the request: a named
      preset supplies whatever the request leaves absent or zero. */
  function ConfigFor(plan: string, maxDevices: Option<int>, validDays: Option<int>): (c: SubscriptionConfig)
    // a non-zero override always wins
    ensures maxDevices.Some? && maxDevices.value != 0 ==> c.maxDevices == maxDevices.value
    ensures validDays.Some? && validDays.value != 0 ==> c.validDays == validDays.value
    // a named preset fills in what is not overridden
    ensures Preset(plan).Some? ==> c == SubscriptionConfig(plan, OrElse(maxDevices, Preset(plan).value.0),
                                                          OrElse(validDays, Preset(plan).value.1))
    // no plan means the free plan's defaults; an unknown one is kept as given
    ensures plan == "" ==> c == SubscriptionConfig("free", OrElse(maxDevices, 3), OrElse(validDays, 30))
    ensures plan != "" && Preset(plan).None? ==> c == SubscriptionConfig(plan, OrElse(maxDevices, 3), OrElse(validDays, 30))
  {
    var defaults := SubscriptionConfig(if plan == "" then "free" else plan, OrElse(maxDevices, 3), OrElse(validDays, 30));
    if plan != "" && Preset(plan).Some? then
      SubscriptionConfig(plan, OrElse(maxDevices, Preset(plan).value.0), OrElse(validDays, Preset(plan).value.1))
    else defaults
  }

  /** The presets are exactly the plans the subscription schema admits. */
  lemma PresetsAreThePlans(plan: string)
    ensures Preset(plan).Some? <==> ParsePlan(plan).Some?
  {
  }

  /** Leaving the plan out is the same as asking for `free`. */
  lemma NoPlanIsFree(maxDevices: Option<int>, validDays: Option<int>)
    ensures ConfigFor("", maxDevices, validDays) == ConfigFor("free", maxDevices, validDays)
  {
  }

  // ------------------------------------------------------------ create-user

  /** A user record; `User.js` is not part of this model, only the fields
      this route writes. The password is the bcrypt hash, computed outside. */
  datatype User = User(id: string, username: string, email: string, password: string, isActive: bool)

  /** The request body; an empty string or `None` stands for an absent
      field. */
  datatype CreateUserRequest = CreateUserRequest(
    username: string, email: string, password: string,
    plan: string, maxDevices: Option<int>, validDays: Option<int>)

  datatype CreateUserResponse =
    | MissingFields      // 400
    | InvalidEmail       // 400
    | PasswordTooShort   // 400
    | EmailTaken         // 400
    | UsernameTaken      // 400
    | ProvisionFailed    // 500: the subscription did not save
    | UserCreated(user: User, subscription: Subscription, validDays: int)

  const MinPasswordLength: nat := 6

  /** `User.findOne({ $or: [{ email }, { username }] })`: the first stored
      user with either. */
  function FindClash(us: seq<User>, email: string, username: string): (r: Option<User>)
    ensures r.None? <==> forall u :: u in us ==> u.email != email && u.username != username
    ensures r.Some? ==> r.value in us && (r.value.email == email || r.value.username == username)
  {
    if us == [] then None
    else if us[0].email == email || us[0].username == username then Some(us[0])
    else
      assert forall u :: u in us ==> u == us[0] || u in us[1..];
      FindClash(us[1..], email, username)
  }

  datatype Provisioned = Provisioned(response: CreateUserResponse, users: seq<User>, subscriptions: SubscriptionMap)

  /** The whole of `/create-user`, in the order the route takes its steps:
      validation, the uniqueness check, saving the user, and only then
      saving the subscription. */
  function Provision(us: seq<User>, m: SubscriptionMap, nextId: nat, req: CreateUserRequest,
                     newUserId: string, hash: string, now: Millis): (r: Provisioned)
    requires nextId !in m
    ensures r.response.MissingFields? <==> req.username == "" || req.email == "" || req.password == ""
    ensures r.response.InvalidEmail? <==>
      req.username != "" && req.email != "" && req.password != "" && !IsValidEmail(req.email)
    ensures r.response.PasswordTooShort? <==>
      req.username != "" && req.password != "" && IsValidEmail(req.email) && |req.password| < MinPasswordLength
    ensures r.response.EmailTaken? || r.response.UsernameTaken? <==>
      req.username != "" && req.password != "" && IsValidEmail(req.email) && |req.password| >= MinPasswordLength
      && exists u :: u in us && (u.email == req.email || u.username == req.username)
    ensures r.response.EmailTaken? ==> exists u :: u in us && u.email == req.email
    ensures r.response.UsernameTaken? ==> exists u :: u in us && u.username == req.username && u.email != req.email
    // a refusal with 400 writes nothing
    ensures !(r.response.ProvisionFailed? || r.response.UserCreated?) ==> r.users == us && r.subscriptions == m
    // the user is saved first, whatever becomes of the subscription
    ensures r.response.ProvisionFailed? || r.response.UserCreated? ==>
      r.users == us + [User(newUserId, req.username, req.email, hash, true)]
    // the subscription fails the plan enum, or its end date is no `Date`
    ensures r.response.ProvisionFailed? <==>
      var c := ConfigFor(req.plan, req.maxDevices, req.validDays);
      && (r.response.ProvisionFailed? || r.response.UserCreated?)
      && (ParsePlan(c.plan).None? || !IsTimeValue(now + c.validDays * MsPerDay))
    ensures r.response.ProvisionFailed? ==> r.subscriptions == m
    ensures r.response.UserCreated? ==>
      var c := ConfigFor(req.plan, req.maxDevices, req.validDays);
      && r.subscriptions == m[nextId := r.response.subscription]
      && r.response.user == User(newUserId, req.username, req.email, hash, true)
      && r.response.validDays == c.validDays
      && PlanName(r.response.subscription.plan) == c.plan
      && r.response.subscription.userId == newUserId
      && r.response.subscription.maxDevices == c.maxDevices
      && r.response.subscription.startDate == now
      && r.response.subscription.endDate == now + c.validDays * MsPerDay
      && r.response.subscription.isActive
  {
    if req.username == "" || req.email == "" || req.password == "" then Provisioned(MissingFields, us, m)
    else if !IsValidEmail(req.email) then Provisioned(InvalidEmail, us, m)
    else if |req.password| < MinPasswordLength then Provisioned(PasswordTooShort, us, m)
    else match FindClash(us, req.email, req.username)
      case Some(existing) =>
        Provisioned(if existing.email == req.email then EmailTaken else UsernameTaken, us, m)
      case None =>
        var user := User(newUserId, req.username, req.email, hash, true);
        var c := ConfigFor(req.plan, req.maxDevices, req.validDays);
        match NewSubscription(newUserId, Some(c.plan), Some(c.maxDevices), Some(now), now + c.validDays * MsPerDay, now)
        case Rejected(_) => Provisioned(ProvisionFailed, us + [user], m)
        case Created(sub) =>
          PlanNamesRoundTrip(sub.plan, c.plan);
          Provisioned(UserCreated(user, sub, c.validDays), us + [user], m[nextId := sub])
  }

  /** A provisioned subscription is valid from its creation exactly when it
      was given a positive number of days. */
  lemma ProvisionedValidIffPositiveDays(us: seq<User>, m: SubscriptionMap, nextId: nat, req: CreateUserRequest,
                                        newUserId: string, hash: string, now: Millis)
    requires nextId !in m
    requires Provision(us, m, nextId, req, newUserId, hash, now).response.UserCreated?
    ensures IsValid(Provision(us, m, nextId, req, newUserId, hash, now).response.subscription, now) <==>
            ConfigFor(req.plan, req.maxDevices, req.validDays).validDays > 0
  {
    var c := ConfigFor(req.plan, req.maxDevices, req.validDays);
    var end := now + c.validDays * MsPerDay;
    assert c.validDays > 0 ==> c.validDays * MsPerDay > 0;
    assert c.validDays <= 0 ==> c.validDays * MsPerDay <= 0;
  }

  /** An unknown plan is discovered only after the user is saved: the
      request fails with 500 and leaves a user with no subscription, and the
      same request made again is refused because the email is taken. */
  lemma UnknownPlanLeavesUserWithoutSubscription(us: seq<User>, m: SubscriptionMap, nextId: nat,
                                                 req: CreateUserRequest, newUserId: string, hash: string, now: Millis)
    requires nextId !in m
    requires req.username != "" && IsValidEmail(req.email) && |req.password| >= MinPasswordLength
    requires forall u :: u in us ==> u.email != req.email && u.username != req.username
    requires req.plan != "" && Preset(req.plan).None?
    ensures var r := Provision(us, m, nextId, req, newUserId, hash, now);
            && r.response == ProvisionFailed
            && r.users == us + [User(newUserId, req.username, req.email, hash, true)]
            && r.subscriptions == m
            && Provision(r.users, r.subscriptions, nextId, req, newUserId, hash, now).response == EmailTaken
  {
    PresetsAreThePlans(req.plan);
    var r := Provision(us, m, nextId, req, newUserId, hash, now);
    assert r.users[|us|].email == req.email;
  }

  /** A validity of more than 100 000 000 days is found out only after the
      user is saved: the end date is no `Date`, the subscription does not
      save, and the request fails with 500 leaving a user with no
      subscription, whatever the plan. */
  lemma OverlongValidityLeavesUserWithoutSubscription(us: seq<User>, m: SubscriptionMap, nextId: nat,
                                                      req: CreateUserRequest, newUserId: string, hash: string,
                                                      now: Millis)
    requires nextId !in m
    requires req.username != "" && IsValidEmail(req.email) && |req.password| >= MinPasswordLength
    requires forall u :: u in us ==> u.email != req.email && u.username != req.username
    requires req.validDays.Some? && req.validDays.value > 100000000 && 0 <= now
    ensures var r := Provision(us, m, nextId, req, newUserId, hash, now);
            && r.response == ProvisionFailed
            && r.users == us + [User(newUserId, req.username, req.email, hash, true)]
            && r.subscriptions == m
  {
    var c := ConfigFor(req.plan, req.maxDevices, req.validDays);
    assert c.validDays == req.validDays.value;
    assert c.validDays * MsPerDay >= 100000001 * MsPerDay;
  }

  /** The store of users. */
  class UserStore {
    var users: seq<User>

    constructor()
      ensures users == []
    {
      users := [];
    }

    method Add(u: User)
      modifies this
      ensures users == old(users) + [u]
    {
      users := users + [u];
    }
  }

  /** `POST /create-user`: the steps of `Provision`, carried out on the two
      stores; the configuration starts from the defaults and is replaced by
      the preset when the plan names one. */
  method CreateUser(users: UserStore, subs: SubscriptionStore, req: CreateUserRequest,
                    newUserId: string, hash: string, now: Millis)
    returns (r: CreateUserResponse)
    requires subs.Valid()
    modifies users, subs
    ensures subs.Valid()
    ensures Provisioned(r, users.users, subs.records) ==
      Provision(old(users.users), old(subs.records), old(subs.nextId), req, newUserId, hash, now)
  {
    if req.username == "" || req.email == "" || req.password == "" {
      return MissingFields;
    }
    if !IsValidEmail(req.email) {
      return InvalidEmail;
    }
    if |req.password| < MinPasswordLength {
      return PasswordTooShort;
    }
    var existing := FindClash(users.users, req.email, req.username);
    if existing.Some? {
      return if existing.value.email == req.email then EmailTaken else UsernameTaken;
    }
    var user := User(newUserId, req.username, req.email, hash, true);
    users.Add(user);
    var config := SubscriptionConfig(if req.plan == "" then "free" else req.plan,
                                     OrElse(req.maxDevices, 3), OrElse(req.validDays, 30));
    if req.plan != "" && Preset(req.plan).Some? {
      var preset := Preset(req.plan).value;
      config := SubscriptionConfig(req.plan, OrElse(req.maxDevices, preset.0), OrElse(req.validDays, preset.1));
    }
    var startDate := now;
    var endDate := startDate + config.validDays * MsPerDay;
    var created := NewSubscription(newUserId, Some(config.plan), Some(config.maxDevices), Some(startDate), endDate, now);
    if created.Rejected? {
      return ProvisionFailed;
    }
    var id := subs.Insert(created.sub);
    r := UserCreated(user, created.sub, config.validDays);
  }

  // ------------------------------------------------------------- pagination

  /** The pagination of `GET /users`. */
  datatype Pagination = Pagination(page: int, limit: int, skip: int, pages: int)

  /** `parseInt(x) || d`: `NaN` and `0` fall back to the default. */
  function QueryNumber(x: string, d: int): (n: int)
    // a number that parses to non-zero is taken as written
    ensures ParseInt(x).Finite? && ParseInt(x).value != 0 ==> n == ParseInt(x).value
    // with a non-zero default the result is never 0
    ensures d != 0 ==> n != 0
  {
    match ParseInt(x)
    case NaN => d
    case Finite(v) => if v == 0 then d else v
  }

  /** `parseInt(x) || d` invents nothing: it is the default or the number
      parsed. */
  lemma QueryNumberIsDefaultOrParsed(x: string, d: int)
    ensures QueryNumber(x, d) == d || ParseInt(x) == Finite(QueryNumber(x, d))
  {
  }

  /** `page` and `limit` from the query string (empty when absent). */
  function Paginate(pageQuery: string, limitQuery: string, total: nat): (p: Pagination)
    // page and limit are the queries read by `parseInt(x) || d`, never 0
    ensures p.page == QueryNumber(pageQuery, 1) && p.limit == QueryNumber(limitQuery, 20)
    ensures p.limit != 0 && p.page != 0
  {
    PageOf(QueryNumber(pageQuery, 1), QueryNumber(limitQuery, 20), total)
  }

  /** The skip and the page count of `GET /users`: `(page - 1) * limit`
      users are skipped, and `Math.ceil(total / limit)` pages reported. */
  lemma PaginateCounts(pageQuery: string, limitQuery: string, total: nat)
    ensures var p := Paginate(pageQuery, limitQuery, total);
      && p.skip == (p.page - 1) * p.limit
      && (p.limit > 0 ==> (p.pages - 1) * p.limit < total <= p.pages * p.limit)
      && (p.limit < 0 ==> p.pages * p.limit <= total < (p.pages - 1) * p.limit)
  {
    var page := QueryNumber(pageQuery, 1);
    var limit := QueryNumber(limitQuery, 20);
    assert Paginate(pageQuery, limitQuery, total) == PageOf(page, limit, total);
  }

  /** The skip and the page count for a page and a limit already read. */
  function PageOf(page: int, limit: int, total: nat): (p: Pagination)
    requires page != 0 && limit != 0
    ensures p.page == page && p.limit == limit
    ensures p.skip == (page - 1) * limit
    ensures limit > 0 ==> (p.pages - 1) * limit < total <= p.pages * limit
    ensures limit < 0 ==> p.pages * limit <= total < (p.pages - 1) * limit
  {
    Pagination(page, limit, (page - 1) * limit, CeilDiv(total, limit))
  }

  /** A query with no digit at all (absent, empty or a word) gives the
      default. */
  lemma QueryNumberWithoutDigits(x: string, d: int)
    requires forall i :: 0 <= i < |x| ==> !('0' <= x[i] <= '9')
    ensures QueryNumber(x, d) == d
  {
    ParseIntWithoutDigits(x);
  }

  /** A number written out is read back as itself, and a written 0 gives
      the default. */
  lemma QueryNumberOfWrittenNumber(n: int, d: int)
    ensures QueryNumber(IntToString(n), d) == if n == 0 then d else n
  {
    ParseIntOfIntToString(n);
  }

  /** With a positive limit the pages cover the users exactly: the user at
      position `k < total` is on page `k / limit + 1`, whose skip is at most
      `k` and whose end is past it, and that page is among the
      `Math.ceil(total / limit)` reported. */
  lemma PagesCoverEveryUser(total: nat, limit: int, k: nat)
    requires k < total && limit > 0
    ensures 1 <= k / limit + 1 <= CeilDiv(total, limit)
    ensures (k / limit) * limit <= k < (k / limit + 1) * limit
  {
    var pages := CeilDiv(total, limit);
    var q := k / limit;
    assert k == limit * q + k % limit;
    assert (q + 1) * limit == q * limit + limit;
    assert pages * limit >= total;
  }
}
