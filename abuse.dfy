/** The abuse limiter of `src/routes/features.js`: the in-memory
    `featureUsageLogs` map from `userId:feature` keys to call timestamps, the
    `detectAbnormalBehavior` sliding-window check and the per-user usage
    statistics read from the same map. */
module AbuseDetector {
  import opened Common

  /** The timestamps of the calls recorded under one key. */
  type UsageLog = seq<Millis>

  /** A call is recent while less than this many milliseconds old. */
  const Window: int := 60000
  /** More recent calls than this and the next call is refused. */
  const MaxRecent: nat := 20
  /** The `retryAfter` field of a refusal, in seconds. */
  const RetryAfterSeconds: nat := 60

  /** `r` is `s` with some entries left out, the others in their order:
      matched greedily from the back. */
  predicate IsSubsequence(r: UsageLog, s: UsageLog)
    decreases |s|
  {
    if r == [] then true
    else if s == [] then false
    else if r[|r| - 1] == s[|s| - 1] then IsSubsequence(r[..|r| - 1], s[..|s| - 1])
    else IsSubsequence(r, s[..|s| - 1])
  }

  /** `logs.filter(time => now - time < 60000)`: only recent entries, and
      every recent one. */
  function Recent(log: UsageLog, now: Millis): (r: UsageLog)
    ensures |r| <= |log|
    ensures forall i :: 0 <= i < |r| ==> now - r[i] < Window && r[i] in log
    ensures forall t :: t in log && now - t < Window ==> t in r
  {
    if log == [] then []
    else
      var last := log[|log| - 1];
      assert log == log[..|log| - 1] + [last];
      Recent(log[..|log| - 1], now) + (if now - last < Window then [last] else [])
  }

  /** The filter keeps each recent entry as often as the log holds it and
      none of the others. */
  lemma {:induction false} RecentCounts(log: UsageLog, now: Millis)
    ensures forall t :: multiset(Recent(log, now))[t] == if now - t < Window then multiset(log)[t] else 0
  {
    if log != [] {
      var p := log[..|log| - 1];
      var last := log[|log| - 1];
      RecentCounts(p, now);
      assert log == p + [last];
      assert multiset(log) == multiset(p) + multiset{last};
      assert multiset(Recent(log, now)) == multiset(Recent(p, now)) + if now - last < Window then multiset{last} else multiset{};
    }
  }

  /** The filter keeps the log's order. */
  lemma {:induction false} RecentInOrder(log: UsageLog, now: Millis)
    ensures IsSubsequence(Recent(log, now), log)
  {
    if log != [] {
      var p := log[..|log| - 1];
      var last := log[|log| - 1];
      var before := Recent(p, now);
      RecentInOrder(p, now);
      if now - last < Window {
        assert Recent(log, now) == before + [last];
        assert (before + [last])[..|before|] == before;
      } else {
        assert Recent(log, now) == before;
        assert before != [] ==> now - before[|before| - 1] < Window;
      }
    }
  }


  /** A log every entry of which is recent is kept whole. */
  lemma {:induction false} RecentKeepsAll(log: UsageLog, now: Millis)
    requires forall i :: 0 <= i < |log| ==> now - log[i] < Window
    ensures Recent(log, now) == log
  {
    if log != [] {
      RecentKeepsAll(log[..|log| - 1], now);
      assert log == log[..|log| - 1] + [log[|log| - 1]];
    }
  }

  /** A log none of whose entries is recent is emptied. */
  lemma {:induction false} RecentDropsAll(log: UsageLog, now: Millis)
    requires forall i :: 0 <= i < |log| ==> now - log[i] >= Window
    ensures Recent(log, now) == []
  {
    if log != [] {
      RecentDropsAll(log[..|log| - 1], now);
    }
  }

  datatype Verdict = Allowed | TooFrequent

  /** One call's effect on its key's log: the verdict and the log stored
      afterwards. A refused call is not recorded, but the pruning is. */
  datatype Step = Step(verdict: Verdict, log: UsageLog)

  function LimitStep(log: UsageLog, now: Millis): (s: Step)
    ensures s.verdict.TooFrequent? <==> |Recent(log, now)| > MaxRecent
    // whatever happens, only recent calls and this one are kept
    ensures forall i :: 0 <= i < |s.log| ==> now - s.log[i] < Window
    ensures s.verdict.TooFrequent? ==> s.log == Recent(log, now)
    ensures s.verdict.Allowed? ==> |s.log| > 0 && s.log[|s.log| - 1] == now && s.log[..|s.log| - 1] == Recent(log, now)
    // a stored log never grows beyond one past the threshold
    ensures |log| <= MaxRecent + 1 ==> |s.log| <= MaxRecent + 1
  {
    var recent := Recent(log, now);
    if |recent| > MaxRecent then Step(TooFrequent, recent)
    else Step(Allowed, recent + [now])
  }

  /** `${userId}:${req.body.feature || req.params.feature}`: none of the
      routes that use the limiter has a `feature` path parameter, so an
      absent or empty body field is rendered as `undefined`. */
  function Key(userId: string, feature: string): (key: string)
    // the key belongs to the user and names the feature after the separator
    ensures OwnedBy(key, userId)
    ensures key[|userId| + 1..] == (if feature == "" then "undefined" else feature)
  {
    userId + ":" + (if feature == "" then "undefined" else feature)
  }

  /** The calls of one key made in order, each at its own time: the verdicts
      and the stored log afterwards. */
  function Calls(log: UsageLog, times: seq<Millis>): (r: (seq<Verdict>, UsageLog))
    ensures |r.0| == |times|
  {
    if times == [] then ([], log)
    else
      var before := Calls(log, times[..|times| - 1]);
      var s := LimitStep(before.1, times[|times| - 1]);
      (before.0 + [s.verdict], s.log)
  }

  /** `n` calls allowed in a row. */
  function AllowedRun(n: nat): seq<Verdict>
  {
    if n == 0 then [] else AllowedRun(n - 1) + [Allowed]
  }

  /** Each call comes less than a window after every earlier one. */
  predicate InOneWindow(times: seq<Millis>)
  {
    forall i, j :: 0 <= i < j < |times| ==> times[j] - times[i] < Window
  }

  /** A short log of recent calls takes one more. */
  lemma RecentCallAllowed(log: UsageLog, now: Millis)
    requires |log| <= MaxRecent
    requires forall i :: 0 <= i < |log| ==> now - log[i] < Window
    ensures LimitStep(log, now) == Step(Allowed, log + [now])
  {
    RecentKeepsAll(log, now);
  }

  /** A call made less than a window after every earlier one finds them all
      recent. */
  lemma LastCallSeesAll(times: seq<Millis>)
    requires InOneWindow(times) && times != []
    ensures InOneWindow(times[..|times| - 1])
    ensures forall i :: 0 <= i < |times| - 1 ==> times[|times| - 1] - times[i] < Window
  {
  }

  /** Up to 21 calls within one window, starting from an empty log, are all
      allowed, and the log holds exactly their times. */
  lemma {:induction false} BurstAllowed(times: seq<Millis>)
    requires InOneWindow(times) && |times| <= MaxRecent + 1
    ensures Calls([], times) == (AllowedRun(|times|), times)
  {
    if times != [] {
      var prev := times[..|times| - 1];
      var now := times[|times| - 1];
      LastCallSeesAll(times);
      BurstAllowed(prev);
      RecentCallAllowed(prev, now);
      assert Calls([], times) == (AllowedRun(|prev|) + [Allowed], prev + [now]);
      assert prev + [now] == times;
    }
  }

  /** The limiter lets 21 calls through in one window and refuses the 22nd:
      it refuses only once more than 20 calls are on record. */
  lemma TwentySecondCallRefused(times: seq<Millis>)
    requires |times| == MaxRecent + 2 && InOneWindow(times)
    ensures Calls([], times).0 == AllowedRun(MaxRecent + 1) + [TooFrequent]
  {
    LastCallSeesAll(times);
    BurstAllowed(times[..MaxRecent + 1]);
    RecentKeepsAll(times[..MaxRecent + 1], times[MaxRecent + 1]);
  }

  /** Once a key has been quiet for a whole window its next call is allowed
      and the log restarts with that call alone. */
  lemma QuietWindowResets(log: UsageLog, now: Millis)
    requires forall i :: 0 <= i < |log| ==> log[i] <= now - Window
    ensures LimitStep(log, now) == Step(Allowed, [now])
  {
    RecentDropsAll(log, now);
  }

  /** The map, as the ordered list of its entries (a JavaScript `Map`
      iterates in insertion order). */
  type Entries = seq<(string, UsageLog)>

  ghost predicate DistinctKeys(e: Entries)
  {
    forall i, j :: 0 <= i < j < |e| ==> e[i].0 != e[j].0
  }

  /** The position of `key` in the list, if it is there: the first one. */
  function IndexOf(e: Entries, key: string): (r: Option<nat>)
    ensures r.Some? ==> r.value < |e| && e[r.value].0 == key && forall j :: 0 <= j < r.value ==> e[j].0 != key
    ensures r.None? ==> forall j :: 0 <= j < |e| ==> e[j].0 != key
  {
    if e == [] then None
    else if e[0].0 == key then Some(0)
    else
      match IndexOf(e[1..], key)
      case None => None
      case Some(i) => Some(i + 1)
  }

  /** `featureUsageLogs.has(key)`. */
  predicate HasKey(e: Entries, key: string)
  {
    IndexOf(e, key).Some?
  }

  /** `featureUsageLogs.get(key)`, with the empty log for an absent key. */
  function LogOf(e: Entries, key: string): (log: UsageLog)
    ensures !HasKey(e, key) ==> log == []
    ensures forall i :: 0 <= i < |e| && e[i].0 == key ==> DistinctKeys(e) ==> log == e[i].1
  {
    match IndexOf(e, key)
    case None => []
    case Some(i) => e[i].1
  }

  /** `featureUsageLogs.set(key, log)`: an existing entry is replaced where it
      stands, a new one goes last. */
  function SetEntry(e: Entries, key: string, log: UsageLog): (r: Entries)
    ensures LogOf(r, key) == log
    ensures forall k :: k != key ==> LogOf(r, k) == LogOf(e, k)
    ensures forall k :: HasKey(r, k) <==> HasKey(e, k) || k == key
    ensures forall i :: 0 <= i < |r| ==> r[i] in e || r[i] == (key, log)
    ensures DistinctKeys(e) ==> DistinctKeys(r)
    ensures HasKey(e, key) ==> |r| == |e| && forall i :: 0 <= i < |e| ==> r[i].0 == e[i].0
    ensures !HasKey(e, key) ==> r == e + [(key, log)]
  {
    match IndexOf(e, key)
    case Some(i) =>
      var r := e[i := (key, log)];
      SameKeysSameIndex(e, r);
      r
    case None =>
      var r := e + [(key, log)];
      forall k | k != key
        ensures IndexOf(r, k) == IndexOf(e, k)
      {
        IndexOfIs(r, k, IndexOf(e, k));
      }
      IndexOfIs(r, key, Some(|e|));
      r
  }

  /** `IndexOf` is the first position holding the key, and nothing else. */
  lemma IndexOfIs(e: Entries, key: string, r: Option<nat>)
    requires r.Some? ==> r.value < |e| && e[r.value].0 == key && forall j :: 0 <= j < r.value ==> e[j].0 != key
    requires r.None? ==> forall j :: 0 <= j < |e| ==> e[j].0 != key
    ensures IndexOf(e, key) == r
  {
  }

  /** Two lists with the same keys in the same places index alike. */
  lemma SameKeysSameIndex(e: Entries, r: Entries)
    requires |e| == |r| && forall i :: 0 <= i < |e| ==> r[i].0 == e[i].0
    ensures forall k :: IndexOf(r, k) == IndexOf(e, k)
  {
    forall k
      ensures IndexOf(r, k) == IndexOf(e, k)
    {
      IndexOfIs(r, k, IndexOf(e, k));
    }
  }

  /** Setting a key twice leaves the second value where the first put it. */
  lemma SetEntryTwice(e: Entries, key: string, a: UsageLog, b: UsageLog)
    ensures SetEntry(SetEntry(e, key, a), key, b) == SetEntry(e, key, b)
  {
  }

  /** The limiter's store. */
  class UsageLogs {
    var entries: Entries

    /** Keys are unique, and no log holds more than 21 timestamps. */
    ghost predicate Valid()
      reads this
    {
      DistinctKeys(entries) && forall i :: 0 <= i < |entries| ==> |entries[i].1| <= MaxRecent + 1
    }

    constructor()
      ensures Valid() && entries == []
    {
      entries := [];
    }

    method Has(key: string) returns (b: bool)
      ensures b <==> HasKey(entries, key)
    {
      b := HasKey(entries, key);
    }

    method Get(key: string) returns (log: UsageLog)
      ensures log == LogOf(entries, key)
    {
      log := LogOf(entries, key);
    }

    method Set(key: string, log: UsageLog)
      requires Valid() && |log| <= MaxRecent + 1
      modifies this
      ensures Valid() && entries == SetEntry(old(entries), key, log)
    {
      entries := SetEntry(entries, key, log);
    }
  }

  /** `detectAbnormalBehavior`: look up (creating if need be) the caller's log
      for this feature, prune it to the last minute, refuse with 429 when more
      than 20 calls remain, and otherwise record this call. */
  method DetectAbnormalBehavior(logs: UsageLogs, userId: string, feature: string, now: Millis)
    returns (v: Verdict)
    requires logs.Valid()
    modifies logs
    ensures logs.Valid()
    ensures v == LimitStep(LogOf(old(logs.entries), Key(userId, feature)), now).verdict
    ensures logs.entries ==
      SetEntry(old(logs.entries), Key(userId, feature), LimitStep(LogOf(old(logs.entries), Key(userId, feature)), now).log)
  {
    var key := Key(userId, feature);
    var present := logs.Has(key);
    if !present {
      logs.Set(key, []);
    }
    var log := logs.Get(key);
    assert log == LogOf(old(logs.entries), key);
    ghost var start := if present then old(logs.entries) else SetEntry(old(logs.entries), key, []);
    assert logs.entries == start;
    var recent := Recent(log, now);
    logs.Set(key, recent);
    if |recent| > MaxRecent {
      SetEntryTwice(old(logs.entries), key, [], recent);
      return TooFrequent;
    }
    recent := recent + [now];
    logs.Set(key, recent);
    SetEntryTwice(start, key, Recent(log, now), recent);
    SetEntryTwice(old(logs.entries), key, [], recent);
    v := Allowed;
  }

  /** The limiter's key is the feature name the client puts in the body: a
      caller refused under one name is allowed at once under a name it has
      not used yet. */
  lemma RenamingTheFeatureEvadesTheLimit(e: Entries, userId: string, used: string, other: string, now: Millis)
    requires used != "" && other != "" && used != other
    requires LimitStep(LogOf(e, Key(userId, used)), now).verdict == TooFrequent
    requires !HasKey(e, Key(userId, other))
    ensures var after := SetEntry(e, Key(userId, used), LimitStep(LogOf(e, Key(userId, used)), now).log);
            LimitStep(LogOf(after, Key(userId, other)), now) == Step(Allowed, [now])
  {
    assert Key(userId, used) != Key(userId, other) by {
      assert Key(userId, used)[|userId| + 1..] == used;
      assert Key(userId, other)[|userId| + 1..] == other;
    }
  }

  /** What `/usage-stats` reports for one feature. */
  datatype FeatureStats = FeatureStats(totalCalls: nat, lastCall: Option<Millis>)

  predicate StartsWith(s: string, prefix: string)
  {
    |prefix| <= |s| && s[..|prefix|] == prefix
  }

  /** The text before the first `:` of `s`, or all of it. */
  function UpToColon(s: string): (r: string)
    ensures StartsWith(s, r) && ':' !in r
    ensures |r| < |s| ==> s[|r|] == ':'
  {
    if s == [] || s[0] == ':' then [] else [s[0]] + UpToColon(s[1..])
  }

  /** `key.split(':')[1]`: the field between the first and the second `:`. */
  function SecondField(key: string): string
    requires ':' in key
  {
    var first := UpToColon(key);
    UpToColon(key[|first| + 1..])
  }

  /** For a user id without `:`, the field named is the feature up to its own
      first `:`. */
  lemma SecondFieldOfKey(userId: string, feature: string)
    requires ':' !in userId
    ensures ':' in Key(userId, feature)
    ensures SecondField(Key(userId, feature)) == UpToColon(if feature == "" then "undefined" else feature)
  {
    var key := Key(userId, feature);
    assert key[|userId|] == ':';
    var first := UpToColon(key);
    UpToColonOfPrefixed(userId, key[|userId|..]);
    assert key[|userId| + 1..] == if feature == "" then "undefined" else feature;
  }

  lemma {:induction false} UpToColonOfPrefixed(u: string, rest: string)
    requires ':' !in u && |rest| > 0 && rest[0] == ':'
    ensures UpToColon(u + rest) == u
  {
    if u != [] {
      assert (u + rest)[1..] == u[1..] + rest;
      UpToColonOfPrefixed(u[1..], rest);
    }
  }

  /** `Math.max(...logs)` of a non-empty log. */
  function Latest(log: UsageLog): (t: Millis)
    requires log != []
    ensures t in log && forall i :: 0 <= i < |log| ==> log[i] <= t
  {
    if |log| == 1 then log[0]
    else
      var rest := Latest(log[1..]);
      assert forall i :: 1 <= i < |log| ==> log[i] == log[1..][i - 1];
      if log[0] >= rest then log[0] else rest
  }

  function StatsOf(log: UsageLog): (s: FeatureStats)
    ensures s.totalCalls == |log|
    ensures s.lastCall.Some? <==> log != []
    ensures s.lastCall.Some? ==> s.lastCall.value in log && forall i :: 0 <= i < |log| ==> log[i] <= s.lastCall.value
  {
    FeatureStats(|log|, if log == [] then None else Some(Latest(log)))
  }

  predicate OwnedBy(key: string, userId: string)
  {
    StartsWith(key, userId + ":")
  }

  /** The statistics object built by walking the map in order: a later entry
      whose second field repeats an earlier one overwrites it. */
  function UsageStats(e: Entries, userId: string): map<string, FeatureStats>
  {
    if e == [] then map[]
    else
      var before := UsageStats(e[..|e| - 1], userId);
      var (key, log) := e[|e| - 1];
      if OwnedBy(key, userId) then
        assert key[|userId|] == ':';
        before[SecondField(key) := StatsOf(log)]
      else before
  }

  /** Every reported feature comes from an entry of this user, with that
      entry's counts; every entry of this user is reported. Which entry wins
      when two share a feature is stated by `UsageStatsLastEntryWins`. */
  lemma {:induction false} UsageStatsMeaning(e: Entries, userId: string)
    ensures forall f :: f in UsageStats(e, userId) ==>
      exists i :: 0 <= i < |e| && OwnedBy(e[i].0, userId) && ':' in e[i].0 && SecondField(e[i].0) == f
        && UsageStats(e, userId)[f] == StatsOf(e[i].1)
    ensures forall i :: 0 <= i < |e| && OwnedBy(e[i].0, userId) && ':' in e[i].0 ==> SecondField(e[i].0) in UsageStats(e, userId)
  {
    if e != [] {
      var p := e[..|e| - 1];
      var last := |e| - 1;
      UsageStatsMeaning(p, userId);
      assert forall i :: 0 <= i < |p| ==> p[i] == e[i];
      var m := UsageStats(e, userId);
      var before := UsageStats(p, userId);
      var key := e[last].0;
      if OwnedBy(key, userId) {
        assert key[|userId|] == ':';
        var g := SecondField(key);
        assert m == before[g := StatsOf(e[last].1)];
        forall f | f in m
          ensures exists i :: (0 <= i < |e| && OwnedBy(e[i].0, userId) && ':' in e[i].0 && SecondField(e[i].0) == f
                               && m[f] == StatsOf(e[i].1))
        {
          if f == g {
            assert OwnedBy(e[last].0, userId) && SecondField(e[last].0) == f;
          } else {
            StatsWitness(p, userId, before, f);
            var i :| 0 <= i < |p| && OwnedBy(p[i].0, userId) && ':' in p[i].0 && SecondField(p[i].0) == f
              && before[f] == StatsOf(p[i].1);
            assert e[i] == p[i];
          }
        }
      } else {
        assert m == before;
        forall f | f in m
          ensures exists i :: (0 <= i < |e| && OwnedBy(e[i].0, userId) && ':' in e[i].0 && SecondField(e[i].0) == f
                               && m[f] == StatsOf(e[i].1))
        {
          StatsWitness(p, userId, before, f);
          var i :| 0 <= i < |p| && OwnedBy(p[i].0, userId) && ':' in p[i].0 && SecondField(p[i].0) == f
            && before[f] == StatsOf(p[i].1);
          assert e[i] == p[i];
        }
      }
    }
  }

  /** Of a user's entries whose keys name the same feature, the last one in
      the map's order decides what is reported for it. */
  lemma {:induction false} UsageStatsLastEntryWins(e: Entries, userId: string, i: nat)
    requires i < |e| && OwnedBy(e[i].0, userId) && ':' in e[i].0
    requires forall j :: i < j < |e| && OwnedBy(e[j].0, userId) && ':' in e[j].0 ==>
      SecondField(e[j].0) != SecondField(e[i].0)
    ensures SecondField(e[i].0) in UsageStats(e, userId)
    ensures UsageStats(e, userId)[SecondField(e[i].0)] == StatsOf(e[i].1)
  {
    var p := e[..|e| - 1];
    var key := e[|e| - 1].0;
    if i < |e| - 1 {
      assert p[i] == e[i];
      forall j | i < j < |p| && OwnedBy(p[j].0, userId) && ':' in p[j].0
        ensures SecondField(p[j].0) != SecondField(p[i].0)
      {
        assert p[j] == e[j];
      }
      UsageStatsLastEntryWins(p, userId, i);
      if OwnedBy(key, userId) {
        assert key[|userId|] == ':';
        assert SecondField(key) != SecondField(e[i].0);
      }
    }
  }

  /** The first half of `UsageStatsMeaning`, one feature at a time. */
  lemma StatsWitness(e: Entries, userId: string, m: map<string, FeatureStats>, f: string)
    requires m == UsageStats(e, userId) && f in m
    requires forall f :: f in UsageStats(e, userId) ==>
      exists i :: 0 <= i < |e| && OwnedBy(e[i].0, userId) && ':' in e[i].0 && SecondField(e[i].0) == f
        && UsageStats(e, userId)[f] == StatsOf(e[i].1)
    ensures exists i :: (0 <= i < |e| && OwnedBy(e[i].0, userId) && ':' in e[i].0 && SecondField(e[i].0) == f
                         && m[f] == StatsOf(e[i].1))
  {
  }

  /** With every log bounded by the limiter, no feature reports more than 21
      calls. */
  lemma UsageStatsBounded(e: Entries, userId: string)
    requires forall i :: 0 <= i < |e| ==> |e[i].1| <= MaxRecent + 1
    ensures forall f :: f in UsageStats(e, userId) ==> UsageStats(e, userId)[f].totalCalls <= MaxRecent + 1
  {
    UsageStatsMeaning(e, userId);
  }

  /** The loop of `/usage-stats` over `featureUsageLogs.entries()`. */
  method CollectUsageStats(logs: UsageLogs, userId: string) returns (stats: map<string, FeatureStats>)
    ensures stats == UsageStats(logs.entries, userId)
  {
    stats := map[];
    var i := 0;
    while i < |logs.entries|
      invariant 0 <= i <= |logs.entries|
      invariant stats == UsageStats(logs.entries[..i], userId)
    {
      var (key, log) := logs.entries[i];
      assert logs.entries[..i + 1][..i] == logs.entries[..i];
      if StartsWith(key, userId + ":") {
        assert key[|userId|] == ':';
        stats := stats[SecondField(key) := StatsOf(log)];
      }
      i := i + 1;
    }
    assert logs.entries[..i] == logs.entries;
  }
}
