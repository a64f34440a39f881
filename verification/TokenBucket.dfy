/** The per-consumer token bucket in front of the gateway, in exact arithmetic. */
module TokenBucket {
  import opened Wrappers

  datatype Bucket = Bucket(tokens: real, last: real)

  datatype Call = Call(key: string, at: real)

  /** The rate per minute, but one at least. */
  function Capacity(ratePerMin: int): (c: int)
    ensures c >= 1 && c >= ratePerMin && (c == 1 || c == ratePerMin)
  {
    if ratePerMin > 1 then ratePerMin else 1
  }

  /** Tokens earned by waiting for a number of seconds. */
  type Accrual = real -> real

  function AccrualOf(capacity: int): Accrual {
    (seconds: real) => seconds * (capacity as real / 60.0)
  }

  /** A limiter's size and how it refills. */
  datatype Rate = Rate(capacity: int, earn: Accrual)

  function RateOf(capacity: int): Rate {
    Rate(capacity, AccrualOf(capacity))
  }

  function Min(x: real, y: real): real {
    if x <= y then x else y
  }

  /** Tokens on hand at `now`, before the call is decided; an unknown key holds a full bucket. */
  function Level(rate: Rate, b: Option<Bucket>, now: real): real {
    match b
    case None => rate.capacity as real
    case Some(bucket) => Min(rate.capacity as real, bucket.tokens + rate.earn(now - bucket.last))
  }

  function Decide(rate: Rate, b: Option<Bucket>, now: real): (bool, Bucket) {
    var tokens := Level(rate, b, now);
    if tokens < 1.0 then (false, Bucket(tokens, now)) else (true, Bucket(tokens - 1.0, now))
  }

  function Find(buckets: map<string, Bucket>, key: string): Option<Bucket> {
    if key in buckets then Some(buckets[key]) else None
  }

  lemma LimiterEarnsInProportion(capacity: int, d: real)
    ensures AccrualOf(capacity)(d) == d * (capacity as real / 60.0)
    ensures d == 0.0 ==> AccrualOf(capacity)(d) == 0.0
  {
  }

  class Limiter {
    const capacity: int
    var buckets: map<string, Bucket>

    constructor (ratePerMin: int)
      ensures capacity == Capacity(ratePerMin) && buckets == map[]
    {
      capacity := if ratePerMin > 1 then ratePerMin else 1;
      buckets := map[];
    }

    /** Decides one call at clock reading `now` and charges an admitted one. */
    method Allow(key: string, now: real) returns (admitted: bool)
      modifies this`buckets
      ensures var (ok, b) := Decide(RateOf(capacity), Find(old(buckets), key), now);
              admitted == ok && buckets == old(buckets)[key := b]
    {
      var tokens, last := capacity as real, now;
      if key in buckets {
        tokens, last := buckets[key].tokens, buckets[key].last;
      }
      LimiterEarnsInProportion(capacity, 0.0);
      tokens := Min(capacity as real, tokens + AccrualOf(capacity)(now - last));
      if tokens < 1.0 {
        buckets := buckets[key := Bucket(tokens, now)];
        return false;
      }
      buckets := buckets[key := Bucket(tokens - 1.0, now)];
      return true;
    }
  }

  // --- Runs ------------------------------------------------------------------

  /** The buckets after a run from a fresh limiter. */
  function After(rate: Rate, calls: seq<Call>): map<string, Bucket> {
    if |calls| == 0 then map[]
    else
      var before, c := After(rate, calls[..|calls| - 1]), calls[|calls| - 1];
      before[c.key := Decide(rate, Find(before, c.key), c.at).1]
  }

  /** What the `k`th call of the run is told. */
  function Verdict(rate: Rate, calls: seq<Call>, k: nat): bool
    requires k < |calls|
  {
    Decide(rate, Find(After(rate, calls[..k]), calls[k].key), calls[k].at).0
  }

  /** Calls of `key` admitted among positions `i` up to `j`. */
  function Admitted(rate: Rate, calls: seq<Call>, key: string, i: nat, j: nat): nat
    requires i <= j <= |calls|
  {
    if i == j then 0
    else Admitted(rate, calls, key, i, j - 1)
         + if calls[j - 1].key == key && Verdict(rate, calls, j - 1) then 1 else 0
  }

  /** The clock readings of one key never decrease. */
  ghost predicate ClockForward(calls: seq<Call>, key: string) {
    forall i, j | 0 <= i < j < |calls| && calls[i].key == key && calls[j].key == key :: calls[i].at <= calls[j].at
  }

  // --- Arithmetic of one bucket ----------------------------------------------

  ghost predicate Sums(earn: Accrual, d: real, e: real) {
    earn(d) + earn(e) == earn(d + e)
  }

  /** At least one token, and tokens earned in proportion to time. */
  ghost predicate Steady(rate: Rate) {
    && rate.capacity >= 1 && rate.earn(0.0) == 0.0
    && (forall d, e :: Sums(rate.earn, d, e))
    && (forall d :: d >= 0.0 ==> rate.earn(d) >= 0.0)
  }

  /** The gateway's limiter earns steadily, one full bucket a minute. */
  lemma {:induction false} LimiterIsSteady(capacity: int)
    requires capacity >= 1
    ensures Steady(RateOf(capacity))
    ensures RateOf(capacity).capacity == capacity && RateOf(capacity).earn(60.0) == capacity as real
  {
    LimiterEarnsInProportion(capacity, 0.0);
    var earn := AccrualOf(capacity);
    var r := capacity as real / 60.0;
    forall d, e ensures Sums(earn, d, e) {
      assert d * r + e * r == (d + e) * r;
    }
    forall d | d >= 0.0 ensures earn(d) >= 0.0 {
    }
  }

  lemma LevelBounds(rate: Rate, b: Option<Bucket>, now: real)
    requires Steady(rate)
    requires b.Some? ==> 0.0 <= b.value.tokens && b.value.last <= now
    ensures 0.0 <= Level(rate, b, now) <= rate.capacity as real
    ensures b.Some? && b.value.tokens <= rate.capacity as real ==> b.value.tokens <= Level(rate, b, now)
  {
  }

  /** Waiting in two steps refills as much as waiting at once. */
  lemma LevelComposes(rate: Rate, b: Option<Bucket>, mid: real, now: real)
    requires Steady(rate) && mid <= now
    ensures Level(rate, Some(Bucket(Level(rate, b, mid), mid)), now) == Level(rate, b, now)
  {
    assert rate.earn(now - mid) >= 0.0;
    if b.Some? {
      assert Sums(rate.earn, mid - b.value.last, now - mid);
      assert (mid - b.value.last) + (now - mid) == now - b.value.last;
    }
  }

  // --- Stored buckets --------------------------------------------------------

  lemma {:induction false} StoredBucket(rate: Rate, calls: seq<Call>, key: string)
    requires Steady(rate) && ClockForward(calls, key)
    ensures var b := Find(After(rate, calls), key);
            && (b.None? ==> forall i | 0 <= i < |calls| :: calls[i].key != key)
            && (b.Some? ==> && 0.0 <= b.value.tokens <= rate.capacity as real
                            && (exists i :: 0 <= i < |calls| && calls[i] == Call(key, b.value.last))
                            && (forall i | 0 <= i < |calls| && calls[i].key == key :: calls[i].at <= b.value.last))
  {
    if |calls| != 0 {
      var n := |calls| - 1;
      var front, c := calls[..n], calls[n];
      StoredBucket(rate, front, key);
      var b := Find(After(rate, front), key);
      if c.key == key {
        if b.Some? {
          var i :| 0 <= i < n && front[i] == Call(key, b.value.last);
          assert calls[i] == Call(key, b.value.last);
        }
        LevelBounds(rate, b, c.at);
        assert calls[n] == Call(key, c.at);
      } else if b.Some? {
        var i :| 0 <= i < n && front[i] == Call(key, b.value.last);
        assert calls[i] == Call(key, b.value.last);
      }
    }
  }

  /** A key's next call never reads the clock before its stored bucket. */
  lemma NextCallIsLater(rate: Rate, calls: seq<Call>, n: nat)
    requires Steady(rate) && n < |calls| && ClockForward(calls, calls[n].key)
    ensures var b := Find(After(rate, calls[..n]), calls[n].key);
            b.Some? ==> 0.0 <= b.value.tokens <= rate.capacity as real && b.value.last <= calls[n].at
  {
    var b := Find(After(rate, calls[..n]), calls[n].key);
    StoredBucket(rate, calls[..n], calls[n].key);
    if b.Some? {
      var i :| 0 <= i < n && calls[..n][i] == Call(calls[n].key, b.value.last);
      assert calls[i] == Call(calls[n].key, b.value.last);
    }
  }

  // --- The rate bound --------------------------------------------------------

  /** Every call of `key` among positions `i` up to `j` falls between times `s` and `e`. */
  ghost predicate WithinTimes(calls: seq<Call>, key: string, i: nat, j: nat, s: real, e: real) {
    && j <= |calls|
    && forall k | i <= k < j && calls[k].key == key :: s <= calls[k].at <= e
  }

  /** One decision of a bucket, whatever it held. */
  lemma OneCharge(rate: Rate, b: Option<Bucket>, now: real, s: real)
    requires Steady(rate) && s <= now
    requires b.Some? ==> 0.0 <= b.value.tokens && b.value.last <= now
    ensures var (ok, after) := Decide(rate, b, now);
            0.0 <= after.tokens
            && (if ok then 1.0 else 0.0) + after.tokens <= rate.capacity as real + rate.earn(now - s)
  {
    LevelBounds(rate, b, now);
  }

  /** One more decision after `admitted` admissions. */
  lemma OneMoreCharge(rate: Rate, b: Bucket, now: real, s: real, admitted: real)
    requires Steady(rate) && b.last <= now
    requires admitted + b.tokens <= rate.capacity as real + rate.earn(b.last - s)
    ensures var (ok, after) := Decide(rate, Some(b), now);
            admitted + (if ok then 1.0 else 0.0) + after.tokens <= rate.capacity as real + rate.earn(now - s)
  {
    assert Sums(rate.earn, b.last - s, now - b.last);
    assert (b.last - s) + (now - b.last) == now - s;
  }

  /** The admissions of `key` from position `i` to `j`, plus its tokens left, fit one bucket plus the time since `s`. */
  ghost predicate Accounted(rate: Rate, calls: seq<Call>, key: string, i: nat, j: nat, s: real, e: real)
    requires i <= j <= |calls|
  {
    var b := Find(After(rate, calls[..j]), key);
    && b.Some? && 0.0 <= b.value.tokens && s <= b.value.last <= e
    && Admitted(rate, calls, key, i, j) as real + b.value.tokens <= rate.capacity as real + rate.earn(b.value.last - s)
  }

  lemma AfterOneMore(rate: Rate, calls: seq<Call>, n: nat)
    requires n < |calls|
    ensures var (ok, b) := Decide(rate, Find(After(rate, calls[..n]), calls[n].key), calls[n].at);
            After(rate, calls[..n + 1]) == After(rate, calls[..n])[calls[n].key := b] && Verdict(rate, calls, n) == ok
  {
    assert calls[..n + 1][..n] == calls[..n];
  }

  lemma AccountOwnCall(rate: Rate, calls: seq<Call>, key: string, i: nat, n: nat, s: real, e: real)
    requires Steady(rate) && i <= n < |calls| && ClockForward(calls, key)
    requires calls[n].key == key && s <= calls[n].at <= e
    requires Admitted(rate, calls, key, i, n) == 0 || Accounted(rate, calls, key, i, n, s, e)
    ensures Accounted(rate, calls, key, i, n + 1, s, e)
  {
    AfterOneMore(rate, calls, n);
    NextCallIsLater(rate, calls, n);
    var b := Find(After(rate, calls[..n]), key);
    var admitted := Admitted(rate, calls, key, i, n);
    var (ok, after) := Decide(rate, b, calls[n].at);
    assert Admitted(rate, calls, key, i, n + 1) == admitted + if ok then 1 else 0;
    assert after.last == calls[n].at;
    hide Decide, Admitted, After, Steady, ClockForward, Verdict;
    OneCharge(rate, b, calls[n].at, s);
    if admitted != 0 {
      OneMoreCharge(rate, b.value, calls[n].at, s, admitted as real);
    }
  }

  lemma AccountOtherCall(rate: Rate, calls: seq<Call>, key: string, i: nat, n: nat, s: real, e: real)
    requires i <= n < |calls| && calls[n].key != key
    ensures Admitted(rate, calls, key, i, n + 1) == Admitted(rate, calls, key, i, n)
    ensures Accounted(rate, calls, key, i, n, s, e) ==> Accounted(rate, calls, key, i, n + 1, s, e)
  {
    AfterOneMore(rate, calls, n);
  }

  lemma {:induction false} AdmissionsPlusTokens(rate: Rate, calls: seq<Call>, key: string, i: nat, j: nat, s: real,
                                                e: real)
    requires Steady(rate) && i <= j <= |calls| && ClockForward(calls, key)
    requires WithinTimes(calls, key, i, j, s, e)
    ensures Admitted(rate, calls, key, i, j) == 0 || Accounted(rate, calls, key, i, j, s, e)
    decreases j
  {
    if i < j {
      AdmissionsPlusTokens(rate, calls, key, i, j - 1, s, e);
      if calls[j - 1].key == key {
        AccountOwnCall(rate, calls, key, i, j - 1, s, e);
      } else {
        AccountOtherCall(rate, calls, key, i, j - 1, s, e);
      }
    }
  }

  /** In any contiguous stretch of any run, a key gets at most one bucket plus what the time earns. */
  lemma AdmissionsAreBounded(rate: Rate, calls: seq<Call>, key: string, i: nat, j: nat, s: real, e: real)
    requires Steady(rate) && i <= j <= |calls| && ClockForward(calls, key) && s <= e
    requires WithinTimes(calls, key, i, j, s, e)
    ensures Admitted(rate, calls, key, i, j) as real <= rate.capacity as real + rate.earn(e - s)
  {
    AdmissionsPlusTokens(rate, calls, key, i, j, s, e);
    if Admitted(rate, calls, key, i, j) > 0 {
      var last := Find(After(rate, calls[..j]), key).value.last;
      assert Sums(rate.earn, last - s, e - last);
      assert (last - s) + (e - last) == e - s;
    }
  }

  /**
   * In any contiguous stretch of any run of the limiter, whatever other keys do, a key is admitted at most
   * `capacity + (e - s) * capacity / 60` times between times `s` and `e`.
   */
  lemma LimiterRateIsBounded(capacity: int, calls: seq<Call>, key: string, i: nat, j: nat, s: real, e: real)
    requires capacity >= 1
    requires i <= j <= |calls| && ClockForward(calls, key) && s <= e
    requires WithinTimes(calls, key, i, j, s, e)
    ensures Admitted(RateOf(capacity), calls, key, i, j) as real
              <= capacity as real + (e - s) * (capacity as real / 60.0)
  {
    hide Admitted;
    LimiterIsSteady(capacity);
    LimiterEarnsInProportion(capacity, e - s);
    AdmissionsAreBounded(RateOf(capacity), calls, key, i, j, s, e);
  }

  // --- Calls are denied only where the bound would break ---------------------

  /**
   * The bucket was full when call `i` of the key came, and has since earned for the time and paid for the
   * admissions.
   */
  ghost predicate FullAt(rate: Rate, calls: seq<Call>, key: string, n: nat, b: Bucket, i: int)
    requires n <= |calls|
  {
    && 0 <= i < n && calls[i].key == key
    && b.tokens == rate.capacity as real + rate.earn(b.last - calls[i].at) - Admitted(rate, calls, key, i, n) as real
  }

  ghost predicate WasFull(rate: Rate, calls: seq<Call>, key: string, n: nat)
    requires n <= |calls|
  {
    var b := Find(After(rate, calls[..n]), key);
    b.Some? ==> exists i :: FullAt(rate, calls, key, n, b.value, i)
  }

  lemma OwnCallCounts(rate: Rate, calls: seq<Call>, n: nat, i: nat)
    requires i <= n < |calls|
    ensures Admitted(rate, calls, calls[n].key, i, n + 1)
            == Admitted(rate, calls, calls[n].key, i, n) + if Verdict(rate, calls, n) then 1 else 0
  {
  }

  lemma FullBefore(rate: Rate, calls: seq<Call>, n: nat, b: Bucket, i: nat)
    requires Steady(rate) && n < |calls| && FullAt(rate, calls, calls[n].key, n, b, i)
    ensures var key, now := calls[n].key, calls[n].at;
            b.tokens + rate.earn(now - b.last)
            == rate.capacity as real + rate.earn(now - calls[i].at) - Admitted(rate, calls, key, i, n) as real
  {
    hide Admitted;
    assert Sums(rate.earn, b.last - calls[i].at, calls[n].at - b.last);
    assert (b.last - calls[i].at) + (calls[n].at - b.last) == calls[n].at - calls[i].at;
  }

  lemma OwnCallKeepsFull(rate: Rate, calls: seq<Call>, n: nat)
    requires Steady(rate) && n < |calls| && WasFull(rate, calls, calls[n].key, n)
    ensures WasFull(rate, calls, calls[n].key, n + 1)
  {
    var key, now := calls[n].key, calls[n].at;
    var b := Find(After(rate, calls[..n]), key);
    AfterOneMore(rate, calls, n);
    var after := Decide(rate, b, now).1;
    assert Find(After(rate, calls[..n + 1]), key) == Some(after);
    OwnCallCounts(rate, calls, n, n);
    assert Admitted(rate, calls, key, n, n) == 0 && now - now == 0.0;
    assert rate.earn(0.0) == 0.0;
    hide Admitted, After, Find, Verdict, WasFull, Sums, Steady;
    if Level(rate, b, now) == rate.capacity as real {
      assert FullAt(rate, calls, key, n + 1, after, n);
    } else {
      var i :| FullAt(rate, calls, key, n, b.value, i);
      FullBefore(rate, calls, n, b.value, i);
      OwnCallCounts(rate, calls, n, i);
      assert FullAt(rate, calls, key, n + 1, after, i);
    }
  }

  /** Whatever a bucket holds, it was full at some call of its key. */
  lemma {:induction false} BucketWasFull(rate: Rate, calls: seq<Call>, key: string, n: nat)
    requires Steady(rate) && n <= |calls|
    ensures WasFull(rate, calls, key, n)
  {
    if n == 0 {
      assert calls[..0] == [];
    } else {
      BucketWasFull(rate, calls, key, n - 1);
      if calls[n - 1].key == key {
        OwnCallKeepsFull(rate, calls, n - 1);
      } else {
        AfterOneMore(rate, calls, n - 1);
        var b := Find(After(rate, calls[..n]), key);
        if b.Some? {
          var i :| FullAt(rate, calls, key, n - 1, b.value, i);
          assert FullAt(rate, calls, key, n, b.value, i);
        }
      }
    }
  }

  /** Admitting call `n` would break the bound on the stretch from call `i`. */
  ghost predicate WouldExceed(rate: Rate, calls: seq<Call>, i: int, n: nat)
    requires n < |calls|
  {
    && 0 <= i <= n && calls[i].key == calls[n].key
    && Admitted(rate, calls, calls[n].key, i, n) as real + 1.0
         > rate.capacity as real + rate.earn(calls[n].at - calls[i].at)
  }

  lemma AdmittedFits(rate: Rate, calls: seq<Call>, i: nat, n: nat)
    requires Steady(rate) && i <= n < |calls| && ClockForward(calls, calls[n].key)
    requires calls[i].key == calls[n].key && Verdict(rate, calls, n)
    ensures !WouldExceed(rate, calls, i, n)
  {
    OwnCallCounts(rate, calls, n, i);
    AdmissionsAreBounded(rate, calls, calls[n].key, i, n + 1, calls[i].at, calls[n].at);
  }

  lemma DeniedExceeds(rate: Rate, calls: seq<Call>, n: nat)
    requires Steady(rate) && n < |calls| && !Verdict(rate, calls, n)
    ensures exists i :: WouldExceed(rate, calls, i, n)
  {
    BucketWasFull(rate, calls, calls[n].key, n);
    var b := Find(After(rate, calls[..n]), calls[n].key);
    hide Admitted, After, Find;
    var i :| FullAt(rate, calls, calls[n].key, n, b.value, i);
    FullBefore(rate, calls, n, b.value, i);
    assert WouldExceed(rate, calls, i, n);
  }

  /** A call is denied if and only if admitting it would give its key more than a bucket and the time earn. */
  lemma DeniedExactlyWhenItWouldExceed(rate: Rate, calls: seq<Call>, n: nat)
    requires Steady(rate) && n < |calls| && ClockForward(calls, calls[n].key)
    ensures !Verdict(rate, calls, n) <==> exists i :: WouldExceed(rate, calls, i, n)
  {
    if Verdict(rate, calls, n) {
      forall i | WouldExceed(rate, calls, i, n) ensures false {
        AdmittedFits(rate, calls, i, n);
      }
    } else {
      DeniedExceeds(rate, calls, n);
    }
  }

  // --- The bound is reached, and idleness is rewarded ------------------------

  /** Of any number of simultaneous first calls, exactly the first `capacity` are admitted. */
  lemma {:induction false} BurstIsExactlyCapacity(rate: Rate, calls: seq<Call>, key: string, now: real, k: nat)
    requires Steady(rate) && k <= |calls|
    requires forall i | 0 <= i < |calls| :: calls[i] == Call(key, now)
    ensures k < |calls| ==> (Verdict(rate, calls, k) <==> k < rate.capacity)
    ensures k > 0 ==> (Find(After(rate, calls[..k]), key)
                         == Some(Bucket(if k <= rate.capacity then (rate.capacity - k) as real else 0.0, now)))
  {
    if k == 0 {
      assert calls[..0] == [];
    } else {
      BurstIsExactlyCapacity(rate, calls, key, now, k - 1);
      assert calls[..k][..k - 1] == calls[..k - 1];
    }
  }

  /** A key that has been idle long enough to earn one token is admitted. */
  lemma IdleKeyIsAdmitted(rate: Rate, calls: seq<Call>, n: nat)
    requires Steady(rate) && n < |calls| && ClockForward(calls, calls[n].key)
    requires forall i | 0 <= i < n && calls[i].key == calls[n].key ::
               rate.earn(calls[n].at - calls[i].at) >= 1.0
    ensures Verdict(rate, calls, n)
  {
    var b := Find(After(rate, calls[..n]), calls[n].key);
    StoredBucket(rate, calls[..n], calls[n].key);
    if b.Some? {
      var i :| 0 <= i < n && calls[..n][i] == Call(calls[n].key, b.value.last);
      assert calls[i] == Call(calls[n].key, b.value.last);
    }
  }

  // --- Keys do not affect each other -----------------------------------------

  function OnlyKey(calls: seq<Call>, key: string): seq<Call> {
    if |calls| == 0 then []
    else OnlyKey(calls[..|calls| - 1], key)
         + if calls[|calls| - 1].key == key then [calls[|calls| - 1]] else []
  }

  lemma {:induction false} BucketDependsOnItsKey(rate: Rate, calls: seq<Call>, key: string)
    ensures Find(After(rate, calls), key) == Find(After(rate, OnlyKey(calls, key)), key)
  {
    if |calls| != 0 {
      var n := |calls| - 1;
      BucketDependsOnItsKey(rate, calls[..n], key);
      var mine := OnlyKey(calls[..n], key);
      if calls[n].key == key {
        assert (mine + [calls[n]])[..|mine|] == mine;
      } else {
        assert mine + [] == mine;
      }
    }
  }

  /** A call is told what it would be told if its key were the only one. */
  lemma KeysAreIndependent(rate: Rate, calls: seq<Call>, k: nat)
    requires k < |calls|
    ensures var mine := OnlyKey(calls[..k + 1], calls[k].key);
            |mine| > 0 && Verdict(rate, calls, k) == Verdict(rate, mine, |mine| - 1)
  {
    var key := calls[k].key;
    assert calls[..k + 1][..k] == calls[..k];
    var before := OnlyKey(calls[..k], key);
    var mine := OnlyKey(calls[..k + 1], key);
    assert mine == before + [calls[k]];
    assert mine[..|mine| - 1] == before;
    BucketDependsOnItsKey(rate, calls[..k], key);
  }

  // --- Denied calls leave no trace -------------------------------------------

  /** The run with its denied calls deleted. */
  function OnlyAdmitted(rate: Rate, calls: seq<Call>): seq<Call> {
    if |calls| == 0 then []
    else OnlyAdmitted(rate, calls[..|calls| - 1])
         + if Verdict(rate, calls, |calls| - 1) then [calls[|calls| - 1]] else []
  }

  /** From `from` on, both buckets hold the same number of tokens at every time. */
  ghost predicate SameFrom(rate: Rate, a: Option<Bucket>, b: Option<Bucket>, from: real) {
    a.Some? == b.Some? && forall t | t >= from :: Level(rate, a, t) == Level(rate, b, t)
  }

  /** The stored time of a bucket, or the beginning for an unknown key. */
  ghost predicate Indistinguishable(rate: Rate, a: Option<Bucket>, b: Option<Bucket>) {
    if a.None? then b.None? else SameFrom(rate, a, b, a.value.last)
  }

  lemma DecideAlike(rate: Rate, a: Option<Bucket>, b: Option<Bucket>, now: real)
    requires Steady(rate) && Indistinguishable(rate, a, b)
    requires a.Some? ==> a.value.last <= now
    ensures Decide(rate, a, now) == Decide(rate, b, now)
    ensures !Decide(rate, a, now).0 ==> Indistinguishable(rate, Some(Decide(rate, a, now).1), b)
  {
    if a.Some? {
      assert Level(rate, a, now) == Level(rate, b, now);
      if !Decide(rate, a, now).0 {
        var a' := Some(Decide(rate, a, now).1);
        forall t | t >= now ensures Level(rate, a', t) == Level(rate, b, t) {
          LevelComposes(rate, a, now, t);
        }
      }
    }
  }

  lemma {:induction false} DeletingDeniedKeepsBuckets(rate: Rate, calls: seq<Call>, key: string)
    requires Steady(rate) && forall k :: ClockForward(calls, k)
    ensures Indistinguishable(rate, Find(After(rate, calls), key), Find(After(rate, OnlyAdmitted(rate, calls)), key))
  {
    if |calls| != 0 {
      var n := |calls| - 1;
      var front, c := calls[..n], calls[n];
      forall k ensures ClockForward(front, k) {
        assert ClockForward(calls, k);
      }
      DeletingDeniedKeepsBuckets(rate, front, key);
      var kept := OnlyAdmitted(rate, front);
      if c.key == key {
        assert ClockForward(calls, key);
        NextCallIsLater(rate, calls, n);
        DecideAlike(rate, Find(After(rate, front), key), Find(After(rate, kept), key), c.at);
      }
      if Verdict(rate, calls, n) {
        assert (kept + [c])[..|kept|] == kept;
      } else {
        assert kept + [] == kept;
      }
    }
  }

  /** Deleting every denied call changes no other verdict: all that remain are still admitted. */
  lemma {:induction false} DeletingDeniedKeepsVerdicts(rate: Rate, calls: seq<Call>, k: nat)
    requires Steady(rate) && forall key :: ClockForward(calls, key)
    requires k < |OnlyAdmitted(rate, calls)|
    ensures Verdict(rate, OnlyAdmitted(rate, calls), k)
  {
    var n := |calls| - 1;
    var front, c := calls[..n], calls[n];
    forall key ensures ClockForward(front, key) {
      assert ClockForward(calls, key);
    }
    var kept := OnlyAdmitted(rate, front);
    var all := OnlyAdmitted(rate, calls);
    if k < |kept| {
      DeletingDeniedKeepsVerdicts(rate, front, k);
      assert all[..k] == kept[..k] && all[k] == kept[k];
    } else {
      assert all == kept + [c] && all[..k] == kept;
      assert ClockForward(calls, c.key);
      DeletingDeniedKeepsBuckets(rate, front, c.key);
      NextCallIsLater(rate, calls, n);
      DecideAlike(rate, Find(After(rate, front), c.key), Find(After(rate, kept), c.key), c.at);
    }
  }
}
