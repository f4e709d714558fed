/** Throttling of login attempts: one last failure per key, compared as a rate, and a cleaner beside it. */
module Throttle {
  import opened Domain

  // ---- Rates -------------------------------------------------------------------------------

  /** Doubles as they come out of a division of non-negative numbers, without rounding. */
  datatype Rate = Finite(value: real) | Infinite | Undefined

  function Divide(a: real, b: real): Rate
    requires a >= 0.0
  {
    if b != 0.0 then Finite(a / b) else if a > 0.0 then Infinite else Undefined
  }

  predicate Less(x: Rate, y: Rate) {
    match (x, y)
    case (Finite(a), Finite(b)) => a < b
    case (Finite(_), Infinite) => true
    case _ => false
  }

  function SubmissionRate(a: int, b: int): Rate {
    Divide(1000.0, (a - b) as real)
  }

  function ThresholdRate(threshold: nat, range: nat): Rate {
    Divide(threshold as real, range as real)
  }

  predicate Exceeds(rate: Rate, last: map<string, int>, key: string, now: int) {
    key in last && Less(rate, SubmissionRate(now, last[key]))
  }

  /** The entries that the cleaner leaves. */
  function Swept(rate: Rate, last: map<string, int>, now: int): map<string, int> {
    map key | key in last && !Less(SubmissionRate(now, last[key]), rate) :: last[key]
  }

  /** Attempts begin and end, and the cleaner runs, at any points of a run. */
  datatype Event =
    | Begin(key: string, at: int)
    | End(key: string, at: int, failed: bool)
    | Sweep(at: int)

  /** The map after one event, with the cleaner at work or not. */
  function After(rate: Rate, last: map<string, int>, event: Event, cleaning: bool): map<string, int> {
    match event
    case Begin(_, _) => last
    case End(key, at, failed) => if failed then last[key := at] else last
    case Sweep(at) => if cleaning then Swept(rate, last, at) else last
  }

  // ---- The interceptor -----------------------------------------------------------------------

  const SUCCESS := "success"

  /** `event` is the identifier of the current event of the login flow, if there is one. */
  datatype HttpRequest = HttpRequest(verb: string, key: string, event: Option<string>)

  /** A POST that ended the login flow in an event other than success. */
  predicate Failed(request: HttpRequest) {
    request.verb == "POST" && request.event.Some? && request.event.value != SUCCESS
  }

  class ThrottledSubmissionHandler {
    var ipMap: map<string, int>
    var failureThreshold: nat
    var failureRangeInSeconds: nat
    var thresholdRate: Rate

    constructor ()
      ensures ipMap == map[] && failureThreshold == 100 && failureRangeInSeconds == 60
    {
      ipMap := map[];
      failureThreshold := 100;
      failureRangeInSeconds := 60;
      thresholdRate := Finite(0.0);
    }

    method AfterPropertiesSet()
      modifies this`thresholdRate
      ensures thresholdRate == ThresholdRate(failureThreshold, failureRangeInSeconds)
    {
      thresholdRate := Divide(failureThreshold as real, failureRangeInSeconds as real);
    }

    /** Only POSTs are throttled. */
    method PreHandle(request: HttpRequest, now: int) returns (proceed: bool)
      ensures proceed <==> !(request.verb == "POST" && Exceeds(thresholdRate, ipMap, request.key, now))
    {
      if request.verb != "POST" {
        return true;
      }
      if request.key !in ipMap {
        return true;
      }
      return !Less(thresholdRate, SubmissionRate(now, ipMap[request.key]));
    }

    method PostHandle(request: HttpRequest, now: int)
      modifies this`ipMap
      ensures ipMap == After(thresholdRate, old(ipMap), End(request.key, now, Failed(request)), true)
      ensures ipMap ==
        if request.verb == "POST" && request.event.Some? && request.event.value != "success" then old(ipMap)[request.key := now]
        else old(ipMap)
    {
      if request.verb != "POST" {
        return;
      }
      if request.event.None? {
        return;
      }
      if request.event.value == SUCCESS {
        return;
      }
      ipMap := ipMap[request.key := now];
    }

    method DecrementCounts(now: int)
      modifies this`ipMap
      ensures ipMap == After(thresholdRate, old(ipMap), Sweep(now), true)
    {
      var rest := ipMap.Keys;
      while rest != {}
        invariant rest <= ipMap.Keys <= old(ipMap).Keys
        invariant forall key :: key in ipMap ==> ipMap[key] == old(ipMap)[key]
        invariant forall key :: key in old(ipMap) && key !in rest ==>
          (key in ipMap <==> !Less(SubmissionRate(now, old(ipMap)[key]), thresholdRate))
        decreases rest
      {
        var key :| key in rest;
        rest := rest - {key};
        if Less(SubmissionRate(now, ipMap[key]), thresholdRate) {
          ipMap := ipMap - {key};
        }
      }
    }
  }

  // ---- What the comparison of rates means ------------------------------------------------------

  lemma DivideCompare(a: real, b: real, c: real, d: real)
    requires b > 0.0 && d > 0.0
    ensures a / b < c / d <==> a * d < c * b
  {
    var x, y := a / b, c / d;
    assert x * b == a && y * d == c;
    assert a * d == x * (b * d) && c * b == y * (b * d);
    var p := b * d;
    assert p > 0.0;
    if x < y {
      assert (y - x) * p > 0.0;
    } else {
      assert (x - y) * p >= 0.0;
    }
  }

  /** A positive range: throttled exactly while the last failure is closer than range over threshold. */
  lemma ExceedsIff(threshold: nat, range: nat, last: map<string, int>, key: string, now: int)
    requires range > 0 && (key in last ==> last[key] <= now)
    ensures Exceeds(ThresholdRate(threshold, range), last, key, now)
      <==> key in last && threshold * (now - last[key]) < 1000 * range
  {
    if key in last && last[key] < now {
      var d := now - last[key];
      DivideCompare(threshold as real, range as real, 1000.0, d as real);
      assert threshold as real * d as real == (threshold * d) as real;
      assert 1000.0 * range as real == (1000 * range) as real;
    }
  }

  /** A range of zero switches throttling off, whatever the threshold. */
  lemma ZeroRangeNeverThrottles(threshold: nat, last: map<string, int>, key: string, now: int)
    ensures !Exceeds(ThresholdRate(threshold, 0), last, key, now)
  {
  }

  /** Once the cleaner may drop an entry, it never throttles again. */
  lemma SweptNeverExceeds(threshold: nat, range: nat, last: int, now: int, later: int)
    requires last <= now <= later
    requires Less(SubmissionRate(now, last), ThresholdRate(threshold, range))
    ensures !Less(ThresholdRate(threshold, range), SubmissionRate(later, last))
  {
    if range > 0 {
      var d, e := (now - last) as real, (later - last) as real;
      var f, r := threshold as real, range as real;
      DivideCompare(1000.0, d, f, r);
      DivideCompare(f, r, 1000.0, e);
      assert f * d <= f * e;
    }
  }

  /** The cleaner drops exactly the entries that are older than range over threshold; none if the threshold is zero. */
  lemma SweptIff(threshold: nat, range: nat, last: map<string, int>, key: string, now: int)
    requires key in last && last[key] <= now
    ensures var left := Swept(ThresholdRate(threshold, range), last, now);
      && (key in left <==> threshold * (now - last[key]) <= 1000 * range)
      && (key in left ==> left[key] == last[key])
  {
    var d := now - last[key];
    if d > 0 && range > 0 {
      DivideCompare(1000.0, d as real, threshold as real, range as real);
      assert threshold as real * d as real == (threshold * d) as real;
      assert 1000.0 * range as real == (1000 * range) as real;
    }
  }

  // ---- Runs --------------------------------------------------------------------------------------

  datatype Limits = Limits(threshold: nat, range: nat)
  {
    function Rate(): Rate {
      ThresholdRate(threshold, range)
    }
  }

  predicate InOrder(es: seq<Event>) {
    forall i, j :: 0 <= i < j < |es| ==> es[i].at <= es[j].at
  }

  /** The map after the first `k` events, with the cleaner running or not. */
  function MapAt(limits: Limits, es: seq<Event>, k: nat, cleaning: bool): map<string, int>
    requires k <= |es|
  {
    if k == 0 then map[]
    else After(limits.Rate(), MapAt(limits, es, k - 1, cleaning), es[k - 1], cleaning)
  }

  lemma {:induction false} EntriesAreOld(limits: Limits, es: seq<Event>, k: nat, cleaning: bool, now: int)
    requires InOrder(es) && k <= |es| && (k > 0 ==> es[k - 1].at <= now)
    ensures forall key :: key in MapAt(limits, es, k, cleaning) ==> MapAt(limits, es, k, cleaning)[key] <= now
  {
    if k > 0 {
      EntriesAreOld(limits, es, k - 1, cleaning, es[k - 1].at);
    }
  }

  /** The cleaned map is part of the other; what is missing does not throttle from `now` on. */
  ghost predicate Equivalent(limits: Limits, cleaned: map<string, int>, full: map<string, int>, now: int) {
    && cleaned.Keys <= full.Keys
    && (forall key :: key in cleaned ==> cleaned[key] == full[key])
    && (forall key, later :: key in full && key !in cleaned && now <= later ==>
          !Less(limits.Rate(), SubmissionRate(later, full[key])))
  }

  lemma {:induction false} CleaningKeepsEquivalence(limits: Limits, es: seq<Event>, k: nat, now: int)
    requires InOrder(es) && k <= |es| && (k > 0 ==> es[k - 1].at <= now)
    ensures Equivalent(limits, MapAt(limits, es, k, true), MapAt(limits, es, k, false), now)
  {
    if k > 0 {
      var at := es[k - 1].at;
      CleaningKeepsEquivalence(limits, es, k - 1, at);
      EntriesAreOld(limits, es, k - 1, true, at);
      if es[k - 1].Sweep? {
        var before, full := MapAt(limits, es, k - 1, true), MapAt(limits, es, k - 1, false);
        forall key, later | key in full && key !in Swept(limits.Rate(), before, at) && now <= later
          ensures !Less(limits.Rate(), SubmissionRate(later, full[key]))
        {
          if key in before {
            SweptNeverExceeds(limits.threshold, limits.range, before[key], at, later);
          }
        }
      }
    }
  }

  /** Whenever the cleaner runs, no present or future answer depends on it. */
  lemma {:induction false} CleaningIsInvisible(limits: Limits, es: seq<Event>, k: nat, key: string, now: int)
    requires InOrder(es) && k <= |es| && (k > 0 ==> es[k - 1].at <= now)
    ensures Exceeds(limits.Rate(), MapAt(limits, es, k, true), key, now)
      <==> Exceeds(limits.Rate(), MapAt(limits, es, k, false), key, now)
  {
    CleaningKeepsEquivalence(limits, es, k, now);
  }

  // ---- The bound ---------------------------------------------------------------------------------

  /** Event `j` records a failure for `key`. */
  predicate Fails(es: seq<Event>, j: nat, key: string)
    requires j < |es|
  {
    es[j].End? && es[j].key == key && es[j].failed
  }

  /** If event `j` ends an attempt, `begun[j]` is the event that began it, and it was let through. */
  predicate LetThrough(limits: Limits, es: seq<Event>, begun: seq<nat>, j: nat)
    requires j < |es| == |begun|
  {
    es[j].End? ==>
      var i := begun[j];
      i < j && es[i].Begin? && es[i].key == es[j].key
      && !Exceeds(limits.Rate(), MapAt(limits, es, i, true), es[j].key, es[i].at)
  }

  /** Attempts end only if they were let through at their beginning. */
  ghost predicate Disciplined(limits: Limits, es: seq<Event>, begun: seq<nat>) {
    |begun| == |es| && forall j {:trigger LetThrough(limits, es, begun, j)} :: 0 <= j < |es| ==> LetThrough(limits, es, begun, j)
  }

  /** The failing attempts on `key` that are under way just before event `k`, by their last events. */
  function InFlight(es: seq<Event>, begun: seq<nat>, k: nat, key: string): set<nat>
    requires |begun| == |es|
  {
    set j: nat | k <= j < |es| && Fails(es, j, key) && begun[j] < k
  }

  /** At most `m` failing attempts on `key` are under way at any time; attempts that do not fail may be more. */
  ghost predicate AtMostInFlight(es: seq<Event>, begun: seq<nat>, key: string, m: nat)
    requires |begun| == |es|
  {
    forall k: nat {:trigger InFlight(es, begun, k, key)} :: k <= |es| ==> |InFlight(es, begun, k, key)| <= m
  }

  /** The events among the first `k` that record a failure for `key`. */
  function Positions(es: seq<Event>, k: nat, key: string): seq<nat>
    requires k <= |es|
  {
    if k == 0 then [] else Positions(es, k - 1, key) + if Fails(es, k - 1, key) then [k - 1] else []
  }

  ghost predicate Ascend(es: seq<Event>, k: nat, key: string, ps: seq<nat>)
    requires k <= |es|
  {
    && (forall i :: 0 <= i < |ps| ==> ps[i] < k && Fails(es, ps[i], key))
    && (forall i, j :: 0 <= i < j < |ps| ==> ps[i] < ps[j])
  }

  lemma {:induction false} PositionsAscend(es: seq<Event>, k: nat, key: string)
    requires k <= |es|
    ensures Ascend(es, k, key, Positions(es, k, key))
  {
    if k > 0 {
      var init := Positions(es, k - 1, key);
      PositionsAscend(es, k - 1, key);
      assert init + [] == init;
    }
  }

  /** The times of the failures recorded for `key` in the first `k` events. */
  function Failures(es: seq<Event>, k: nat, key: string): seq<int>
    requires k <= |es|
  {
    if k == 0 then [] else Failures(es, k - 1, key) + if Fails(es, k - 1, key) then [es[k - 1].at] else []
  }

  lemma {:induction false} FailuresAtPositions(es: seq<Event>, k: nat, key: string)
    requires k <= |es|
    ensures var ps, ts := Positions(es, k, key), Failures(es, k, key);
      |ts| == |ps| && forall i :: 0 <= i < |ts| ==> ps[i] < |es| && ts[i] == es[ps[i]].at
  {
    if k > 0 {
      FailuresAtPositions(es, k - 1, key);
    }
  }

  /** From `a` to `b` it takes at least range over threshold. */
  predicate FarEnough(limits: Limits, a: int, b: int) {
    a <= b && 1000 * limits.range <= limits.threshold * (b - a)
  }

  function CeilingOf(a: nat, b: nat): (c: nat)
    requires b > 0
  {
    (a + b - 1) / b
  }

  /** Range over threshold, in whole milliseconds. */
  function Gap(limits: Limits): nat
    requires limits.threshold > 0
  {
    CeilingOf(1000 * limits.range, limits.threshold)
  }

  /** How many moments that far apart fit into a window; at most `threshold`. */
  function PerWindow(limits: Limits): nat
    requires limits.range > 0
  {
    if limits.threshold == 0 then 1
    else
      CeilingOf(1000 * limits.range, Gap(limits))
  }

  lemma CeilingIsLeast(a: nat, b: nat, d: nat)
    requires b > 0
    ensures a <= b * d <==> CeilingOf(a, b) <= d
  {
    var c: int := CeilingOf(a, b);
    if c <= d {
      Widen(b, c, d);
    } else if a > 0 {
      Widen(b, d, c - 1);
    }
  }

  /** Without the cleaner, the map holds the last failure. */
  lemma {:induction false} MapHoldsLastFailure(limits: Limits, es: seq<Event>, k: nat, key: string)
    requires k <= |es|
    ensures var fs, m := Failures(es, k, key), MapAt(limits, es, k, false);
      (key in m <==> fs != []) && (fs != [] ==> m[key] == fs[|fs| - 1])
  {
    if k > 0 {
      MapHoldsLastFailure(limits, es, k - 1, key);
    }
  }

  lemma {:induction false} LastFailureIsLater(es: seq<Event>, k: nat, key: string, j: nat)
    requires InOrder(es) && j < k <= |es| && Fails(es, j, key)
    ensures var fs := Failures(es, k, key); fs != [] && es[j].at <= fs[|fs| - 1]
    decreases k
  {
    if j < k - 1 {
      LastFailureIsLater(es, k - 1, key, j);
    }
  }

  /** An attempt that began after a failure was recorded, and was let through, fails far enough from it. */
  lemma LaterAttemptIsFar(limits: Limits, es: seq<Event>, begun: seq<nat>, j: nat, q: nat, key: string)
    requires limits.range > 0 && InOrder(es) && Disciplined(limits, es, begun)
    requires j < |es| && q < |es| && Fails(es, j, key) && Fails(es, q, key) && j < begun[q]
    ensures FarEnough(limits, es[j].at, es[q].at)
  {
    var i := begun[q];
    assert LetThrough(limits, es, begun, q);
    LastFailureIsLater(es, i, key, j);
    MapHoldsLastFailure(limits, es, i, key);
    CleaningIsInvisible(limits, es, i, key, es[i].at);
    EntriesAreOld(limits, es, i, false, es[i].at);
    ExceedsIff(limits.threshold, limits.range, MapAt(limits, es, i, false), key, es[i].at);
    var last := MapAt(limits, es, i, false)[key];
    assert es[i].at <= es[q].at;
    Widen(limits.threshold, es[i].at - last, es[q].at - es[j].at);
  }

  lemma Widen(f: nat, a: int, b: int)
    requires a <= b
    ensures f * a <= f * b
  {
  }

  lemma {:induction false} SliceHasSize(ps: seq<nat>, lo: nat, hi: nat)
    requires lo <= hi <= |ps| && forall i, j :: 0 <= i < j < |ps| ==> ps[i] < ps[j]
    ensures |(set i | lo <= i < hi :: ps[i])| == hi - lo
    decreases hi
  {
    var all := (set i | lo <= i < hi :: ps[i]);
    if lo < hi {
      SliceHasSize(ps, lo, hi - 1);
      var fewer := (set i | lo <= i < hi - 1 :: ps[i]);
      assert all == fewer + {ps[hi - 1]};
      assert ps[hi - 1] !in fewer;
    } else {
      assert all == {};
    }
  }

  lemma SubsetIsSmaller(a: set<nat>, b: set<nat>)
    requires a <= b
    ensures |a| <= |b|
  {
    assert b == a + (b - a);
  }

  /** Of the m failures after the p-th one, some attempt began only after that one was recorded. */
  lemma OneBeganLater(limits: Limits, es: seq<Event>, begun: seq<nat>, k: nat, key: string, m: nat, p: nat) returns (q: nat)
    requires Disciplined(limits, es, begun) && AtMostInFlight(es, begun, key, m)
    requires k <= |es| && p + m < |Positions(es, k, key)|
    ensures var ps := Positions(es, k, key);
      p < q <= p + m && ps[q] < |es| && ps[p] < begun[ps[q]]
  {
    var ps := Positions(es, k, key);
    PositionsAscend(es, k, key);
    if !(exists i :: p < i <= p + m && ps[p] < begun[ps[i]]) {
      var late := (set i | p <= i < p + m + 1 :: ps[i]);
      forall i | p <= i <= p + m ensures ps[i] in InFlight(es, begun, ps[p], key) {
        assert LetThrough(limits, es, begun, ps[i]);
        assert begun[ps[i]] <= ps[p];
      }
      SliceHasSize(ps, p, p + m + 1);
      SubsetIsSmaller(late, InFlight(es, begun, ps[p], key));
    }
    q :| p < q <= p + m && ps[p] < begun[ps[q]];
  }

  // ---- Counting in a window ------------------------------------------------------------------------

  ghost predicate Ascending(times: seq<int>) {
    forall i, j :: 0 <= i < j < |times| ==> times[i] <= times[j]
  }

  predicate SpacedAt(limits: Limits, times: seq<int>, m: nat, i: nat)
    requires i + m < |times|
  {
    FarEnough(limits, times[i], times[i + m])
  }

  /** Failures that are `m` apart in the list are at least range over threshold apart in time. */
  ghost predicate Spaced(limits: Limits, times: seq<int>, m: nat) {
    && Ascending(times)
    && forall i: nat {:trigger SpacedAt(limits, times, m, i)} :: i + m < |times| ==> SpacedAt(limits, times, m, i)
  }

  lemma FailuresAreSpaced(limits: Limits, es: seq<Event>, begun: seq<nat>, k: nat, key: string, m: nat)
    requires limits.range > 0 && InOrder(es) && Disciplined(limits, es, begun) && k <= |es|
    requires AtMostInFlight(es, begun, key, m)
    ensures Spaced(limits, Failures(es, k, key), m)
  {
    var ps, ts := Positions(es, k, key), Failures(es, k, key);
    PositionsAscend(es, k, key);
    FailuresAtPositions(es, k, key);
    forall i: nat | i + m < |ts| ensures SpacedAt(limits, ts, m, i) {
      var q := OneBeganLater(limits, es, begun, k, key, m, i);
      LaterAttemptIsFar(limits, es, begun, ps[i], ps[q], key);
      assert ps[q] <= ps[i + m] && es[ps[q]].at <= es[ps[i + m]].at;
      Widen(limits.threshold, es[ps[q]].at - es[ps[i]].at, es[ps[i + m]].at - es[ps[i]].at);
    }
  }

  function CountIn(times: seq<int>, from: int, to: int): nat {
    if times == [] then 0 else (if from <= times[0] < to then 1 else 0) + CountIn(times[1..], from, to)
  }

  lemma {:induction false} CountAtMost(times: seq<int>, from: int, to: int)
    ensures CountIn(times, from, to) <= |times|
  {
    if times != [] {
      CountAtMost(times[1..], from, to);
    }
  }

  lemma {:induction false} CountConcat(a: seq<int>, b: seq<int>, from: int, to: int)
    ensures CountIn(a + b, from, to) == CountIn(a, from, to) + CountIn(b, from, to)
    decreases |a|
  {
    if a == [] {
      assert a + b == b;
    } else {
      assert (a + b)[1..] == a[1..] + b;
      CountConcat(a[1..], b, from, to);
    }
  }

  lemma {:induction false} NoneFrom(times: seq<int>, from: int, to: int)
    requires forall t :: t in times ==> to <= t
    ensures CountIn(times, from, to) == 0
  {
    if times != [] {
      assert times[0] in times;
      assert forall t :: t in times[1..] ==> t in times;
      NoneFrom(times[1..], from, to);
    }
  }

  lemma FarIffGap(limits: Limits, a: int, b: int)
    requires limits.threshold > 0
    ensures FarEnough(limits, a, b) <==> a <= b && Gap(limits) <= b - a
  {
    if a <= b {
      CeilingIsLeast(1000 * limits.range, limits.threshold, b - a);
    }
  }

  /** In a window there is room for at most `threshold` moments, and for that many if the gap is a whole number. */
  lemma PerWindowIs(limits: Limits)
    requires limits.range > 0 && limits.threshold > 0
    ensures 0 < PerWindow(limits) <= limits.threshold
    ensures (PerWindow(limits) - 1) * Gap(limits) < 1000 * limits.range <= PerWindow(limits) * Gap(limits)
    ensures limits.threshold * Gap(limits) == 1000 * limits.range ==> PerWindow(limits) == limits.threshold
  {
    var w, f, g := 1000 * limits.range, limits.threshold, Gap(limits);
    CeilingIsLeast(w, g, f);
    CeilingIsLeast(w, g, f - 1);
    var n: int := PerWindow(limits);
    assert g * (n - 1) == (n - 1) * g && g * n == n * g;
    assert g * f == f * g && g * (f - 1) == g * f - g;
  }

  /** n rounds of `m` failures take at least n gaps. */
  lemma {:induction false} RoundsApart(limits: Limits, times: seq<int>, m: nat, n: nat)
    requires limits.threshold > 0 && Spaced(limits, times, m) && n * m < |times|
    ensures n * Gap(limits) <= times[n * m] - times[0]
    decreases n
  {
    if n > 0 {
      var i := (n - 1) * m;
      assert n * m == i + m;
      RoundsApart(limits, times, m, n - 1);
      assert SpacedAt(limits, times, m, i);
      FarIffGap(limits, times[i], times[i + m]);
      assert n * Gap(limits) == (n - 1) * Gap(limits) + Gap(limits);
    }
  }

  lemma SpacedTail(limits: Limits, times: seq<int>, m: nat)
    requires Spaced(limits, times, m) && times != []
    ensures Spaced(limits, times[1..], m)
  {
    forall i: nat | i + m < |times[1..]| ensures SpacedAt(limits, times[1..], m, i) {
      assert SpacedAt(limits, times, m, i + 1);
    }
  }

  lemma {:induction false} WindowCount(limits: Limits, times: seq<int>, m: nat, from: int)
    requires limits.range > 0 && limits.threshold > 0 && Spaced(limits, times, m)
    ensures CountIn(times, from, from + 1000 * limits.range) <= PerWindow(limits) * m
    decreases |times|
  {
    var to, n := from + 1000 * limits.range, PerWindow(limits) * m;
    if |times| <= n {
      CountAtMost(times, from, to);
    } else if times[0] < from {
      SpacedTail(limits, times, m);
      WindowCount(limits, times[1..], m, from);
    } else {
      RoundsApart(limits, times, m, PerWindow(limits));
      PerWindowIs(limits);
      assert times == times[..n] + times[n..];
      CountConcat(times[..n], times[n..], from, to);
      CountAtMost(times[..n], from, to);
      NoneFrom(times[n..], from, to);
    }
  }

  /**
   * With at most `m` failing attempts on a key under way at any time, any half-open window of
   * `range` seconds holds at most `m` times `PerWindow` recorded failures of the key, wherever
   * the cleaner runs; so at most `m` times `threshold`, or `m` if that is zero.
   */
  lemma OverlapBoundsFailures(limits: Limits, es: seq<Event>, begun: seq<nat>, k: nat, key: string, m: nat, from: int)
    requires limits.range > 0 && InOrder(es) && Disciplined(limits, es, begun) && k <= |es|
    requires AtMostInFlight(es, begun, key, m)
    ensures CountIn(Failures(es, k, key), from, from + 1000 * limits.range) <= PerWindow(limits) * m
    ensures PerWindow(limits) <= if limits.threshold == 0 then 1 else limits.threshold
  {
    var times := Failures(es, k, key);
    FailuresAreSpaced(limits, es, begun, k, key, m);
    if limits.threshold > 0 {
      WindowCount(limits, times, m, from);
      PerWindowIs(limits);
    } else {
      assert |times| > m ==> SpacedAt(limits, times, m, 0);
      CountAtMost(times, from, from + 1000 * limits.range);
    }
  }

  /** Between the beginning and the end of a failing attempt on `key`, nothing else happens on it. */
  ghost predicate Separate(es: seq<Event>, begun: seq<nat>, key: string)
    requires |begun| == |es|
  {
    forall j, x :: 0 <= j < |es| && Fails(es, j, key) && begun[j] < x < j ==> es[x].Sweep? || es[x].key != key
  }

  lemma SeparateIsOneAtATime(es: seq<Event>, begun: seq<nat>, key: string)
    requires |begun| == |es| && Separate(es, begun, key)
    ensures AtMostInFlight(es, begun, key, 1)
  {
    forall k: nat | k <= |es| ensures |InFlight(es, begun, k, key)| <= 1 {
      var flying := InFlight(es, begun, k, key);
      if flying != {} {
        var j :| j in flying;
        assert flying == {j};
      }
    }
  }

  /** Attempts that do not overlap: at most `threshold` failures in any window. */
  lemma AtMostThresholdFailures(limits: Limits, es: seq<Event>, begun: seq<nat>, k: nat, key: string, from: int)
    requires limits.range > 0 && InOrder(es) && Disciplined(limits, es, begun) && k <= |es|
    requires Separate(es, begun, key)
    ensures CountIn(Failures(es, k, key), from, from + 1000 * limits.range)
      <= if limits.threshold == 0 then 1 else limits.threshold
  {
    SeparateIsOneAtATime(es, begun, key);
    OverlapBoundsFailures(limits, es, begun, k, key, 1, from);
  }

  // ---- Overlapping attempts ---------------------------------------------------------------------------

  /** `m` attempts begin at once, and then all of them fail. */
  function Round(m: nat, at: int, key: string): seq<Event> {
    seq(2 * m, i => if i < m then Begin(key, at) else End(key, at, true))
  }

  /** Where the attempts of a round began, if `before` events came before it. */
  function RoundBegun(m: nat, before: nat): seq<nat> {
    seq(2 * m, i => if i < m then 0 else before + i - m)
  }

  /** `n` rounds at distance `s`. */
  function Rounds(m: nat, n: nat, s: nat, key: string): seq<Event> {
    if n == 0 then [] else Rounds(m, n - 1, s, key) + Round(m, (n - 1) * s, key)
  }

  function RoundsBegun(m: nat, n: nat): seq<nat> {
    if n == 0 then [] else RoundsBegun(m, n - 1) + RoundBegun(m, |RoundsBegun(m, n - 1)|)
  }

  lemma {:induction false} PrefixTells(limits: Limits, a: seq<Event>, b: seq<Event>, k: nat)
    requires k <= |a|
    ensures MapAt(limits, a + b, k, true) == MapAt(limits, a, k, true)
    ensures forall key :: Failures(a + b, k, key) == Failures(a, k, key)
  {
    if k > 0 {
      PrefixTells(limits, a, b, k - 1);
    }
  }

  /** Nothing is recorded while the attempts of a round begin. */
  lemma {:induction false} MapInRound(limits: Limits, a: seq<Event>, m: nat, at: int, key: string, k: nat)
    requires k <= 2 * m
    ensures var last := MapAt(limits, a, |a|, true);
      MapAt(limits, a + Round(m, at, key), |a| + k, true) == if k <= m then last else last[key := at]
  {
    if k == 0 {
      PrefixTells(limits, a, Round(m, at, key), |a|);
    } else {
      MapInRound(limits, a, m, at, key, k - 1);
    }
  }

  lemma {:induction false} FailuresInRound(a: seq<Event>, m: nat, at: int, key: string, k: nat, to: int)
    requires k <= 2 * m && 0 <= at < to
    ensures CountIn(Failures(a + Round(m, at, key), |a| + k, key), 0, to)
      == CountIn(Failures(a, |a|, key), 0, to) + if k <= m then 0 else k - m
  {
    if k == 0 {
      PrefixTells(Limits(0, 0), a, Round(m, at, key), |a|);
    } else {
      FailuresInRound(a, m, at, key, k - 1, to);
      var ts := Failures(a + Round(m, at, key), |a| + k - 1, key);
      if k > m {
        CountConcat(ts, [at], 0, to);
        assert CountIn([at], 0, to) == 1;
      } else {
        assert ts + [] == ts;
      }
    }
  }

  /** What the events of the rounds look like. */
  ghost predicate RoundsLook(es: seq<Event>, begun: seq<nat>, m: nat, last: int) {
    && |begun| == |es|
    && (forall i :: 0 <= i < |es| ==> es[i].at <= last)
    && (forall i :: 0 <= i < |es| ==> es[i].Begin? || (es[i].End? && m <= i && begun[i] == i - m))
  }

  lemma RoundInOrder(a: seq<Event>, m: nat, last: int, at: int, key: string)
    requires InOrder(a) && (forall i :: 0 <= i < |a| ==> a[i].at <= last) && last <= at
    ensures InOrder(a + Round(m, at, key))
  {
    var es := a + Round(m, at, key);
    assert forall i :: |a| <= i < |es| ==> es[i].at == at;
    assert forall i :: 0 <= i < |a| ==> es[i].at == a[i].at <= at;
  }

  /** The time of the last of `n` rounds. */
  function LastRound(n: nat, s: nat): nat {
    if n == 0 then 0 else (n - 1) * s
  }

  lemma {:induction false} RoundsLookRight(m: nat, n: nat, s: nat, key: string)
    ensures InOrder(Rounds(m, n, s, key)) && RoundsLook(Rounds(m, n, s, key), RoundsBegun(m, n), m, LastRound(n, s))
  {
    if n > 0 {
      RoundsLookRight(m, n - 1, s, key);
      var a, last, at := Rounds(m, n - 1, s, key), LastRound(n - 1, s), LastRound(n, s);
      Widen(s, n - 2, n - 1);
      RoundInOrder(a, m, last, at, key);
    }
  }

  lemma {:induction false} RoundsMap(limits: Limits, m: nat, n: nat, s: nat, key: string)
    requires m > 0
    ensures var es := Rounds(m, n, s, key);
      MapAt(limits, es, |es|, true) == if n == 0 then map[] else map[key := (n - 1) * s]
  {
    if n > 0 {
      RoundsMap(limits, m, n - 1, s, key);
      MapInRound(limits, Rounds(m, n - 1, s, key), m, (n - 1) * s, key, 2 * m);
    }
  }

  lemma {:induction false} RoundsCount(m: nat, n: nat, s: nat, key: string, to: int)
    requires n == 0 || (n - 1) * s < to
    ensures CountIn(Failures(Rounds(m, n, s, key), |Rounds(m, n, s, key)|, key), 0, to) == n * m
  {
    if n > 0 {
      assert n > 1 ==> (n - 1) * s == (n - 2) * s + s;
      RoundsCount(m, n - 1, s, key, to);
      FailuresInRound(Rounds(m, n - 1, s, key), m, (n - 1) * s, key, 2 * m, to);
      assert n * m == (n - 1) * m + m;
    }
  }

  /** What comes later does not touch an attempt that has ended. */
  lemma StillLetThrough(limits: Limits, a: seq<Event>, b: seq<Event>, begun: seq<nat>, more: seq<nat>, j: nat)
    requires j < |a| == |begun| && |b| == |more| && LetThrough(limits, a, begun, j)
    ensures LetThrough(limits, a + b, begun + more, j)
  {
    if a[j].End? {
      PrefixTells(limits, a, b, begun[j]);
    }
  }

  /** A round whose key is not throttled beforehand is let through. */
  lemma RoundIsLetThrough(limits: Limits, a: seq<Event>, begun: seq<nat>, m: nat, at: int, key: string, j: nat)
    requires |a| == |begun| && |a| <= j < |a| + 2 * m
    requires !Exceeds(limits.Rate(), MapAt(limits, a, |a|, true), key, at)
    ensures LetThrough(limits, a + Round(m, at, key), begun + RoundBegun(m, |a|), j)
  {
    if |a| + m <= j {
      MapInRound(limits, a, m, at, key, j - m - |a|);
    }
  }

  /** Rounds that are far enough apart are let through. */
  lemma {:induction false} RoundsAreDisciplined(limits: Limits, m: nat, n: nat, s: nat, key: string)
    requires limits.range > 0 && m > 0 && (n <= 1 || limits.threshold * s >= 1000 * limits.range)
    ensures Disciplined(limits, Rounds(m, n, s, key), RoundsBegun(m, n))
  {
    RoundsLookRight(m, n, s, key);
    if n > 0 {
      var a, before, at := Rounds(m, n - 1, s, key), RoundsBegun(m, n - 1), (n - 1) * s;
      RoundsLookRight(m, n - 1, s, key);
      RoundsAreDisciplined(limits, m, n - 1, s, key);
      RoundsMap(limits, m, n - 1, s, key);
      RoundIsLate(limits, m, n, s, key);
      forall j | 0 <= j < |a| + 2 * m ensures LetThrough(limits, Rounds(m, n, s, key), RoundsBegun(m, n), j) {
        if j < |a| {
          assert LetThrough(limits, a, before, j);
          StillLetThrough(limits, a, Round(m, at, key), before, RoundBegun(m, |a|), j);
        } else {
          RoundIsLetThrough(limits, a, before, m, at, key, j);
        }
      }
    }
  }

  /** The last failure before a round does not throttle it. */
  lemma RoundIsLate(limits: Limits, m: nat, n: nat, s: nat, key: string)
    requires limits.range > 0 && n > 0 && (n == 1 || limits.threshold * s >= 1000 * limits.range)
    ensures !Exceeds(limits.Rate(), if n == 1 then map[] else map[key := (n - 2) * s], key, (n - 1) * s)
  {
    if n > 1 {
      assert (n - 1) * s == (n - 2) * s + s;
      ExceedsIff(limits.threshold, limits.range, map[key := (n - 2) * s], key, (n - 1) * s);
    }
  }

  function Below(n: nat): set<nat> {
    if n == 0 then {} else Below(n - 1) + {n - 1}
  }

  lemma {:induction false} BelowHasSize(n: nat)
    ensures |Below(n)| == n && forall j :: j in Below(n) <==> 0 <= j < n
  {
    if n > 0 {
      BelowHasSize(n - 1);
    }
  }

  lemma RoundsInFlight(es: seq<Event>, begun: seq<nat>, m: nat, key: string, last: int)
    requires RoundsLook(es, begun, m, last)
    ensures AtMostInFlight(es, begun, key, m)
  {
    forall k: nat | k <= |es| ensures |InFlight(es, begun, k, key)| <= m {
      var flying, all, earlier := InFlight(es, begun, k, key), Below(k + m), Below(k);
      BelowHasSize(k + m);
      BelowHasSize(k);
      assert |all - earlier| == m by {
        assert all == (all - earlier) + earlier;
      }
      SubsetIsSmaller(flying, all - earlier);
    }
  }

  /** For every setting and every `m`, the bound is reached: nothing less holds with `m` attempts under way. */
  lemma BoundIsReached(limits: Limits, m: nat, key: string) returns (es: seq<Event>, begun: seq<nat>)
    requires limits.range > 0 && m > 0
    ensures InOrder(es) && Disciplined(limits, es, begun) && AtMostInFlight(es, begun, key, m)
    ensures CountIn(Failures(es, |es|, key), 0, 1000 * limits.range) == PerWindow(limits) * m
  {
    var n, s := PerWindow(limits), if limits.threshold == 0 then 0 else Gap(limits);
    if limits.threshold > 0 {
      PerWindowIs(limits);
    }
    es, begun := Rounds(m, n, s, key), RoundsBegun(m, n);
    RoundsLookRight(m, n, s, key);
    RoundsAreDisciplined(limits, m, n, s, key);
    RoundsInFlight(es, begun, m, key, LastRound(n, s));
    RoundsCount(m, n, s, key, 1000 * limits.range);
  }

  /** A run in which attempts end only if they were let through, and at most `m` failing ones are under way. */
  ghost predicate Orderly(limits: Limits, es: seq<Event>, begun: seq<nat>, key: string, m: nat) {
    InOrder(es) && Disciplined(limits, es, begun) && AtMostInFlight(es, begun, key, m)
  }

  /** The window from `from` on holds more than `bound` failures. */
  predicate Crowded(limits: Limits, es: seq<Event>, key: string, from: int, bound: nat) {
    CountIn(Failures(es, |es|, key), from, from + 1000 * limits.range) > bound
  }

  /** In every orderly run, no window holds more than `bound` failures. */
  ghost predicate AlwaysWithin(limits: Limits, m: nat, bound: nat) {
    forall es, begun, key, from {:trigger Orderly(limits, es, begun, key, m), Crowded(limits, es, key, from, bound)} ::
      Orderly(limits, es, begun, key, m) ==> !Crowded(limits, es, key, from, bound)
  }

  /** The exact bound for every setting and every overlap. */
  lemma AlwaysWithinIff(limits: Limits, m: nat, bound: nat)
    requires limits.range > 0
    ensures AlwaysWithin(limits, m, bound) <==> PerWindow(limits) * m <= bound
  {
    if PerWindow(limits) * m <= bound {
      forall es, begun, key, from | Orderly(limits, es, begun, key, m) ensures !Crowded(limits, es, key, from, bound) {
        OverlapBoundsFailures(limits, es, begun, |es|, key, m, from);
      }
    } else {
      var es, begun := BoundIsReached(limits, m, "");
      assert Orderly(limits, es, begun, "", m) && Crowded(limits, es, "", 0, bound);
    }
  }

  /**
   * Where range over threshold is a whole number of milliseconds, as in the default setting, a
   * window holds at most `threshold` failures exactly if attempts do not overlap.
   */
  lemma ThresholdHoldsIff(limits: Limits, m: nat, s: nat)
    requires limits.range > 0 && limits.threshold > 0 && limits.threshold * s == 1000 * limits.range
    ensures AlwaysWithin(limits, m, limits.threshold) <==> m <= 1
  {
    var f := limits.threshold;
    CeilingIsLeast(1000 * limits.range, f, s);
    PerWindowIs(limits);
    AlwaysWithinIff(limits, m, f);
  }
}
