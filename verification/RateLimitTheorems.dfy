/** What clients of the rate limiter may rely on, over every run of every number of replicas. */
module RateLimitTheorems {
  import opened RateLimitIndex
  import opened RateLimitProtocol
  import opened RateLimitInvariant

  // ---- Quantities read off a history ----

  /** All hits counted on a key, whether or not Redis dropped it in between. */
  function CountedHits(history: seq<Event>, key: string): nat {
    if history == [] then 0
    else
      var e := history[|history| - 1];
      CountedHits(history[..|history| - 1], key) +
      if e.Decided? && e.counted && e.touch.Key() == key then e.touch.hits else 0
  }

  /** The reference limiter's counter: every touch of the key counts, answered from a cache or not. */
  function TouchHits(history: seq<Event>, key: string): nat {
    if history == [] then 0
    else
      var e := history[|history| - 1];
      TouchHits(history[..|history| - 1], key) +
      if e.Decided? && e.touch.Key() == key then e.touch.hits else 0
  }

  predicate Admits(e: Event, prefix: string) {
    e.OnTime() && e.verdict == Ok && e.touch.prefix == prefix
  }

  /** Hits answered OK, before its end, for one window of a prefix. */
  function OkHits(history: seq<Event>, prefix: string, start: nat): nat {
    if history == [] then 0
    else
      var e := history[|history| - 1];
      OkHits(history[..|history| - 1], prefix, start) +
      if Admits(e, prefix) && e.touch.start == start then e.touch.hits else 0
  }

  /** Hits answered OK for a prefix at times from `lo` up to but not including `hi`. */
  function OkBetween(history: seq<Event>, prefix: string, lo: nat, hi: nat): nat {
    if history == [] then 0
    else
      var e := history[|history| - 1];
      OkBetween(history[..|history| - 1], prefix, lo, hi) +
      if Admits(e, prefix) && lo <= e.at < hi then e.touch.hits else 0
  }

  lemma {:induction false} SoundPrefix(policy: string -> Policy, history: seq<Event>, i: nat)
    requires Sound(policy, history) && i < |history|
    ensures Sound(policy, history[..i + 1]) && Sound(policy, history[..i])
    ensures EventSound(policy, history[..i], history[i])
  {
    var n := |history| - 1;
    if i < n {
      SoundPrefix(policy, history[..n], i);
      assert history[..n][..i + 1] == history[..i + 1];
      assert history[..n][..i] == history[..i];
    } else {
      assert history[..i + 1] == history;
    }
  }

  // ---- A counter outlives its window ----

  /** While a window is open Redis has not dropped its key, so no count was lost. */
  lemma {:induction false} NothingLost(policy: string -> Policy, history: seq<Event>, touch: Touch)
    requires Sound(policy, history) && Conforms(policy, touch) && LastTime(history) < touch.End()
    ensures CountedSince(history, touch.Key()) == CountedHits(history, touch.Key())
    ensures forall i :: 0 <= i < |history| ==> history[i] != Dropped(touch.Key(), history[i].at)
  {
    if history != [] {
      NothingLost(policy, history[..|history| - 1], touch);
    }
  }

  lemma {:induction false} OkHitsAreCounted(policy: string -> Policy, history: seq<Event>, touch: Touch)
    requires Sound(policy, history)
    ensures OkHits(history, touch.prefix, touch.start) <= CountedHits(history, touch.Key())
  {
    if history != [] {
      OkHitsAreCounted(policy, history[..|history| - 1], touch);
    }
  }

  /** Admission is exact: a timely INCRBY is answered OK if and only if all the hits ever
      counted on its key, this one included, are within its limit. */
  lemma AdmissionIsExact(policy: string -> Policy, now: nat, steps: seq<Step>, i: nat)
    requires ClockInRange(now) && AllAllowed(policy, steps)
    requires var h := Run(Start(now), steps).history; i < |h| && h[i].OnTime() && h[i].counted
    ensures var h := Run(Start(now), steps).history;
      h[i].verdict == Ok <==> CountedHits(h[..i + 1], h[i].touch.Key()) <= h[i].touch.limit
  {
    var h := Run(Start(now), steps).history;
    EveryHistoryIsSound(policy, now, steps);
    SoundPrefix(policy, h, i);
    assert h[..i + 1][..i] == h[..i];
    NothingLost(policy, h[..i + 1], h[i].touch);
  }

  /** Without the condition on time: OK if and only if the hits since Redis last dropped the key are within the limit. */
  lemma AdmissionSinceDrop(policy: string -> Policy, now: nat, steps: seq<Step>, i: nat)
    requires ClockInRange(now) && AllAllowed(policy, steps)
    requires var h := Run(Start(now), steps).history; i < |h| && h[i].Decided? && h[i].counted
    ensures var h := Run(Start(now), steps).history;
      h[i].verdict == Ok <==> CountedSince(h[..i + 1], h[i].touch.Key()) <= h[i].touch.limit
  {
    var h := Run(Start(now), steps).history;
    EveryHistoryIsSound(policy, now, steps);
    SoundPrefix(policy, h, i);
    assert h[..i + 1][..i] == h[..i];
  }

  // ---- Window safety ----

  lemma {:induction false} WindowBound(policy: string -> Policy, history: seq<Event>, prefix: string, start: nat)
    requires Sound(policy, history)
    ensures OkHits(history, prefix, start) <= policy(prefix).most
  {
    if history != [] {
      var n := |history| - 1;
      var e := history[n];
      WindowBound(policy, history[..n], prefix, start);
      if Admits(e, prefix) && e.touch.start == start {
        OkHitsAreCounted(policy, history, e.touch);
        NothingLost(policy, history, e.touch);
      }
    }
  }

  /** In every run the hits answered OK in one window of a prefix stay within the largest
      limit that any loaded configuration gives the prefix. */
  lemma WindowSafety(policy: string -> Policy, now: nat, steps: seq<Step>, prefix: string, start: nat)
    requires ClockInRange(now) && AllAllowed(policy, steps)
    ensures OkHits(Run(Start(now), steps).history, prefix, start) <= policy(prefix).most
  {
    EveryHistoryIsSound(policy, now, steps);
    WindowBound(policy, Run(Start(now), steps).history, prefix, start);
  }

  /** At each timely OK the hits answered OK in its window so far are within the limit
      that this very answer was given under, however limits changed before. */
  lemma EachOkIsWithinItsLimit(policy: string -> Policy, now: nat, steps: seq<Step>, i: nat)
    requires ClockInRange(now) && AllAllowed(policy, steps)
    requires var h := Run(Start(now), steps).history; i < |h| && h[i].OnTime() && h[i].verdict == Ok
    ensures var h := Run(Start(now), steps).history;
      OkHits(h[..i + 1], h[i].touch.prefix, h[i].touch.start) <= h[i].touch.limit
  {
    var h := Run(Start(now), steps).history;
    EveryHistoryIsSound(policy, now, steps);
    SoundPrefix(policy, h, i);
    AdmissionIsExact(policy, now, steps, i);
    OkHitsAreCounted(policy, h[..i + 1], h[i].touch);
  }

  /** The last hit admitted to a window. */
  lemma {:induction false} LastAdmitted(history: seq<Event>, prefix: string, start: nat) returns (i: nat)
    requires OkHits(history, prefix, start) > 0
    ensures i < |history| && Admits(history[i], prefix) && history[i].touch.start == start
    ensures OkHits(history[..i + 1], prefix, start) == OkHits(history, prefix, start)
  {
    var n := |history| - 1;
    if Admits(history[n], prefix) && history[n].touch.start == start {
      i := n;
      assert history[..i + 1] == history;
    } else {
      i := LastAdmitted(history[..n], prefix, start);
      assert history[..n][..i + 1] == history[..i + 1];
    }
  }

  /** However limits change, all the hits answered OK in one window stay within the limit
      that one of them, the last, was admitted under. */
  lemma WindowIsWithinGrantedLimit(policy: string -> Policy, now: nat, steps: seq<Step>, prefix: string, start: nat)
    returns (i: nat)
    requires ClockInRange(now) && AllAllowed(policy, steps)
    requires OkHits(Run(Start(now), steps).history, prefix, start) > 0
    ensures var h := Run(Start(now), steps).history;
      && i < |h| && Admits(h[i], prefix) && h[i].touch.start == start
      && OkHits(h, prefix, start) <= h[i].touch.limit
  {
    i := LastAdmitted(Run(Start(now), steps).history, prefix, start);
    EachOkIsWithinItsLimit(policy, now, steps, i);
  }

  // ---- Late decisions ----

  /** Hits answered OK on a key, timely or not. */
  function AdmittedHits(history: seq<Event>, key: string): nat {
    if history == [] then 0
    else
      var e := history[|history| - 1];
      AdmittedHits(history[..|history| - 1], key) +
      if e.Decided? && e.touch.Key() == key && e.verdict == Ok then e.touch.hits else 0
  }

  /** How often Redis dropped a key. */
  function Drops(history: seq<Event>, key: string): nat {
    if history == [] then 0
    else
      var e := history[|history| - 1];
      Drops(history[..|history| - 1], key) + if e.Dropped? && e.key == key then 1 else 0
  }

  function AtMost(a: nat, b: nat): nat {
    if a <= b then a else b
  }

  lemma OnceMore(n: nat, most: nat)
    ensures (n + 1) * most == n * most + most
  {
  }

  /** The largest limit of the key's prefix, once for every drop and once more as far as it is used up. */
  lemma {:induction false} AdmittedSinceDrops(policy: string -> Policy, history: seq<Event>, touch: Touch)
    requires Sound(policy, history) && Conforms(policy, touch)
    ensures var key, most := touch.Key(), policy(touch.prefix).most;
      AdmittedHits(history, key) <= Drops(history, key) * most + AtMost(CountedSince(history, key), most)
  {
    if history != [] {
      var n := |history| - 1;
      var e, key, most := history[n], touch.Key(), policy(touch.prefix).most;
      AdmittedSinceDrops(policy, history[..n], touch);
      OnceMore(Drops(history[..n], key), most);
      if e.Decided? && e.touch.Key() == key {
        KeysDecodeInRange(e.touch.prefix, e.touch.start, touch.prefix, touch.start);
      }
    }
  }

  /** Late decisions included, a key admits at most the largest limit of its prefix once more
      than Redis drops it. */
  lemma LateHitsAreBounded(policy: string -> Policy, now: nat, steps: seq<Step>, touch: Touch)
    requires ClockInRange(now) && AllAllowed(policy, steps) && Conforms(policy, touch)
    ensures var h := Run(Start(now), steps).history;
      var drops := Drops(h, touch.Key());
      AdmittedHits(h, touch.Key()) <= (drops + 1) * policy(touch.prefix).most
  {
    var h := Run(Start(now), steps).history;
    EveryHistoryIsSound(policy, now, steps);
    AdmittedSinceDrops(policy, h, touch);
    OnceMore(Drops(h, touch.Key()), policy(touch.prefix).most);
  }

  // ---- Sliding bound ----

  /** The OK hits of `m` consecutive windows, the first one being window number `w0`. */
  function WindowsSum(history: seq<Event>, prefix: string, d: nat, w0: nat, m: nat): nat {
    if m == 0 then 0
    else WindowsSum(history, prefix, d, w0, m - 1) + OkHits(history, prefix, (w0 + m - 1) * d)
  }

  lemma {:induction false} WindowsSumBound(policy: string -> Policy, history: seq<Event>, prefix: string, d: nat, w0: nat, m: nat)
    requires Sound(policy, history)
    ensures WindowsSum(history, prefix, d, w0, m) <= m * policy(prefix).most
  {
    if m > 0 {
      WindowsSumBound(policy, history, prefix, d, w0, m - 1);
      WindowBound(policy, history, prefix, (w0 + m - 1) * d);
      assert m * policy(prefix).most == (m - 1) * policy(prefix).most + policy(prefix).most;
    }
  }

  lemma {:induction false} WindowsSumGrows(history: seq<Event>, prefix: string, d: nat, w0: nat, m: nat, w: nat)
    requires history != []
    ensures var n := |history| - 1;
      WindowsSum(history, prefix, d, w0, m) >= WindowsSum(history[..n], prefix, d, w0, m) +
        if Admits(history[n], prefix) && history[n].touch.start == w * d && w0 <= w < w0 + m
        then history[n].touch.hits else 0
  {
    if m > 0 {
      WindowsSumGrows(history, prefix, d, w0, m - 1, w);
    }
  }

  /** An on-time decision inside an interval of n periods lies in one of the n + 1 windows it meets. */
  lemma WindowOfDecision(start: nat, at: nat, d: nat, lo: nat, n: nat)
    requires d > 0 && start == WindowStart(start, d) && start <= at < start + d
    requires lo <= at < lo + n * d
    ensures start == (start / d) * d && lo / d <= start / d < lo / d + (n + 1)
  {
    var w, w0 := start / d, lo / d;
    assert w0 * d <= lo < w0 * d + d by {
      assert lo == d * w0 + lo % d;
    }
    assert (w + 1) * d == w * d + d;
    assert (w0 + n + 1) * d == w0 * d + n * d + d;
    FactorsCompare(w0, w + 1, d);
    FactorsCompare(w, w0 + n + 1, d);
  }

  predicate StartsWindow(start: nat, w: nat, d: nat) {
    start == w * d
  }

  /** Every decision of the prefix between `lo` and `hi` falls into one of `m` windows. */
  ghost predicate Covered(policy: string -> Policy, prefix: string, d: nat, lo: nat, hi: nat, w0: nat, m: nat) {
    forall e: Event :: Admits(e, prefix) && Conforms(policy, e.touch) && e.touch.start <= e.at && lo <= e.at < hi ==>
      exists w: nat :: w0 <= w < w0 + m && StartsWindow(e.touch.start, w, d)
  }

  lemma IntervalIsCovered(policy: string -> Policy, prefix: string, d: nat, lo: nat, n: nat)
    requires d == policy(prefix).period && d > 0
    ensures Covered(policy, prefix, d, lo, lo + n * d, lo / d, n + 1)
  {
    var hi := lo + n * d;
    forall e: Event | Admits(e, prefix) && Conforms(policy, e.touch) && e.touch.start <= e.at && lo <= e.at < hi
      ensures exists w: nat :: lo / d <= w < lo / d + (n + 1) && StartsWindow(e.touch.start, w, d)
    {
      WindowOfDecision(e.touch.start, e.at, d, lo, n);
      assert StartsWindow(e.touch.start, e.touch.start / d, d);
    }
  }

  lemma {:induction false} CoveredBySum(policy: string -> Policy, history: seq<Event>, prefix: string,
                                        d: nat, lo: nat, hi: nat, w0: nat, m: nat)
    requires Sound(policy, history) && Covered(policy, prefix, d, lo, hi, w0, m)
    ensures OkBetween(history, prefix, lo, hi) <= WindowsSum(history, prefix, d, w0, m)
  {
    if history != [] {
      var k := |history| - 1;
      var e := history[k];
      CoveredBySum(policy, history[..k], prefix, d, lo, hi, w0, m);
      if Admits(e, prefix) && lo <= e.at < hi {
        var w: nat :| w0 <= w < w0 + m && StartsWindow(e.touch.start, w, d);
        WindowsSumGrows(history, prefix, d, w0, m, w);
      } else {
        WindowsSumGrows(history, prefix, d, w0, m, 0);
      }
    }
  }

  lemma SlidingBoundOf(policy: string -> Policy, h: seq<Event>, prefix: string, d: nat, lo: nat, n: nat)
    requires Sound(policy, h) && d == policy(prefix).period && d > 0
    ensures OkBetween(h, prefix, lo, lo + n * d) <= (n + 1) * policy(prefix).most
  {
    IntervalIsCovered(policy, prefix, d, lo, n);
    CoveredBySum(policy, h, prefix, d, lo, lo + n * d, lo / d, n + 1);
    WindowsSumBound(policy, h, prefix, d, lo / d, n + 1);
  }

  /** In any interval of n periods, wherever it starts, a prefix gets at most n + 1 limits' worth of OK hits. */
  lemma SlidingBound(policy: string -> Policy, now: nat, steps: seq<Step>, prefix: string, lo: nat, n: nat)
    requires ClockInRange(now) && AllAllowed(policy, steps) && policy(prefix).period > 0
    ensures OkBetween(Run(Start(now), steps).history, prefix, lo, lo + n * policy(prefix).period)
         <= (n + 1) * policy(prefix).most
  {
    EveryHistoryIsSound(policy, now, steps);
    SlidingBoundOf(policy, Run(Start(now), steps).history, prefix, policy(prefix).period, lo, n);
  }

  // ---- The local cache is invisible ----

  ghost predicate FixedLimit(policy: string -> Policy, prefix: string) {
    policy(prefix).least == policy(prefix).most
  }

  /** The simulation between the store's counter and the reference counter: equal until
      both exceed the limit, and a remembered excess means that the counter exceeds it. */
  lemma {:induction false} HistoriesSimulate(policy: string -> Policy, history: seq<Event>, touch: Touch)
    requires Sound(policy, history) && Conforms(policy, touch) && LastTime(history) < touch.End()
    requires FixedLimit(policy, touch.prefix)
    ensures var stored, ref := CountedSince(history, touch.Key()), TouchHits(history, touch.Key());
      stored == ref || (stored > touch.limit && ref > touch.limit)
    ensures Exceeded(history, touch.Key()) ==> CountedSince(history, touch.Key()) > touch.limit
  {
    if history != [] {
      var n := |history| - 1;
      var e := history[n];
      HistoriesSimulate(policy, history[..n], touch);
      if e.Decided? && e.touch.Key() == touch.Key() {
        KeysDecodeInRange(e.touch.prefix, e.touch.start, touch.prefix, touch.start);
      }
    }
  }

  /** The forward simulation, in every reachable state and for every open window: the counter
      that Redis stores and the counter of a limiter without local caches are equal or both
      above the limit, and a key in any replica's cache has a stored counter above it. */
  lemma CountersSimulate(policy: string -> Policy, now: nat, steps: seq<Step>, touch: Touch, replica: nat)
    requires ClockInRange(now) && AllAllowed(policy, steps)
    requires Conforms(policy, touch) && FixedLimit(policy, touch.prefix)
    requires Run(Start(now), steps).now < touch.End()
    ensures var st := Run(Start(now), steps);
      var stored, ref := ValueOf(st.redis, touch.Key()), TouchHits(st.history, touch.Key());
      && (stored == ref || (stored > touch.limit && ref > touch.limit))
      && (touch.Key() in CacheOf(st, replica) ==> stored > touch.limit)
  {
    RunKeeps(policy, Start(now), steps);
    HistoriesSimulate(policy, Run(Start(now), steps).history, touch);
  }

  /** With a fixed limit and unit, every timely answer of every replica is the one that a
      single limiter without any local cache gives, whatever the caches keep or evict. */
  lemma CacheRefinesReference(policy: string -> Policy, now: nat, steps: seq<Step>, i: nat)
    requires ClockInRange(now) && AllAllowed(policy, steps)
    requires var h := Run(Start(now), steps).history;
      i < |h| && h[i].OnTime() && FixedLimit(policy, h[i].touch.prefix)
    ensures var h := Run(Start(now), steps).history;
      h[i].verdict == VerdictOf(TouchHits(h[..i + 1], h[i].touch.Key()), h[i].touch.limit)
  {
    EveryHistoryIsSound(policy, now, steps);
    AnswerMatchesReference(policy, Run(Start(now), steps).history, i);
  }

  lemma AnswerMatchesReference(policy: string -> Policy, h: seq<Event>, i: nat)
    requires Sound(policy, h) && i < |h| && h[i].OnTime() && FixedLimit(policy, h[i].touch.prefix)
    ensures h[i].verdict == VerdictOf(TouchHits(h[..i + 1], h[i].touch.Key()), h[i].touch.limit)
  {
    SoundPrefix(policy, h, i);
    assert h[..i + 1][..i] == h[..i];
    HistoriesSimulate(policy, h[..i + 1], h[i].touch);
  }

  // ---- Sticky and exact admission ----

  lemma {:induction false} TouchHitsGrow(history: seq<Event>, key: string, i: nat)
    requires i <= |history|
    ensures TouchHits(history[..i], key) <= TouchHits(history, key)
  {
    if i < |history| {
      var n := |history| - 1;
      TouchHitsGrow(history[..n], key, i);
      assert history[..n][..i] == history[..i];
    } else {
      assert history[..i] == history;
    }
  }

  /** Once a key answers OVER_LIMIT, every later timely touch of it does, on every replica. */
  lemma OverLimitIsSticky(policy: string -> Policy, now: nat, steps: seq<Step>, i: nat, j: nat)
    requires ClockInRange(now) && AllAllowed(policy, steps)
    requires var h := Run(Start(now), steps).history;
      && i < j < |h| && h[i].OnTime() && h[j].OnTime() && h[i].touch.Key() == h[j].touch.Key()
      && FixedLimit(policy, h[i].touch.prefix) && h[i].verdict == OverLimit
    ensures Run(Start(now), steps).history[j].verdict == OverLimit
  {
    var h := Run(Start(now), steps).history;
    EveryHistoryIsSound(policy, now, steps);
    SoundPrefix(policy, h, i);
    SoundPrefix(policy, h, j);
    KeysDecodeInRange(h[i].touch.prefix, h[i].touch.start, h[j].touch.prefix, h[j].touch.start);
    AnswerMatchesReference(policy, h, i);
    AnswerMatchesReference(policy, h, j);
    TouchHitsGrow(h[..j + 1], h[i].touch.Key(), i + 1);
    assert h[..j + 1][..i + 1] == h[..i + 1];
  }

  /** The decisions on a key answered OK, and all of them. */
  function OkCount(history: seq<Event>, key: string): nat {
    if history == [] then 0
    else
      var e := history[|history| - 1];
      OkCount(history[..|history| - 1], key) + if e.Decided? && e.touch.Key() == key && e.verdict == Ok then 1 else 0
  }

  ghost predicate TimelyUnitTouches(history: seq<Event>, key: string) {
    forall i :: 0 <= i < |history| && history[i].Decided? && history[i].touch.Key() == key ==>
      history[i].OnTime() && history[i].touch.hits == 1
  }

  lemma {:induction false} OkCountIsMinimum(policy: string -> Policy, h: seq<Event>, touch: Touch)
    requires Sound(policy, h) && Conforms(policy, touch) && FixedLimit(policy, touch.prefix)
    requires TimelyUnitTouches(h, touch.Key())
    ensures OkCount(h, touch.Key()) ==
      if TouchHits(h, touch.Key()) <= touch.limit then TouchHits(h, touch.Key()) else touch.limit
  {
    if h != [] {
      var n := |h| - 1;
      OkCountIsMinimum(policy, h[..n], touch);
      if h[n].Decided? && h[n].touch.Key() == touch.Key() {
        KeysDecodeInRange(h[n].touch.prefix, h[n].touch.start, touch.prefix, touch.start);
        AnswerMatchesReference(policy, h, n);
        assert h[..n + 1] == h;
      }
    }
  }

  /** Of any number of timely unit touches of a key, exactly the limit's worth, and no fewer
      while there are fewer, is answered OK. */
  lemma UnitAdmissionIsExact(policy: string -> Policy, now: nat, steps: seq<Step>, touch: Touch)
    requires ClockInRange(now) && AllAllowed(policy, steps)
    requires Conforms(policy, touch) && FixedLimit(policy, touch.prefix)
    requires TimelyUnitTouches(Run(Start(now), steps).history, touch.Key())
    ensures var h := Run(Start(now), steps).history;
      OkCount(h, touch.Key()) ==
        if TouchHits(h, touch.Key()) <= touch.limit then TouchHits(h, touch.Key()) else touch.limit
  {
    EveryHistoryIsSound(policy, now, steps);
    OkCountIsMinimum(policy, Run(Start(now), steps).history, touch);
  }
}
