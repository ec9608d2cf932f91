/** One replica's request handler, and the proof that each request it serves is a run of
    the protocol, so that whatever holds of all runs holds of the answers it gives. */
module RateLimitService {
  import opened Text
  import opened RateLimitIndex
  import opened RateLimitProtocol

  // ---- What serving a list of touches does ----

  /** The store, the replica's local cache, and the statuses given so far. */
  datatype View = View(redis: map<string, Counter>, cache: map<string, nat>, statuses: seq<Verdict>)

  function ServeOne(view: View, touch: Touch, now: nat): View {
    var key := touch.Key();
    if key in view.cache && now < view.cache[key] then
      view.(statuses := view.statuses + [OverLimit])
    else
      var verdict := VerdictOf(ValueOf(view.redis, key) + touch.hits, touch.limit);
      View(Refresh(Increment(view.redis, key, touch.hits), key, now + touch.period),
           if verdict == OverLimit then view.cache[key := now + touch.period] else view.cache,
           view.statuses + [verdict])
  }

  /** `serve` is the clock: when the entry with this index in the response is served. */
  function ServeAll(view: View, touches: seq<Touch>, serve: nat -> nat): (after: View)
    ensures |after.statuses| == |view.statuses| + |touches|
  {
    if touches == [] then view
    else
      var before := ServeAll(view, touches[..|touches| - 1], serve);
      ServeOne(before, touches[|touches| - 1], serve(|before.statuses|))
  }

  lemma {:induction false} ServeAllConcat(view: View, first: seq<Touch>, second: seq<Touch>, serve: nat -> nat)
    ensures ServeAll(view, first + second, serve) == ServeAll(ServeAll(view, first, serve), second, serve)
  {
    if second == [] {
      assert first + second == first;
    } else {
      var n := |second| - 1;
      assert (first + second)[..|first| + n] == first + second[..n];
      ServeAllConcat(view, first, second[..n], serve);
    }
  }

  lemma ServeAllLast(view: View, touches: seq<Touch>, m: nat, serve: nat -> nat)
    requires m < |touches|
    ensures var before := ServeAll(view, touches[..m], serve);
      ServeAll(view, touches[..m + 1], serve) == ServeOne(before, touches[m], serve(|before.statuses|))
  {
    assert touches[..m + 1][..m] == touches[..m];
  }

  function Flatten(limits: seq<seq<Touch>>): seq<Touch> {
    if limits == [] then [] else Flatten(limits[..|limits| - 1]) + limits[|limits| - 1]
  }

  /** The touches of a request, descriptor by descriptor; the clock is read for each of them. */
  function Requested(config: CacheConfig, domain: string, descriptors: seq<seq<RequestEntry>>, hits: nat,
                     readings: seq<nat>): (limits: seq<seq<Touch>>)
    requires |readings| == |descriptors| && forall d :: d in config ==> config[d].KnownUnits()
  {
    if descriptors == [] || domain !in config then []
    else
      var n := |descriptors| - 1;
      Requested(config, domain, descriptors[..n], hits, readings[..n])
      + [NameTouches(config[domain], descriptors[n], hits, readings[n])]
  }

  lemma {:induction false} NamedHits(index: CacheDescriptors, request: seq<RequestEntry>, hits: nat, now: nat)
    requires index.KnownUnits()
    ensures forall t :: t in NameTouches(index, request, hits, now) ==> t.hits == hits
  {
    if request != [] {
      NamedHits(index, request[..|request| - 1], hits, now);
    }
  }

  /** Every touch of a request asks for the request's hits. */
  lemma {:induction false} RequestedHits(config: CacheConfig, domain: string, descriptors: seq<seq<RequestEntry>>, hits: nat,
                                         readings: seq<nat>)
    requires |readings| == |descriptors| && forall d :: d in config ==> config[d].KnownUnits()
    ensures forall t :: t in Flatten(Requested(config, domain, descriptors, hits, readings)) ==> t.hits == hits
    decreases |descriptors|
  {
    if descriptors != [] && domain in config {
      var n := |descriptors| - 1;
      RequestedHits(config, domain, descriptors[..n], hits, readings[..n]);
      NamedHits(config[domain], descriptors[n], hits, readings[n]);
      FlattenExtends(Requested(config, domain, descriptors[..n], hits, readings[..n]),
                     NameTouches(config[domain], descriptors[n], hits, readings[n]));
    }
  }

  /** The reference for a whole request: every descriptor scanned against the stored rules, at
      its own reading of the clock, one after the other. */
  function ScannedAll(rules: seq<Rule>, domain: string, descriptors: seq<seq<RequestEntry>>, hits: nat, readings: seq<nat>)
    : seq<Touch>
    requires |readings| == |descriptors|
    decreases |descriptors|
  {
    if descriptors == [] then []
    else
      Scanned(rules, domain, descriptors[0], hits, readings[0]) + ScannedAll(rules, domain, descriptors[1..], hits, readings[1..])
  }

  lemma {:induction false} ScannedAllExtends(rules: seq<Rule>, domain: string, descriptors: seq<seq<RequestEntry>>,
                                             readings: seq<nat>, descriptor: seq<RequestEntry>, reading: nat, hits: nat)
    requires |readings| == |descriptors|
    ensures ScannedAll(rules, domain, descriptors + [descriptor], hits, readings + [reading]) ==
      ScannedAll(rules, domain, descriptors, hits, readings) + Scanned(rules, domain, descriptor, hits, reading)
    decreases |descriptors|
  {
    var all, last := descriptors + [descriptor], Scanned(rules, domain, descriptor, hits, reading);
    if descriptors == [] {
      assert ScannedAll(rules, domain, all[1..], hits, (readings + [reading])[1..]) == [];
      assert last + [] == [] + last;
    } else {
      assert all[1..] == descriptors[1..] + [descriptor] && (readings + [reading])[1..] == readings[1..] + [reading];
      ScannedAllExtends(rules, domain, descriptors[1..], readings[1..], descriptor, reading, hits);
      ConcatAssociates(Scanned(rules, domain, descriptors[0], hits, readings[0]),
                       ScannedAll(rules, domain, descriptors[1..], hits, readings[1..]), last);
    }
  }

  lemma ConcatAssociates(a: seq<Touch>, b: seq<Touch>, c: seq<Touch>)
    ensures a + (b + c) == (a + b) + c
  {
  }

  /** The touches of a request are those of the scan, in order and complete. */
  lemma {:induction false} RequestRefinesScan(config: CacheConfig, rules: seq<Rule>, domain: string,
                                              descriptors: seq<seq<RequestEntry>>, hits: nat, readings: seq<nat>)
    requires Indexes(config, rules) && |readings| == |descriptors|
    ensures forall d :: d in config ==> config[d].KnownUnits()
    ensures Flatten(Requested(config, domain, descriptors, hits, readings)) == ScannedAll(rules, domain, descriptors, hits, readings)
    decreases |descriptors|
  {
    IndexedUnitsAreKnown(config, rules);
    if descriptors == [] {
      assert Flatten([]) == [];
    } else {
      var n := |descriptors| - 1;
      RequestRefinesScan(config, rules, domain, descriptors[..n], hits, readings[..n]);
      assert descriptors[..n] + [descriptors[n]] == descriptors && readings[..n] + [readings[n]] == readings;
      ScannedAllExtends(rules, domain, descriptors[..n], readings[..n], descriptors[n], readings[n], hits);
      IndexRefinesScan(config, rules, domain, descriptors[n], hits, readings[n]);
      LastDescriptor(config, domain, descriptors, hits, readings);
    }
  }

  /** The last descriptor's touches come last. */
  lemma LastDescriptor(config: CacheConfig, domain: string, descriptors: seq<seq<RequestEntry>>, hits: nat, readings: seq<nat>)
    requires |readings| == |descriptors| && descriptors != [] && forall d :: d in config ==> config[d].KnownUnits()
    ensures var n := |descriptors| - 1;
      Flatten(Requested(config, domain, descriptors, hits, readings)) ==
      Flatten(Requested(config, domain, descriptors[..n], hits, readings[..n])) +
      Resolve(config, domain, descriptors[n], hits, readings[n])
  {
    var n := |descriptors| - 1;
    if domain in config {
      FlattenExtends(Requested(config, domain, descriptors[..n], hits, readings[..n]),
                     NameTouches(config[domain], descriptors[n], hits, readings[n]));
    }
  }

  function Max(a: nat, b: nat): nat {
    if a > b then a else b
  }

  // ---- The handler ----

  class Redis {
    var counters: map<string, Counter>

    constructor ()
      ensures counters == map[]
    {
      counters := map[];
    }

    method IncrBy(key: string, hits: nat) returns (total: nat)
      modifies this
      ensures counters == Increment(old(counters), key, hits)
      ensures total == (if key in old(counters) then old(counters)[key].value else 0) + hits
      ensures counters == old(counters)[key := Counter(total, if key in old(counters) then old(counters)[key].deadline else None)]
    {
      total := ValueOf(counters, key) + hits;
      counters := Increment(counters, key, hits);
    }

    method Expire(key: string, deadline: nat)
      modifies this
      ensures counters == Refresh(old(counters), key, deadline)
      ensures key !in old(counters) ==> counters == old(counters)
      ensures key in old(counters) ==> counters == old(counters)[key := Counter(old(counters)[key].value, Some(deadline))]
    {
      counters := Refresh(counters, key, deadline);
    }
  }

  predicate Known(config: Option<CacheConfig>) {
    config.Some? ==> forall d :: d in config.value ==> config.value[d].KnownUnits()
  }

  datatype Response = Response(overall: Verdict, statuses: seq<Verdict>)

  /** One touch counted now: its counter grows by its hits and lives for one more period, no other
      counter changes, and the status says whether it is above the limit; if it is, the replica
      remembers the key for one period. */
  predicate CountedAs(counters: map<string, Counter>, after: map<string, Counter>, cache: map<string, nat>,
                      afterCache: map<string, nat>, statuses: seq<Verdict>, afterStatuses: seq<Verdict>, touch: Touch, now: nat) {
    var key := touch.Key();
    var total := (if key in counters then counters[key].value else 0) + touch.hits;
    && after == counters[key := Counter(total, Some(now + touch.period))]
    && (total > touch.limit ==> afterStatuses == statuses + [OverLimit] && afterCache == cache[key := now + touch.period])
    && (total <= touch.limit ==> afterStatuses == statuses + [Ok] && afterCache == cache)
  }

  /** The configuration is nil after a failed reload. */
  class Service {
    var config: Option<CacheConfig>
    var localCache: map<string, nat>
    const client: Redis

    ghost predicate Valid()
      reads this
    {
      Known(config)
    }

    ghost function Now(): View
      reads this, client
    {
      View(client.counters, localCache, [])
    }

    constructor Init(config: Option<CacheConfig>, client: Redis)
      requires Known(config)
      ensures Valid() && this.config == config && this.client == client && localCache == map[]
    {
      this.config := config;
      this.client := client;
      localCache := map[];
    }

    method SetConfig(newConfig: Option<CacheConfig>)
      requires Known(newConfig)
      modifies this`config
      ensures Valid() && config == newConfig
    {
      config := newConfig;
    }

    /** The limits of a request: one list of touches per descriptor. */
    method FindLimits(current: CacheConfig, domain: string, descriptors: seq<seq<RequestEntry>>, hits: nat, readings: seq<nat>)
      returns (limits: seq<seq<Touch>>)
      requires |readings| == |descriptors| && Known(Some(current))
      ensures limits == Requested(current, domain, descriptors, hits, readings)
    {
      limits := [];
      if domain in current {
        var n := 0;
        while n < |descriptors|
          invariant 0 <= n <= |descriptors|
          invariant limits == Requested(current, domain, descriptors[..n], hits, readings[..n])
        {
          assert descriptors[..n + 1][..n] == descriptors[..n] && readings[..n + 1][..n] == readings[..n];
          var touches := FindDescriptor(current[domain], descriptors[n], hits, readings[n]);
          limits := limits + [touches];
          n := n + 1;
        }
        assert descriptors[..n] == descriptors && readings[..n] == readings;
      }
    }

    /** The body of the inner loop: one entry, its status appended to the response so far. */
    method ServeEntry(touch: Touch, now: nat, before: Response) returns (res: Response)
      requires before.overall == OverLimit <==> OverLimit in before.statuses
      modifies this`localCache, client
      ensures View(client.counters, localCache, res.statuses) ==
        ServeOne(View(old(client.counters), old(localCache), before.statuses), touch, now)
      ensures res.overall == OverLimit <==> OverLimit in res.statuses
      ensures touch.Key() in old(localCache) && now < old(localCache)[touch.Key()] ==>
        && client.counters == old(client.counters) && localCache == old(localCache)
        && res.statuses == before.statuses + [OverLimit]
      ensures !(touch.Key() in old(localCache) && now < old(localCache)[touch.Key()]) ==>
        CountedAs(old(client.counters), client.counters, old(localCache), localCache, before.statuses, res.statuses, touch, now)
    {
      var key := touch.Key();
      if key in localCache && now < localCache[key] {
        res := Response(OverLimit, before.statuses + [OverLimit]);
      } else {
        var total := client.IncrBy(key, touch.hits);
        client.Expire(key, now + touch.period);
        if total > touch.limit {
          res := Response(OverLimit, before.statuses + [OverLimit]);
          localCache := localCache[key := now + touch.period];
        } else {
          res := before.(statuses := before.statuses + [Ok]);
        }
      }
    }

    /** The inner loop: the entries of one descriptor. */
    method ServeEntries(touches: seq<Touch>, serve: nat -> nat, before: Response) returns (res: Response)
      requires before.overall == OverLimit <==> OverLimit in before.statuses
      modifies this`localCache, client
      ensures View(client.counters, localCache, res.statuses) ==
        ServeAll(View(old(client.counters), old(localCache), before.statuses), touches, serve)
      ensures res.overall == OverLimit <==> OverLimit in res.statuses
    {
      ghost var start := View(client.counters, localCache, before.statuses);
      res := before;
      var m := 0;
      while m < |touches|
        invariant 0 <= m <= |touches|
        invariant View(client.counters, localCache, res.statuses) == ServeAll(start, touches[..m], serve)
        invariant res.overall == OverLimit <==> OverLimit in res.statuses
      {
        ServeAllLast(start, touches, m, serve);
        res := ServeEntry(touches[m], serve(|res.statuses|), res);
        m := m + 1;
      }
      assert touches[..m] == touches;
    }

    /** The outer loop: the limits of all descriptors. */
    method ServeLimits(limits: seq<seq<Touch>>, serve: nat -> nat) returns (res: Response)
      modifies this`localCache, client
      ensures View(client.counters, localCache, res.statuses) == ServeAll(old(Now()), Flatten(limits), serve)
      ensures res.overall == OverLimit <==> OverLimit in res.statuses
    {
      res := Response(Ok, []);
      var n := 0;
      while n < |limits|
        invariant 0 <= n <= |limits|
        invariant View(client.counters, localCache, res.statuses) == ServeAll(old(Now()), Flatten(limits[..n]), serve)
        invariant res.overall == OverLimit <==> OverLimit in res.statuses
      {
        assert limits[..n + 1] == limits[..n] + [limits[n]];
        FlattenExtends(limits[..n], limits[n]);
        ServeAllConcat(old(Now()), Flatten(limits[..n]), limits[n], serve);
        res := ServeEntries(limits[n], serve, res);
        n := n + 1;
      }
      assert limits[..n] == limits;
    }

    /** `ShouldRateLimit`: the clock is read for each descriptor and again as each entry is
        served; without a configuration the handler follows a nil pointer. */
    method ShouldRateLimit(domain: string, descriptors: seq<seq<RequestEntry>>, hitsAddend: uint32,
                           readings: seq<nat>, serve: nat -> nat)
      returns (result: Outcome<Response>)
      requires Valid() && |readings| == |descriptors|
      modifies this`localCache, client
      ensures Valid() && (result.Panic? <==> config.None?)
      ensures result.Panic? ==> Now() == old(Now())
      ensures result.Done? ==>
        View(client.counters, localCache, result.value.statuses) ==
        ServeAll(old(Now()), Flatten(Requested(config.value, domain, descriptors, Max(1, hitsAddend), readings)), serve)
      ensures result.Done? ==> (result.value.overall == OverLimit <==> OverLimit in result.value.statuses)
      ensures config.Some? ==>
        forall t :: t in Flatten(Requested(config.value, domain, descriptors, Max(1, hitsAddend), readings)) ==>
          t.hits == if hitsAddend == 0 then 1 else hitsAddend
    {
      if config.None? {
        return Panic;
      }
      RequestedHits(config.value, domain, descriptors, Max(1, hitsAddend), readings);
      var limits := FindLimits(config.value, domain, descriptors, Max(1, hitsAddend), readings);
      var res := ServeLimits(limits, serve);
      return Done(res);
    }
  }

  // ---- Serving is a run ----

  function CountSteps(id: nat): seq<Step> {
    [IncrBy(id), Expire(id), Settle(id)]
  }

  /** First every entry is named, entry k by call id + k at its moment. */
  function NamingSteps(id: nat, replica: nat, domain: string, touches: seq<Touch>, moments: seq<nat>): seq<Step>
    requires |moments| == |touches|
    decreases |touches|
  {
    if touches == [] then []
    else
      var n := |touches| - 1;
      NamingSteps(id, replica, domain, touches[..n], moments[..n])
      + [Tick(moments[n]), Begin(id + n, replica), Name(id + n, domain, touches[n].prefix, touches[n].hits)]
  }

  /** Serving one call; after a cache hit the last three steps cannot happen. */
  function TurnSteps(id: nat, at: nat): seq<Step> {
    [Tick(at), Lookup(id)] + CountSteps(id)
  }

  /** Then the calls are served in order. */
  function ServingSteps(id: nat, n: nat, serve: nat -> nat): seq<Step> {
    if n == 0 then []
    else ServingSteps(id, n - 1, serve) + TurnSteps(id + (n - 1), serve(n - 1))
  }

  lemma {:induction false} RunConcat(st: State, first: seq<Step>, second: seq<Step>)
    ensures Run(st, first + second) == Run(Run(st, first), second)
  {
    if second == [] {
      assert first + second == first;
    } else {
      var n := |second| - 1;
      assert (first + second)[..|first| + n] == first + second[..n];
      RunConcat(st, first, second[..n]);
    }
  }

  lemma RunFirst(st: State, step: Step, rest: seq<Step>)
    ensures Run(st, [step] + rest) == Run(Apply(st, step), rest)
  {
    assert [step][..0] == [];
    RunConcat(st, [step], rest);
  }

  lemma RunThree(st: State, a: Step, b: Step, c: Step)
    ensures Run(st, [a, b, c]) == Apply(Apply(Apply(st, a), b), c)
  {
    assert [a, b, c] == [a] + ([b] + ([c] + []));
    RunFirst(st, a, [b] + ([c] + []));
    RunFirst(Apply(st, a), b, [c] + []);
    RunFirst(Apply(Apply(st, a), b), c, []);
  }

  /** A touch that the configuration names at this moment. */
  predicate NamedBy(config: CacheConfig, domain: string, touch: Touch, now: nat) {
    && domain in config && touch.prefix in config[domain].entries && touch.hits > 0
    && config[domain].entries[touch.prefix].unit != Unknown
    && touch == TouchOf(touch.prefix, config[domain].entries[touch.prefix], touch.hits, now)
  }

  /** No counter leaves the 32 bits of a reply while the touches are served. */
  predicate Fits(view: View, touches: seq<Touch>, serve: nat -> nat) {
    touches == [] ||
    (var n := |touches| - 1;
     && Fits(view, touches[..n], serve)
     && ValueOf(ServeAll(view, touches[..n], serve).redis, touches[n].Key()) + touches[n].hits < 0x1_0000_0000)
  }

  /** The protocol state after one touch has been served without interruption. */
  function Served(st: State, replica: nat, touch: Touch): State {
    var key := touch.Key();
    if CacheHit(st, replica, key) then
      st.(history := st.history + [Decided(touch, st.now, false, 0, OverLimit)])
    else
      var total := ValueOf(st.redis, key) + touch.hits;
      var verdict := VerdictOf(total, touch.limit);
      st.(redis := Refresh(Increment(st.redis, key, touch.hits), key, st.now + touch.period),
          caches := if verdict == Ok then st.caches
                    else st.caches[replica := CacheOf(st, replica)[key := st.now + touch.period]],
          history := st.history + [Decided(touch, st.now, true, total, verdict)])
  }

  /** INCRBY and EXPIRE, one after the other. */
  lemma CountRuns(st: State, id: nat, replica: nat, touch: Touch)
    requires id in st.calls && st.calls[id] == Call(replica, Missed(touch))
    requires ValueOf(st.redis, touch.Key()) + touch.hits < 0x1_0000_0000
    ensures
      var total := ValueOf(st.redis, touch.Key()) + touch.hits;
      Apply(Apply(st, IncrBy(id)), Expire(id)) == st.(
        calls := st.calls[id := Call(replica, Refreshed(touch, total))],
        redis := Refresh(Increment(st.redis, touch.Key(), touch.hits), touch.Key(), st.now + touch.period),
        history := st.history + [Decided(touch, st.now, true, total, VerdictOf(total, touch.limit))])
  {
    var total := ValueOf(st.redis, touch.Key()) + touch.hits;
    var one := Apply(st, IncrBy(id));
    assert one.calls == st.calls[id := Call(replica, Counted(touch, total))];
    assert Apply(one, Expire(id)).calls == st.calls[id := Call(replica, Refreshed(touch, total))];
  }

  /** The answer is settled: an exceeded limit enters the replica's cache. */
  lemma SettleRuns(st: State, id: nat, replica: nat, touch: Touch, total: nat)
    requires id in st.calls && st.calls[id] == Call(replica, Refreshed(touch, total))
    ensures Apply(st, Settle(id)) == st.(
      calls := st.calls - {id},
      caches := if VerdictOf(total, touch.limit) == Ok then st.caches
                else st.caches[replica := CacheOf(st, replica)[touch.Key() := st.now + touch.period]])
  {
  }

  /** The last three steps of a call whose key the cache does not know. */
  lemma MissRuns(st: State, id: nat, replica: nat, touch: Touch)
    requires id in st.calls && st.calls[id] == Call(replica, Missed(touch))
    requires ValueOf(st.redis, touch.Key()) + touch.hits < 0x1_0000_0000
    requires !CacheHit(st, replica, touch.Key())
    ensures Apply(Apply(Apply(st, IncrBy(id)), Expire(id)), Settle(id)) ==
      Served(st, replica, touch).(calls := st.calls - {id})
  {
    var total := ValueOf(st.redis, touch.Key()) + touch.hits;
    CountRuns(st, id, replica, touch);
    var two := Apply(Apply(st, IncrBy(id)), Expire(id));
    SettleRuns(two, id, replica, touch, total);
    assert two.calls - {id} == st.calls - {id};
  }

  lemma HitRuns(st: State, id: nat, replica: nat, touch: Touch)
    requires id in st.calls && st.calls[id] == Call(replica, Named(touch)) && CacheHit(st, replica, touch.Key())
    ensures Apply(Apply(Apply(Apply(st, Lookup(id)), IncrBy(id)), Expire(id)), Settle(id)) ==
      Served(st, replica, touch).(calls := st.calls - {id})
  {
    assert id !in Apply(st, Lookup(id)).calls;
  }

  lemma LookupRuns(st: State, id: nat, replica: nat, touch: Touch)
    requires id in st.calls && st.calls[id] == Call(replica, Named(touch))
    requires ValueOf(st.redis, touch.Key()) + touch.hits < 0x1_0000_0000
    ensures Apply(Apply(Apply(Apply(st, Lookup(id)), IncrBy(id)), Expire(id)), Settle(id)) ==
      Served(st, replica, touch).(calls := st.calls - {id})
  {
    if CacheHit(st, replica, touch.Key()) {
      HitRuns(st, id, replica, touch);
    } else {
      var one := st.(calls := st.calls[id := Call(replica, Missed(touch))]);
      assert Apply(st, Lookup(id)) == one;
      MissRuns(one, id, replica, touch);
      assert one.calls - {id} == st.calls - {id};
      ServedIgnoresCalls(st, one.calls, replica, touch);
    }
  }

  lemma ServedIgnoresCalls(st: State, calls: map<nat, Call>, replica: nat, touch: Touch)
    ensures Served(st.(calls := calls), replica, touch) == Served(st, replica, touch).(calls := calls)
  {
    assert CacheHit(st.(calls := calls), replica, touch.Key()) == CacheHit(st, replica, touch.Key());
  }

  /** One turn of the handler's loop: the clock, then the steps of one call. */
  lemma TurnRuns(st: State, id: nat, replica: nat, touch: Touch, at: nat)
    requires id in st.calls && st.calls[id] == Call(replica, Named(touch)) && st.now <= at
    requires ValueOf(st.redis, touch.Key()) + touch.hits < 0x1_0000_0000
    ensures Run(st, TurnSteps(id, at)) ==
      Served(st.(now := at), replica, touch).(calls := st.calls - {id})
  {
    var ticked := st.(now := at);
    assert TurnSteps(id, at) == [Tick(at)] + ([Lookup(id)] + CountSteps(id));
    RunFirst(st, Tick(at), [Lookup(id)] + CountSteps(id));
    RunFirst(ticked, Lookup(id), CountSteps(id));
    RunThree(Apply(ticked, Lookup(id)), IncrBy(id), Expire(id), Settle(id));
    LookupRuns(ticked, id, replica, touch);
  }

  lemma BeginRuns(st: State, id: nat, replica: nat)
    requires id !in st.calls && replica in st.configs
    ensures Apply(st, Begin(id, replica)) == st.(calls := st.calls[id := Call(replica, Begun(st.configs[replica]))])
  {
  }

  lemma NamedRuns(st: State, id: nat, replica: nat, config: CacheConfig, domain: string, touch: Touch)
    requires id in st.calls && st.calls[id] == Call(replica, Begun(config)) && NamedBy(config, domain, touch, st.now)
    ensures Apply(st, Name(id, domain, touch.prefix, touch.hits)) ==
      st.(calls := st.calls[id := Call(replica, Named(touch))])
  {
  }

  /** The clock, the configuration and the key, for one entry. */
  lemma NameRuns(st: State, id: nat, replica: nat, domain: string, touch: Touch, at: nat)
    requires id !in st.calls && replica in st.configs && NamedBy(st.configs[replica], domain, touch, at) && st.now <= at
    ensures Run(st, [Tick(at), Begin(id, replica), Name(id, domain, touch.prefix, touch.hits)]) ==
      st.(now := at, calls := st.calls[id := Call(replica, Named(touch))])
  {
    var ticked := st.(now := at);
    var begun := ticked.(calls := st.calls[id := Call(replica, Begun(st.configs[replica]))]);
    RunThree(st, Tick(at), Begin(id, replica), Name(id, domain, touch.prefix, touch.hits));
    BeginRuns(ticked, id, replica);
    NamedRuns(begun, id, replica, st.configs[replica], domain, touch);
    assert begun.calls[id := Call(replica, Named(touch))] == st.calls[id := Call(replica, Named(touch))];
  }

  // ---- Naming a whole request ----

  predicate Waits(calls: map<nat, Call>, id: nat, replica: nat, touch: Touch) {
    id in calls && calls[id] == Call(replica, Named(touch))
  }

  /** The calls from the j-th on have named their touches. */
  predicate Waiting(calls: map<nat, Call>, id: nat, replica: nat, touches: seq<Touch>, j: nat) {
    forall k :: j <= k < |touches| ==> Waits(calls, id + k, replica, touches[k])
  }

  predicate Unused(calls: map<nat, Call>, id: nat) {
    forall i :: i >= id ==> i !in calls
  }

  predicate Rising(moments: seq<nat>) {
    forall i, j :: 0 <= i <= j < |moments| ==> moments[i] <= moments[j]
  }

  predicate AllNamed(config: CacheConfig, domain: string, touches: seq<Touch>, moments: seq<nat>) {
    |moments| == |touches| && forall k :: 0 <= k < |touches| ==> NamedBy(config, domain, touches[k], moments[k])
  }

  function LastOf(start: nat, moments: seq<nat>): nat {
    if moments == [] then start else moments[|moments| - 1]
  }

  /** Nothing but the clock and the calls has changed, and the calls have named their touches. */
  predicate NamedAll(st: State, after: State, id: nat, replica: nat, touches: seq<Touch>) {
    && after == st.(now := after.now, calls := after.calls)
    && Waiting(after.calls, id, replica, touches, 0) && Unused(after.calls, id + |touches|)
  }

  lemma WaitingExtends(calls: map<nat, Call>, id: nat, replica: nat, touches: seq<Touch>, touch: Touch)
    requires Waiting(calls, id, replica, touches, 0) && Unused(calls, id + |touches|)
    ensures var more := calls[id + |touches| := Call(replica, Named(touch))];
      Waiting(more, id, replica, touches + [touch], 0) && Unused(more, id + |touches| + 1)
  {
    var more := calls[id + |touches| := Call(replica, Named(touch))];
    forall k | 0 <= k < |touches| + 1
      ensures Waits(more, id + k, replica, (touches + [touch])[k])
    {
      assert k < |touches| ==> Waits(calls, id + k, replica, touches[k]);
    }
  }

  lemma OneMoreNamed(st: State, mid: State, id: nat, replica: nat, domain: string, touches: seq<Touch>, touch: Touch, at: nat)
    requires NamedAll(st, mid, id, replica, touches) && mid.now <= at
    requires replica in st.configs && NamedBy(st.configs[replica], domain, touch, at)
    ensures var next := id + |touches|;
      var after := Run(mid, [Tick(at), Begin(next, replica), Name(next, domain, touch.prefix, touch.hits)]);
      NamedAll(st, after, id, replica, touches + [touch]) && after.now == at
  {
    NameRuns(mid, id + |touches|, replica, domain, touch, at);
    WaitingExtends(mid.calls, id, replica, touches, touch);
  }

  lemma RisingRest(start: nat, moments: seq<nat>)
    requires moments != [] && Rising([start] + moments)
    ensures var n := |moments| - 1; Rising([start] + moments[..n]) && LastOf(start, moments[..n]) <= moments[n]
  {
    var all, n := [start] + moments, |moments| - 1;
    assert forall i :: 0 <= i <= n ==> ([start] + moments[..n])[i] == all[i];
    assert all[n] == LastOf(start, moments[..n]) && all[n + 1] == moments[n];
  }

  lemma NamingStepsRun(st: State, id: nat, replica: nat, domain: string, touches: seq<Touch>, moments: seq<nat>)
    requires touches != [] && |moments| == |touches|
    ensures var n := |touches| - 1;
      Run(st, NamingSteps(id, replica, domain, touches, moments)) ==
      Run(Run(st, NamingSteps(id, replica, domain, touches[..n], moments[..n])),
          [Tick(moments[n]), Begin(id + n, replica), Name(id + n, domain, touches[n].prefix, touches[n].hits)])
  {
    var n := |touches| - 1;
    RunConcat(st, NamingSteps(id, replica, domain, touches[..n], moments[..n]),
              [Tick(moments[n]), Begin(id + n, replica), Name(id + n, domain, touches[n].prefix, touches[n].hits)]);
  }

  lemma {:induction false} NamingRuns(st: State, id: nat, replica: nat, domain: string, touches: seq<Touch>, moments: seq<nat>)
    requires replica in st.configs && AllNamed(st.configs[replica], domain, touches, moments)
    requires Unused(st.calls, id) && Rising([st.now] + moments)
    ensures var after := Run(st, NamingSteps(id, replica, domain, touches, moments));
      NamedAll(st, after, id, replica, touches) && after.now == LastOf(st.now, moments)
    decreases |touches|
  {
    if touches != [] {
      var n := |touches| - 1;
      RisingRest(st.now, moments);
      NamingRuns(st, id, replica, domain, touches[..n], moments[..n]);
      var mid := Run(st, NamingSteps(id, replica, domain, touches[..n], moments[..n]));
      NamingStepsRun(st, id, replica, domain, touches, moments);
      OneMoreNamed(st, mid, id, replica, domain, touches[..n], touches[n], moments[n]);
      assert touches[..n] + [touches[n]] == touches;
    }
  }

  // ---- Serving a whole request ----

  /** The store and the replica's cache are as the view says. */
  predicate Shows(st: State, replica: nat, view: View) {
    st.redis == view.redis && CacheOf(st, replica) == view.cache
  }

  lemma ServedShows(st: State, replica: nat, touch: Touch, view: View)
    requires Shows(st, replica, view)
    ensures Shows(Served(st, replica, touch), replica, ServeOne(view, touch, st.now))
    ensures var e := Served(st, replica, touch).history[|st.history|];
      && e.Decided? && e.touch == touch && e.at == st.now
      && ServeOne(view, touch, st.now).statuses == view.statuses + [e.verdict]
      && Served(st, replica, touch).history == st.history + [e]
  {
  }

  /** Each touch's event carries the status that was answered for it. */
  predicate Answers(events: seq<Event>, touches: seq<Touch>, statuses: seq<Verdict>, serve: nat -> nat) {
    && |events| == |touches| == |statuses|
    && forall i :: 0 <= i < |touches| ==>
         events[i].Decided? && events[i].touch == touches[i] && events[i].at == serve(i) && events[i].verdict == statuses[i]
  }

  /** The clock does not go back while n entries are served. */
  predicate Forward(start: nat, serve: nat -> nat, n: nat) {
    && (n > 0 ==> start <= serve(0))
    && forall k :: 0 < k < n ==> serve(k - 1) <= serve(k)
  }

  /** What serving leaves: the store and the cache as the view says, and an event for each of
      its statuses. */
  predicate RunServes(st: State, after: State, replica: nat, touches: seq<Touch>, reached: View, serve: nat -> nat,
                      events: seq<Event>) {
    && Shows(after, replica, reached)
    && after.history == st.history + events
    && Answers(events, touches, reached.statuses, serve)
  }

  lemma AnswersExtend(events: seq<Event>, touches: seq<Touch>, statuses: seq<Verdict>, serve: nat -> nat, event: Event)
    requires Answers(events, touches, statuses, serve) && event.Decided? && event.at == serve(|touches|)
    ensures Answers(events + [event], touches + [event.touch], statuses + [event.verdict], serve)
  {
  }

  lemma OneMoreServed(st: State, mid: State, calls: map<nat, Call>, replica: nat, touches: seq<Touch>, touch: Touch,
                      reached: View, serve: nat -> nat, events: seq<Event>) returns (event: Event)
    requires RunServes(st, mid, replica, touches, reached, serve, events)
    ensures var at := serve(|touches|);
      RunServes(st, Served(mid.(now := at), replica, touch).(calls := calls), replica, touches + [touch],
                ServeOne(reached, touch, at), serve, events + [event])
  {
    var ticked := mid.(now := serve(|touches|));
    ServedShows(ticked, replica, touch, reached);
    event := Served(ticked, replica, touch).history[|mid.history|];
    AnswersExtend(events, touches, reached.statuses, serve, event);
  }

  lemma WaitingRest(calls: map<nat, Call>, id: nat, replica: nat, touches: seq<Touch>, n: nat)
    requires Waiting(calls, id, replica, touches, n)
    ensures Waiting(calls - {id + n}, id, replica, touches, n + 1)
  {
    forall k | n + 1 <= k < |touches|
      ensures Waits(calls - {id + n}, id + k, replica, touches[k])
    {
      assert Waits(calls, id + k, replica, touches[k]);
    }
  }

  /** The first n of the named touches have been served. */
  predicate Midway(st: State, after: State, id: nat, replica: nat, touches: seq<Touch>, n: nat, reached: View,
                   serve: nat -> nat, events: seq<Event>)
    requires n <= |touches|
  {
    && RunServes(st, after, replica, touches[..n], reached, serve, events)
    && Waiting(after.calls, id, replica, touches, n)
    && after.now == if n == 0 then st.now else serve(n - 1)
  }

  lemma NextTurn(st: State, mid: State, id: nat, replica: nat, touches: seq<Touch>, n: nat, reached: View,
                 serve: nat -> nat, events: seq<Event>) returns (after: State, event: Event)
    requires n < |touches| && Midway(st, mid, id, replica, touches, n, reached, serve, events) && mid.now <= serve(n)
    requires ValueOf(reached.redis, touches[n].Key()) + touches[n].hits < 0x1_0000_0000
    ensures after == Run(mid, TurnSteps(id + n, serve(n)))
    ensures Midway(st, after, id, replica, touches, n + 1, ServeOne(reached, touches[n], serve(n)), serve, events + [event])
  {
    assert Waits(mid.calls, id + n, replica, touches[n]);
    TurnRuns(mid, id + n, replica, touches[n], serve(n));
    event := OneMoreServed(st, mid, mid.calls - {id + n}, replica, touches[..n], touches[n], reached, serve, events);
    assert touches[..n] + [touches[n]] == touches[..n + 1];
    WaitingRest(mid.calls, id, replica, touches, n);
    after := Served(mid.(now := serve(n)), replica, touches[n]).(calls := mid.calls - {id + n});
  }

  lemma ServeAllNext(view: View, touches: seq<Touch>, n: nat, serve: nat -> nat)
    requires n < |touches| && view.statuses == []
    ensures ServeAll(view, touches[..n + 1], serve) == ServeOne(ServeAll(view, touches[..n], serve), touches[n], serve(n))
    ensures Fits(view, touches[..n + 1], serve) ==>
      && Fits(view, touches[..n], serve)
      && ValueOf(ServeAll(view, touches[..n], serve).redis, touches[n].Key()) + touches[n].hits < 0x1_0000_0000
  {
    assert touches[..n + 1][..n] == touches[..n];
  }

  lemma ServingStepsRun(st: State, id: nat, n: nat, serve: nat -> nat)
    ensures Run(st, ServingSteps(id, n + 1, serve)) == Run(Run(st, ServingSteps(id, n, serve)), TurnSteps(id + n, serve(n)))
  {
    RunConcat(st, ServingSteps(id, n, serve), TurnSteps(id + n, serve(n)));
  }

  lemma NothingServed(st: State, id: nat, replica: nat, touches: seq<Touch>, view: View, serve: nat -> nat)
    requires Waiting(st.calls, id, replica, touches, 0) && Shows(st, replica, view) && view.statuses == []
    ensures Midway(st, st, id, replica, touches, 0, view, serve, [])
  {
    assert st.history + [] == st.history;
  }

  /** From n served touches to n + 1. */
  lemma ServeOneMore(st: State, mid: State, id: nat, replica: nat, touches: seq<Touch>, n: nat, reached: View,
                     serve: nat -> nat, some: seq<Event>) returns (after: State, events: seq<Event>)
    requires n < |touches| && mid == Run(st, ServingSteps(id, n, serve)) && mid.now <= serve(n)
    requires Midway(st, mid, id, replica, touches, n, reached, serve, some)
    requires ValueOf(reached.redis, touches[n].Key()) + touches[n].hits < 0x1_0000_0000
    ensures after == Run(st, ServingSteps(id, n + 1, serve))
    ensures Midway(st, after, id, replica, touches, n + 1, ServeOne(reached, touches[n], serve(n)), serve, events)
  {
    ServingStepsRun(st, id, n, serve);
    var event: Event;
    after, event := NextTurn(st, mid, id, replica, touches, n, reached, serve, some);
    events := some + [event];
  }

  /** Serving the named calls of a request in order gains the history exactly its touches, each
      with the status that the response carries. */
  lemma {:induction false} ServingIsARun(st: State, id: nat, replica: nat, touches: seq<Touch>, n: nat, view: View,
                                         serve: nat -> nat, reached: View) returns (after: State, events: seq<Event>)
    requires n <= |touches| && Waiting(st.calls, id, replica, touches, 0) && Shows(st, replica, view)
    requires view.statuses == [] && Fits(view, touches[..n], serve) && Forward(st.now, serve, n)
    requires reached == ServeAll(view, touches[..n], serve)
    ensures after == Run(st, ServingSteps(id, n, serve))
    ensures Midway(st, after, id, replica, touches, n, reached, serve, events)
  {
    if n == 0 {
      NothingServed(st, id, replica, touches, view, serve);
      after, events := st, [];
    } else {
      var before := ServeAll(view, touches[..n - 1], serve);
      ServeAllNext(view, touches, n - 1, serve);
      var mid, some := ServingIsARun(st, id, replica, touches, n - 1, view, serve, before);
      after, events := ServeOneMore(st, mid, id, replica, touches, n - 1, before, serve, some);
    }
  }

  // ---- The touches of a request ----

  lemma NamedTogether(config: CacheConfig, domain: string, touches: seq<Touch>, moments: seq<nat>, own: seq<Touch>, now: nat)
    requires AllNamed(config, domain, touches, moments) && Rising(moments) && forall m :: m in moments ==> m <= now
    requires forall t :: t in own ==> NamedBy(config, domain, t, now)
    ensures var all := moments + seq(|own|, _ => now);
      AllNamed(config, domain, touches + own, all) && Rising(all) && forall m :: m in all ==> m <= now
  {
    var all := moments + seq(|own|, _ => now);
    forall k | 0 <= k < |touches + own|
      ensures NamedBy(config, domain, (touches + own)[k], all[k]) && all[k] <= now
    {
      if k < |touches| {
        assert moments[k] in moments;
      } else {
        assert (touches + own)[k] == own[k - |touches|];
      }
    }
    assert forall k :: |moments| <= k < |all| ==> all[k] == now;
  }

  /** All touches of a request are named by the configuration, in time order, each no later
      than the last reading of the clock and no earlier than the first. */
  lemma {:induction false} RequestedAreNamed(config: CacheConfig, domain: string, descriptors: seq<seq<RequestEntry>>,
                                             hits: nat, readings: seq<nat>, start: nat) returns (moments: seq<nat>)
    requires Known(Some(config)) && |readings| == |descriptors| && hits > 0 && Rising([start] + readings)
    ensures AllNamed(config, domain, Flatten(Requested(config, domain, descriptors, hits, readings)), moments)
    ensures Rising(moments) && forall m :: m in moments ==> start <= m <= LastOf(start, readings)
    decreases |descriptors|
  {
    moments := [];
    if descriptors != [] && domain in config {
      var n := |descriptors| - 1;
      RisingRest(start, readings);
      assert ([start] + readings)[0] <= ([start] + readings)[n + 1];
      var earlier := RequestedAreNamed(config, domain, descriptors[..n], hits, readings[..n], start);
      var limits := Requested(config, domain, descriptors[..n], hits, readings[..n]);
      var own := NameTouches(config[domain], descriptors[n], hits, readings[n]);
      FlattenExtends(limits, own);
      NamedTouches(config, domain, descriptors[n], hits, readings[n]);
      assert forall m :: m in earlier ==> m <= LastOf(start, readings[..n]) <= readings[n];
      NamedTogether(config, domain, Flatten(limits), earlier, own, readings[n]);
      moments := earlier + seq(|own|, _ => readings[n]);
    }
  }

  lemma FlattenExtends(limits: seq<seq<Touch>>, own: seq<Touch>)
    ensures Flatten(limits + [own]) == Flatten(limits) + own
  {
    assert (limits + [own])[..|limits|] == limits;
  }

  lemma {:induction false} NamedTouches(config: CacheConfig, domain: string, request: seq<RequestEntry>, hits: nat, now: nat)
    requires domain in config && config[domain].KnownUnits() && hits > 0
    ensures forall t :: t in NameTouches(config[domain], request, hits, now) ==> NamedBy(config, domain, t, now)
  {
    if request != [] {
      NamedTouches(config, domain, request[..|request| - 1], hits, now);
    }
  }
}
