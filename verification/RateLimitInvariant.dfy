/** Every run of the rate limiter keeps the invariant, so every history is sound. */
module RateLimitInvariant {
  import opened RateLimitIndex
  import opened RateLimitProtocol

  /** What is known of a call only grows stronger as time and history advance. */
  lemma CallSoundGrows(policy: string -> Policy, history: seq<Event>, event: Event, now: nat, phase: Phase)
    requires CallSound(policy, history, now, phase)
    ensures CallSound(policy, history + [event], now, phase)
  {
    if phase.Counted? || phase.Refreshed? {
      HistoryGrows(history, event, phase.touch.Key());
    }
  }

  lemma CachesSoundGrow(caches: map<nat, map<string, nat>>, history: seq<Event>, event: Event)
    requires CachesSound(caches, history)
    ensures CachesSound(caches, history + [event])
  {
    forall replica, key | replica in caches && key in caches[replica]
      ensures Exceeded(history + [event], key)
    {
      HistoryGrows(history, event, key);
    }
  }

  lemma TickKeeps(policy: string -> Policy, st: State, to: nat)
    requires Inv(policy, st) && Enabled(st, Tick(to)) && Allowed(policy, Tick(to))
    ensures Inv(policy, Take(st, Tick(to)))
  {
  }

  lemma ConfigStepKeeps(policy: string -> Policy, st: State, step: Step)
    requires Inv(policy, st) && Enabled(st, step) && Allowed(policy, step)
    requires step.Reload? || step.Begin?
    ensures Inv(policy, Take(st, step))
  {
  }

  lemma NameKeeps(policy: string -> Policy, st: State, step: Step)
    requires Inv(policy, st) && Enabled(st, step) && step.Name?
    ensures Inv(policy, Take(st, step))
  {
    assert CallSound(policy, st.history, st.now, st.calls[step.id].phase);
    NamedConforms(policy, st.calls[step.id].phase.config, step.domain, step.entry, step.hits, st.now);
  }

  lemma LookupKeeps(policy: string -> Policy, st: State, step: Step)
    requires Inv(policy, st) && Enabled(st, step) && step.Lookup?
    ensures Inv(policy, Take(st, step))
  {
    var touch := st.calls[step.id].phase.touch;
    assert CallSound(policy, st.history, st.now, st.calls[step.id].phase);
    if CacheHit(st, st.calls[step.id].replica, touch.Key()) {
      var event := Decided(touch, st.now, false, 0, OverLimit);
      SoundExtends(policy, st.history, event);
      UncountedKeeps(policy, st, event);
    }
  }

  /** A decision from the local cache changes nothing that the store or the caches rely on. */
  lemma UncountedKeeps(policy: string -> Policy, st: State, event: Event)
    requires Inv(policy, st) && event.Decided? && !event.counted
    ensures RedisSound(policy, st.redis, st.history + [event])
    ensures CachesSound(st.caches, st.history + [event])
    ensures forall id :: id in st.calls ==> CallSound(policy, st.history + [event], st.now, st.calls[id].phase)
  {
    forall key
      ensures CountedSince(st.history + [event], key) == CountedSince(st.history, key)
    {
      HistoryGrows(st.history, event, key);
    }
    CachesSoundGrow(st.caches, st.history, event);
    forall id | id in st.calls
      ensures CallSound(policy, st.history + [event], st.now, st.calls[id].phase)
    {
      CallSoundGrows(policy, st.history, event, st.now, st.calls[id].phase);
    }
  }

  /** The event that an enabled INCRBY records. */
  function IncrEvent(st: State, id: nat): Event
    requires Enabled(st, IncrBy(id))
  {
    var touch := st.calls[id].phase.touch;
    var total := ValueOf(st.redis, touch.Key()) + touch.hits;
    Decided(touch, st.now, true, total, VerdictOf(total, touch.limit))
  }

  lemma CallsSoundGrow(policy: string -> Policy, history: seq<Event>, event: Event, now: nat, calls: map<nat, Call>)
    requires CallsSound(policy, history, now, calls)
    ensures CallsSound(policy, history + [event], now, calls)
  {
    forall id | id in calls
      ensures CallSound(policy, history + [event], now, calls[id].phase)
    {
      CallSoundGrows(policy, history, event, now, calls[id].phase);
    }
  }

  /** The counting call knows the reply to its INCRBY. */
  lemma IncrByKeepsCalls(policy: string -> Policy, st: State, id: nat)
    requires CallsSound(policy, st.history, st.now, st.calls) && Enabled(st, IncrBy(id))
    ensures var after := Take(st, IncrBy(id)); CallsSound(policy, after.history, st.now, after.calls)
  {
    var event := IncrEvent(st, id);
    var counted := Counted(event.touch, event.total);
    CallsSoundGrow(policy, st.history, event, st.now, st.calls);
    assert CallSound(policy, st.history, st.now, st.calls[id].phase);
    assert (st.history + [event])[..|st.history|] == st.history;
    assert CallSound(policy, st.history + [event], st.now, counted);
  }

  lemma IncrByKeeps(policy: string -> Policy, st: State, id: nat)
    requires Inv(policy, st) && Enabled(st, IncrBy(id))
    ensures Inv(policy, Take(st, IncrBy(id)))
  {
    var event := IncrEvent(st, id);
    IncrByIsSound(policy, st, id);
    IncrementCounts(policy, st.redis, st.history, event);
    CachesSoundGrow(st.caches, st.history, event);
    IncrByKeepsCalls(policy, st, id);
  }

  lemma IncrByIsSound(policy: string -> Policy, st: State, id: nat)
    requires CallsSound(policy, st.history, st.now, st.calls) && RedisSound(policy, st.redis, st.history)
    requires Sound(policy, st.history) && LastTime(st.history) <= st.now && Enabled(st, IncrBy(id))
    ensures Sound(policy, st.history + [IncrEvent(st, id)])
  {
    assert CallSound(policy, st.history, st.now, st.calls[id].phase);
    SoundExtends(policy, st.history, IncrEvent(st, id));
  }

  lemma IncrementCounts(policy: string -> Policy, redis: map<string, Counter>, history: seq<Event>, event: Event)
    requires RedisSound(policy, redis, history) && event.Decided? && event.counted
    ensures RedisSound(policy, Increment(redis, event.touch.Key(), event.touch.hits), history + [event])
  {
    var key := event.touch.Key();
    var after := Increment(redis, key, event.touch.hits);
    forall k
      ensures ValueOf(after, k) == CountedSince(history + [event], k)
    {
      HistoryGrows(history, event, k);
    }
  }

  lemma ExpireKeeps(policy: string -> Policy, st: State, step: Step)
    requires Inv(policy, st) && Enabled(st, step) && step.Expire?
    ensures Inv(policy, Take(st, step))
  {
    var touch := st.calls[step.id].phase.touch;
    assert CallSound(policy, st.history, st.now, st.calls[step.id].phase);
    DeadlineCoversWindow(policy, touch, st.now);
  }

  lemma SettleKeeps(policy: string -> Policy, st: State, step: Step)
    requires Inv(policy, st) && Enabled(st, step) && (step.Settle? || step.Evict?)
    ensures Inv(policy, Take(st, step))
  {
    if step.Settle? {
      assert CallSound(policy, st.history, st.now, st.calls[step.id].phase);
    }
  }

  lemma PurgeKeeps(policy: string -> Policy, st: State, step: Step)
    requires Inv(policy, st) && Enabled(st, step) && step.Purge?
    ensures Inv(policy, Take(st, step))
  {
    var event := Dropped(step.key, st.now);
    SoundExtends(policy, st.history, event);
    forall k
      ensures ValueOf(st.redis - {step.key}, k) == CountedSince(st.history + [event], k)
    {
      HistoryGrows(st.history, event, k);
    }
    CachesSoundGrow(st.caches, st.history, event);
    forall id | id in st.calls
      ensures CallSound(policy, st.history + [event], st.now, st.calls[id].phase)
    {
      CallSoundGrows(policy, st.history, event, st.now, st.calls[id].phase);
    }
  }

  lemma StepKeeps(policy: string -> Policy, st: State, step: Step)
    requires Inv(policy, st) && Allowed(policy, step)
    ensures Inv(policy, Apply(st, step))
  {
    if Enabled(st, step) {
      match step
      case Tick(to) => TickKeeps(policy, st, to);
      case Reload(_, _) => ConfigStepKeeps(policy, st, step);
      case Begin(_, _) => ConfigStepKeeps(policy, st, step);
      case Name(_, _, _, _) => NameKeeps(policy, st, step);
      case Lookup(_) => LookupKeeps(policy, st, step);
      case IncrBy(id) => IncrByKeeps(policy, st, id);
      case Expire(_) => ExpireKeeps(policy, st, step);
      case Settle(_) => SettleKeeps(policy, st, step);
      case Evict(_, _) => SettleKeeps(policy, st, step);
      case Purge(_) => PurgeKeeps(policy, st, step);
    }
  }

  lemma {:induction false} RunKeeps(policy: string -> Policy, st: State, steps: seq<Step>)
    requires Inv(policy, st) && AllAllowed(policy, steps)
    ensures Inv(policy, Run(st, steps))
  {
    if steps != [] {
      var n := |steps| - 1;
      RunKeeps(policy, st, steps[..n]);
      StepKeeps(policy, Run(st, steps[..n]), steps[n]);
    }
  }

  /** Whatever the replicas, the environment and the scheduler do, the history is sound. */
  lemma EveryHistoryIsSound(policy: string -> Policy, now: nat, steps: seq<Step>)
    requires ClockInRange(now) && AllAllowed(policy, steps)
    ensures Sound(policy, Run(Start(now), steps).history)
  {
    RunKeeps(policy, Start(now), steps);
  }
}
