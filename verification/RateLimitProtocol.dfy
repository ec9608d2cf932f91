/** Any number of rate-limit replicas over one Redis store, as a machine of atomic steps.

    A request's entries are served by independent calls, which allows every interleaving
    that the sequential loop over them has, and more. The history records each decision
    where it becomes final: at the local cache hit, or at the INCRBY whose reply is
    compared with the limit; and it records the keys that Redis lets expire. */
module RateLimitProtocol {
  import opened Text
  import opened RateLimitIndex

  // ---- State ----

  /** A Redis counter; a fresh one has no deadline until EXPIRE gives it one. */
  datatype Counter = Counter(value: nat, deadline: Option<nat>)

  datatype Verdict = Ok | OverLimit

  datatype Phase =
    | Begun(config: CacheConfig)             // the configuration has been read
    | Named(touch: Touch)                    // the clock has been read, the key is built
    | Missed(touch: Touch)                   // the local cache does not know the key
    | Counted(touch: Touch, total: nat)      // INCRBY answered
    | Refreshed(touch: Touch, total: nat)    // EXPIRE answered

  datatype Call = Call(replica: nat, phase: Phase)

  datatype Event =
    | Decided(touch: Touch, at: nat, counted: bool, total: nat, verdict: Verdict)
    | Dropped(key: string, at: nat)
  {
    /** A decision taken before the window that its touch names has ended. */
    predicate OnTime() {
      Decided? && at < touch.End()
    }
  }

  datatype State = State(
    now: nat,
    configs: map<nat, CacheConfig>,
    redis: map<string, Counter>,
    caches: map<nat, map<string, nat>>,
    calls: map<nat, Call>,
    history: seq<Event>)

  // ---- Steps ----

  datatype Step =
    | Tick(to: nat)
    | Reload(replica: nat, config: Option<CacheConfig>)  // a failed reload stores nil
    | Begin(id: nat, replica: nat)
    | Name(id: nat, domain: string, entry: string, hits: nat)
    | Lookup(id: nat)
    | IncrBy(id: nat)
    | Expire(id: nat)
    | Settle(id: nat)
    | Evict(replica: nat, key: string)
    | Purge(key: string)

  function CacheOf(st: State, replica: nat): map<string, nat> {
    if replica in st.caches then st.caches[replica] else map[]
  }

  /** The counter value that INCRBY starts from. */
  function ValueOf(redis: map<string, Counter>, key: string): nat {
    if key in redis then redis[key].value else 0
  }

  /** INCRBY keeps the deadline of a live key and creates a missing one without deadline. */
  function Increment(redis: map<string, Counter>, key: string, hits: nat): map<string, Counter> {
    redis[key := Counter(ValueOf(redis, key) + hits, if key in redis then redis[key].deadline else None)]
  }

  /** EXPIRE does nothing to a missing key. */
  function Refresh(redis: map<string, Counter>, key: string, deadline: nat): map<string, Counter> {
    if key in redis then redis[key := redis[key].(deadline := Some(deadline))] else redis
  }

  function VerdictOf(total: nat, limit: nat): Verdict {
    if total > limit then OverLimit else Ok
  }

  /** freecache answers only entries whose deadline lies ahead. */
  predicate CacheHit(st: State, replica: nat, key: string) {
    key in CacheOf(st, replica) && st.now < CacheOf(st, replica)[key]
  }

  /** When a step can happen. Counters stay within the 32 bits of the reply's destination. */
  predicate Enabled(st: State, step: Step) {
    match step
    case Tick(to) => st.now <= to
    case Reload(_, _) => true
    case Begin(id, replica) => id !in st.calls && replica in st.configs
    case Name(id, domain, entry, hits) =>
      && id in st.calls && st.calls[id].phase.Begun? && hits > 0
      && var config := st.calls[id].phase.config;
         domain in config && entry in config[domain].entries && config[domain].entries[entry].unit != Unknown
    case Lookup(id) => id in st.calls && st.calls[id].phase.Named?
    case IncrBy(id) =>
      && id in st.calls && st.calls[id].phase.Missed?
      && var touch := st.calls[id].phase.touch;
         ValueOf(st.redis, touch.Key()) + touch.hits < 0x1_0000_0000
    case Expire(id) => id in st.calls && st.calls[id].phase.Counted?
    case Settle(id) => id in st.calls && st.calls[id].phase.Refreshed?
    case Evict(_, _) => true
    case Purge(key) => key in st.redis && st.redis[key].deadline.Some? && st.redis[key].deadline.value <= st.now
  }

  function SetPhase(st: State, id: nat, phase: Phase): State
    requires id in st.calls
  {
    st.(calls := st.calls[id := st.calls[id].(phase := phase)])
  }

  function Take(st: State, step: Step): State
    requires Enabled(st, step)
  {
    match step
    case Tick(to) => st.(now := to)
    case Reload(replica, config) =>
      st.(configs := if config.Some? then st.configs[replica := config.value] else st.configs - {replica})
    case Begin(id, replica) => st.(calls := st.calls[id := Call(replica, Begun(st.configs[replica]))])
    case Name(id, domain, entry, hits) =>
      SetPhase(st, id, Named(TouchOf(entry, st.calls[id].phase.config[domain].entries[entry], hits, st.now)))
    case Lookup(id) =>
      var touch := st.calls[id].phase.touch;
      if CacheHit(st, st.calls[id].replica, touch.Key()) then
        st.(calls := st.calls - {id}, history := st.history + [Decided(touch, st.now, false, 0, OverLimit)])
      else
        SetPhase(st, id, Missed(touch))
    case IncrBy(id) =>
      var touch := st.calls[id].phase.touch;
      var total := ValueOf(st.redis, touch.Key()) + touch.hits;
      SetPhase(st, id, Counted(touch, total)).(
        redis := Increment(st.redis, touch.Key(), touch.hits),
        history := st.history + [Decided(touch, st.now, true, total, VerdictOf(total, touch.limit))])
    case Expire(id) =>
      var touch := st.calls[id].phase.touch;
      SetPhase(st, id, Refreshed(touch, st.calls[id].phase.total)).(
        redis := Refresh(st.redis, touch.Key(), st.now + touch.period))
    case Settle(id) =>
      var touch, replica := st.calls[id].phase.touch, st.calls[id].replica;
      st.(calls := st.calls - {id},
          caches := if VerdictOf(st.calls[id].phase.total, touch.limit) == Ok then st.caches
                    else st.caches[replica := CacheOf(st, replica)[touch.Key() := st.now + touch.period]])
    case Evict(replica, key) => st.(caches := st.caches[replica := CacheOf(st, replica) - {key}])
    case Purge(key) => st.(redis := st.redis - {key}, history := st.history + [Dropped(key, st.now)])
  }

  /** A key that the replica's cache holds alive is answered OVER_LIMIT without counting; any
      other goes on to be counted, and nothing is decided yet. */
  lemma LiveKeysAreNotCounted(st: State, id: nat)
    requires Enabled(st, Lookup(id))
    ensures var call, after := st.calls[id], Take(st, Lookup(id));
      var touch, cache := call.phase.touch, CacheOf(st, call.replica);
      && after.redis == st.redis && after.caches == st.caches
      && if touch.Key() in cache && st.now < cache[touch.Key()]
         then id !in after.calls && after.history == st.history + [Decided(touch, st.now, false, 0, OverLimit)]
         else after.history == st.history && after.calls == st.calls[id := Call(call.replica, Missed(touch))]
  {
  }

  /** A count above the limit is remembered by its replica for one period, one within it is not. */
  lemma ExcessIsRemembered(st: State, id: nat)
    requires Enabled(st, Settle(id))
    ensures var call, after := st.calls[id], Take(st, Settle(id));
      var touch, before := call.phase.touch, CacheOf(st, call.replica);
      && (call.phase.total > touch.limit ==>
           CacheOf(after, call.replica) == before[touch.Key() := st.now + touch.period])
      && (call.phase.total <= touch.limit ==> after.caches == st.caches)
      && (forall replica :: replica != call.replica ==> CacheOf(after, replica) == CacheOf(st, replica))
  {
  }

  /** What the environment may do at any time: let a cache forget any key, let Redis drop exactly
      the keys whose deadline has passed, and leave everything else as it is. */
  lemma EnvironmentForgets(st: State, replica: nat, key: string)
    ensures Enabled(st, Evict(replica, key)) && key !in CacheOf(Take(st, Evict(replica, key)), replica)
    ensures Take(st, Evict(replica, key)).(caches := st.caches) == st
    ensures Enabled(st, Purge(key)) <==> key in st.redis && st.redis[key].deadline.Some? && st.redis[key].deadline.value <= st.now
    ensures Enabled(st, Purge(key)) ==>
      Take(st, Purge(key)) == st.(redis := st.redis - {key}, history := st.history + [Dropped(key, st.now)])
  {
  }

  /** A call goes on with the configuration that was in force when it began, whatever is loaded
      meanwhile; a failed reload leaves the replica without one, and it begins no more calls. */
  lemma CallsKeepTheirConfiguration(st: State, id: nat, other: nat, replica: nat, loaded: Option<CacheConfig>)
    requires Enabled(st, Begin(id, replica))
    ensures var begun := Take(st, Begin(id, replica));
      var after := Take(begun, Reload(replica, loaded));
      && id in after.calls && after.calls[id] == Call(replica, Begun(st.configs[replica]))
      && (loaded.Some? ==> replica in after.configs && after.configs[replica] == loaded.value)
      && (loaded.None? ==> !Enabled(after, Begin(other, replica)))
  {
  }

  /** A step that cannot happen leaves the state alone, so any list of steps is a run. */
  function Apply(st: State, step: Step): State {
    if Enabled(st, step) then Take(st, step) else st
  }

  function Run(st: State, steps: seq<Step>): State {
    if steps == [] then st
    else Apply(Run(st, steps[..|steps| - 1]), steps[|steps| - 1])
  }

  function Start(now: nat): State {
    State(now, map[], map[], map[], map[], [])
  }

  // ---- What the environment is assumed to do ----

  /** What the configurations agree on for a counter prefix: its period, and bounds on its limit. */
  datatype Policy = Policy(period: nat, least: nat, most: nat)

  const LONGEST: nat := 60 * 60 * 24

  predicate ClockInRange(now: nat) {
    EARLIEST + LONGEST <= now < LATEST
  }

  predicate Within(entry: CacheEntry, bounds: Policy) {
    && entry.unit != Unknown
    && UnitToDivider(entry.unit) == bounds.period
    && bounds.least <= entry.limit <= bounds.most
  }

  /** Every domain gives a prefix the same unit, and a limit within its bounds. */
  ghost predicate Respects(config: CacheConfig, policy: string -> Policy) {
    forall domain, id :: domain in config && id in config[domain].entries ==>
      Within(config[domain].entries[id], policy(id))
  }

  ghost predicate Allowed(policy: string -> Policy, step: Step) {
    match step
    case Tick(to) => ClockInRange(to)
    case Reload(_, config) => config.Some? ==> Respects(config.value, policy)
    case _ => true
  }

  ghost predicate AllAllowed(policy: string -> Policy, steps: seq<Step>) {
    forall i :: 0 <= i < |steps| ==> Allowed(policy, steps[i])
  }

  // ---- Properties of histories ----

  /** The hits counted on a key since Redis last dropped it. */
  function CountedSince(history: seq<Event>, key: string): nat {
    if history == [] then 0
    else
      var n := |history| - 1;
      match history[n]
      case Dropped(k, _) => if k == key then 0 else CountedSince(history[..n], key)
      case Decided(touch, _, counted, _, _) =>
        CountedSince(history[..n], key) + if counted && touch.Key() == key then touch.hits else 0
  }

  /** A counted decision on the key went over its limit. */
  predicate Exceeded(history: seq<Event>, key: string) {
    history != [] &&
    (|| Exceeded(history[..|history| - 1], key)
     || (var e := history[|history| - 1]; e.Decided? && e.counted && e.touch.Key() == key && e.verdict == OverLimit))
  }

  function LastTime(history: seq<Event>): nat {
    if history == [] then 0 else history[|history| - 1].at
  }

  /** A touch as a configuration within the policy names it: one window per period. */
  ghost predicate Conforms(policy: string -> Policy, touch: Touch) {
    && touch.period == policy(touch.prefix).period
    && 0 < touch.period <= LONGEST
    && EARLIEST <= touch.start < LATEST
    && touch.start == WindowStart(touch.start, touch.period)
    && policy(touch.prefix).least <= touch.limit <= policy(touch.prefix).most
    && touch.hits > 0
  }

  /** No window that the key can name is still open at `time`. */
  ghost predicate WindowsEndBy(policy: string -> Policy, key: string, time: nat) {
    forall touch: Touch :: Conforms(policy, touch) && touch.Key() == key ==> touch.End() <= time
  }

  ghost predicate EventSound(policy: string -> Policy, before: seq<Event>, event: Event) {
    && LastTime(before) <= event.at
    && match event
       case Dropped(key, at) => WindowsEndBy(policy, key, at)
       case Decided(touch, at, counted, total, verdict) =>
         && Conforms(policy, touch)
         && touch.start <= at
         && if counted then
              && total == CountedSince(before, touch.Key()) + touch.hits
              && verdict == VerdictOf(total, touch.limit)
            else
              Exceeded(before, touch.Key()) && verdict == OverLimit
  }

  /** Each event follows from the ones before it. */
  ghost predicate Sound(policy: string -> Policy, history: seq<Event>) {
    history == [] ||
    (var n := |history| - 1;
     Sound(policy, history[..n]) && EventSound(policy, history[..n], history[n]))
  }

  lemma SoundExtends(policy: string -> Policy, history: seq<Event>, event: Event)
    requires Sound(policy, history) && EventSound(policy, history, event)
    ensures Sound(policy, history + [event])
  {
    assert (history + [event])[..|history|] == history;
  }

  lemma HistoryGrows(history: seq<Event>, event: Event, key: string)
    ensures Exceeded(history, key) ==> Exceeded(history + [event], key)
    ensures CountedSince(history + [event], key) ==
      match event
      case Dropped(k, _) => (if k == key then 0 else CountedSince(history, key))
      case Decided(touch, _, counted, _, _) =>
        CountedSince(history, key) + if counted && touch.Key() == key then touch.hits else 0
  {
    assert (history + [event])[..|history|] == history;
  }

  // ---- The inductive invariant ----

  ghost predicate CallSound(policy: string -> Policy, history: seq<Event>, now: nat, phase: Phase) {
    match phase
    case Begun(config) => Respects(config, policy)
    case Named(touch) => Conforms(policy, touch) && touch.start <= now
    case Missed(touch) => Conforms(policy, touch) && touch.start <= now
    case Counted(touch, total) => Conforms(policy, touch) && touch.start <= now && ReplySound(history, touch, total)
    case Refreshed(touch, total) => Conforms(policy, touch) && touch.start <= now && ReplySound(history, touch, total)
  }

  ghost predicate CallsSound(policy: string -> Policy, history: seq<Event>, now: nat, calls: map<nat, Call>) {
    forall id :: id in calls ==> CallSound(policy, history, now, calls[id].phase)
  }

  predicate ReplySound(history: seq<Event>, touch: Touch, total: nat) {
    VerdictOf(total, touch.limit) == OverLimit ==> Exceeded(history, touch.Key())
  }

  ghost predicate RedisSound(policy: string -> Policy, redis: map<string, Counter>, history: seq<Event>) {
    && (forall key :: ValueOf(redis, key) == CountedSince(history, key))
    && (forall key :: key in redis && redis[key].deadline.Some? ==> WindowsEndBy(policy, key, redis[key].deadline.value))
  }

  ghost predicate CachesSound(caches: map<nat, map<string, nat>>, history: seq<Event>) {
    forall replica, key :: replica in caches && key in caches[replica] ==> Exceeded(history, key)
  }

  ghost predicate Inv(policy: string -> Policy, st: State) {
    && ClockInRange(st.now) && LastTime(st.history) <= st.now
    && (forall replica :: replica in st.configs ==> Respects(st.configs[replica], policy))
    && CallsSound(policy, st.history, st.now, st.calls)
    && RedisSound(policy, st.redis, st.history)
    && CachesSound(st.caches, st.history)
    && Sound(policy, st.history)
  }

  /** A name built now conforms, and its window has begun. */
  lemma NamedConforms(policy: string -> Policy, config: CacheConfig, domain: string, id: string, hits: nat, now: nat)
    requires Respects(config, policy) && ClockInRange(now) && hits > 0
    requires domain in config && id in config[domain].entries
    ensures Within(config[domain].entries[id], policy(id))
    ensures var touch := TouchOf(id, config[domain].entries[id], hits, now);
      Conforms(policy, touch) && touch.start <= now < touch.End()
  {
    assert Within(config[domain].entries[id], policy(id));
    var period := UnitToDivider(config[domain].entries[id].unit);
    StartIsAligned(now, period);
  }

  lemma StartIsAligned(now: nat, period: nat)
    requires period > 0
    ensures var start := WindowStart(now, period); start == WindowStart(start, period)
  {
    var w := now / period;
    QuotientOf(w * period, w, period);
  }

  /** EXPIRE after the window began keeps the key beyond the window's end. */
  lemma DeadlineCoversWindow(policy: string -> Policy, touch: Touch, now: nat)
    requires Conforms(policy, touch) && touch.start <= now
    ensures WindowsEndBy(policy, touch.Key(), now + touch.period)
  {
    forall other: Touch | Conforms(policy, other) && other.Key() == touch.Key()
      ensures other.End() <= now + touch.period
    {
      KeysDecodeInRange(other.prefix, other.start, touch.prefix, touch.start);
    }
  }
}
