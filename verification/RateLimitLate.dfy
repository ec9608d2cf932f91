/** Why the per-window bound speaks of timely decisions: an entry counted after the window
    that its key names has ended can find the counter gone and be admitted again. */
module RateLimitLate {
  import opened Text
  import opened RateLimitIndex
  import opened RateLimitProtocol
  import opened RateLimitService

  const NOON: nat := EARLIEST + LONGEST
  const ONE_PER_SECOND: CacheConfig := map["web" := CacheDescriptors(map["ip" := CacheEntry(1, Second)], false)]
  const LATE_TOUCH: Touch := Touch("ip", WindowStart(NOON, 1), 1, 1, 1)

  /** Two calls of one replica have named the same key and missed the local cache. */
  function TwoPending(): State {
    State(NOON, map[0 := ONE_PER_SECOND], map[], map[],
          map[1 := Call(0, Missed(LATE_TOUCH)), 2 := Call(0, Missed(LATE_TOUCH))], [])
  }

  function NameSteps(id: nat): seq<Step> {
    [Begin(id, 0), Name(id, "web", "ip", 1), Lookup(id)]
  }

  lemma NameAndMiss(st: State, id: nat)
    requires st.now == NOON && id !in st.calls && 0 in st.configs && st.configs[0] == ONE_PER_SECOND
    requires st.caches == map[]
    ensures Run(st, NameSteps(id)) == st.(calls := st.calls[id := Call(0, Missed(LATE_TOUCH))])
  {
    RunThree(st, Begin(id, 0), Name(id, "web", "ip", 1), Lookup(id));
    var one := Apply(st, Begin(id, 0));
    assert one.calls[id] == Call(0, Begun(ONE_PER_SECOND));
    var two := Apply(one, Name(id, "web", "ip", 1));
    assert two.calls[id] == Call(0, Named(LATE_TOUCH));
    assert CacheOf(two, 0) == map[];
  }

  lemma BothGetPending()
    ensures Run(Start(NOON), SetupSteps()) == TwoPending()
  {
    RunFirst(Start(NOON), Reload(0, Some(ONE_PER_SECOND)), NameSteps(1) + NameSteps(2));
    var loaded := Apply(Start(NOON), Reload(0, Some(ONE_PER_SECOND)));
    RunConcat(loaded, NameSteps(1), NameSteps(2));
    NameAndMiss(loaded, 1);
    NameAndMiss(loaded.(calls := loaded.calls[1 := Call(0, Missed(LATE_TOUCH))]), 2);
  }

  /** The first call counts, its key expires with its window, the second call counts. */
  function EscapeSteps(): seq<Step> {
    [IncrBy(1), Expire(1), Tick(NOON + 1)] + [Purge(LATE_TOUCH.Key()), IncrBy(2)]
  }

  lemma CountsAfresh(st: State, id: nat, touch: Touch)
    requires touch.Key() !in st.redis && touch.hits < 0x1_0000_0000
    requires id in st.calls && st.calls[id].phase == Missed(touch)
    ensures Apply(st, IncrBy(id)).history ==
      st.history + [Decided(touch, st.now, true, touch.hits, VerdictOf(touch.hits, touch.limit))]
  {
  }

  /** A counter whose deadline has passed may be dropped, and counting then starts afresh. */
  lemma DroppedCountsAfresh(st: State, id: nat, touch: Touch, counter: Counter)
    requires st.redis == map[touch.Key() := counter] && counter.deadline.Some? && counter.deadline.value <= st.now
    requires id in st.calls && st.calls[id].phase == Missed(touch) && touch.hits < 0x1_0000_0000
    ensures Run(st, [Purge(touch.Key()), IncrBy(id)]).history ==
      st.history + [Dropped(touch.Key(), st.now), Decided(touch, st.now, true, touch.hits, VerdictOf(touch.hits, touch.limit))]
  {
    var purge := Purge(touch.Key());
    assert [purge, IncrBy(id)][..1] == [purge] && [purge][..0] == [];
    assert Run(st, [purge]) == Apply(st, purge);
    CountsAfresh(Apply(st, purge), id, touch);
  }

  lemma FirstIsCounted()
    ensures var st := Run(TwoPending(), [IncrBy(1), Expire(1), Tick(NOON + 1)]);
      && st.now == NOON + 1 && st.redis == map[LATE_TOUCH.Key() := Counter(1, Some(NOON + 1))]
      && 2 in st.calls && st.calls[2].phase == Missed(LATE_TOUCH)
      && st.history == [Decided(LATE_TOUCH, NOON, true, 1, Ok)]
  {
    RunThree(TwoPending(), IncrBy(1), Expire(1), Tick(NOON + 1));
    CountRuns(TwoPending(), 1, 0, LATE_TOUCH);
  }

  lemma SecondIsAdmitted()
    ensures Run(TwoPending(), EscapeSteps()).history ==
      [Decided(LATE_TOUCH, NOON, true, 1, Ok), Dropped(LATE_TOUCH.Key(), NOON + 1), Decided(LATE_TOUCH, NOON + 1, true, 1, Ok)]
  {
    var key, first := LATE_TOUCH.Key(), [IncrBy(1), Expire(1), Tick(NOON + 1)];
    RunConcat(TwoPending(), first, [Purge(key), IncrBy(2)]);
    FirstIsCounted();
    DroppedCountsAfresh(Run(TwoPending(), first), 2, LATE_TOUCH, Counter(1, Some(NOON + 1)));
  }

  function SetupSteps(): seq<Step> {
    [Reload(0, Some(ONE_PER_SECOND))] + (NameSteps(1) + NameSteps(2))
  }

  lemma SetupIsAllowed()
    ensures AllAllowed(_ => Policy(1, 1, 1), SetupSteps() + EscapeSteps())
  {
    assert Respects(ONE_PER_SECOND, _ => Policy(1, 1, 1));
  }

  /** A run that respects a limit of one per second and answers OK to two hits on one key. */
  lemma LateCountEscapes() returns (steps: seq<Step>)
    ensures AllAllowed(_ => Policy(1, 1, 1), steps)
    ensures var h := Run(Start(NOON), steps).history;
      && |h| == 3 && h[0].Decided? && h[2].Decided?
      && h[0].touch == h[2].touch && h[0].touch.limit == 1
      && h[0].verdict == Ok && h[2].verdict == Ok
      && h[0].OnTime() && !h[2].OnTime()
  {
    BothGetPending();
    SecondIsAdmitted();
    RunConcat(Start(NOON), SetupSteps(), EscapeSteps());
    SetupIsAllowed();
    steps := SetupSteps() + EscapeSteps();
    assert WindowStart(NOON, 1) == NOON;
  }
}
