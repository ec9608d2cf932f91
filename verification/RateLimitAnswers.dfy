/** The answers of the request handler, after any history of all replicas: each status is the
    one that a single limiter without local caches gives. */
module RateLimitAnswers {
  import opened Text
  import opened RateLimitIndex
  import opened RateLimitProtocol
  import opened RateLimitInvariant
  import opened RateLimitTheorems
  import opened RateLimitService

  /** The hits that a list of touches asks for on a key. */
  function HitsOn(touches: seq<Touch>, key: string): nat {
    if touches == [] then 0
    else
      var n := |touches| - 1;
      HitsOn(touches[..n], key) + if touches[n].Key() == key then touches[n].hits else 0
  }

  lemma {:induction false} AnsweredHits(before: seq<Event>, events: seq<Event>, touches: seq<Touch>,
                                        statuses: seq<Verdict>, serve: nat -> nat, key: string)
    requires Answers(events, touches, statuses, serve)
    ensures TouchHits(before + events, key) == TouchHits(before, key) + HitsOn(touches, key)
  {
    if touches == [] {
      assert before + events == before;
    } else {
      var n := |touches| - 1;
      assert (before + events)[..|before| + n] == before + events[..n];
      AnsweredHits(before, events[..n], touches[..n], statuses[..n], serve, key);
    }
  }

  lemma {:induction false} CountersGrowByHits(view: View, touches: seq<Touch>, serve: nat -> nat, key: string)
    ensures ValueOf(ServeAll(view, touches, serve).redis, key) <= ValueOf(view.redis, key) + HitsOn(touches, key)
  {
    if touches != [] {
      CountersGrowByHits(view, touches[..|touches| - 1], serve, key);
    }
  }

  lemma {:induction false} HitsOnPrefix(touches: seq<Touch>, n: nat, key: string)
    requires n <= |touches|
    ensures HitsOn(touches[..n], key) <= HitsOn(touches, key)
  {
    if n < |touches| {
      assert touches[..|touches| - 1][..n] == touches[..n];
      HitsOnPrefix(touches[..|touches| - 1], n, key);
    } else {
      assert touches[..n] == touches;
    }
  }

  /** Counters stay within 32 bits while a request is served if, with all it asks for, they would. */
  lemma {:induction false} FitsIfTotalsFit(view: View, touches: seq<Touch>, serve: nat -> nat)
    requires forall t :: t in touches ==> ValueOf(view.redis, t.Key()) + HitsOn(touches, t.Key()) < 0x1_0000_0000
    ensures Fits(view, touches, serve)
  {
    if touches != [] {
      var n := |touches| - 1;
      forall t | t in touches[..n]
        ensures ValueOf(view.redis, t.Key()) + HitsOn(touches[..n], t.Key()) < 0x1_0000_0000
      {
        HitsOnPrefix(touches, n, t.Key());
      }
      FitsIfTotalsFit(view, touches[..n], serve);
      assert touches[n] in touches;
      CountersGrowByHits(view, touches[..n], serve, touches[n].Key());
    }
  }

  // ---- A request extends a run ----

  lemma {:induction false} NamingIsAllowed(policy: string -> Policy, id: nat, replica: nat, domain: string,
                                           touches: seq<Touch>, moments: seq<nat>)
    requires |moments| == |touches| && forall m :: m in moments ==> ClockInRange(m)
    ensures AllAllowed(policy, NamingSteps(id, replica, domain, touches, moments))
    decreases |touches|
  {
    if touches != [] {
      var n := |touches| - 1;
      NamingIsAllowed(policy, id, replica, domain, touches[..n], moments[..n]);
      assert moments[n] in moments;
    }
  }

  lemma {:induction false} ServingIsAllowed(policy: string -> Policy, id: nat, n: nat, serve: nat -> nat)
    requires forall k: nat :: k < n ==> ClockInRange(serve(k))
    ensures AllAllowed(policy, ServingSteps(id, n, serve))
  {
    if n > 0 {
      ServingIsAllowed(policy, id, n - 1, serve);
    }
  }

  lemma AllowedTogether(policy: string -> Policy, first: seq<Step>, second: seq<Step>)
    requires AllAllowed(policy, first) && AllAllowed(policy, second)
    ensures AllAllowed(policy, first + second)
  {
  }

  /** The replica can serve these touches now, and starts with an empty list of statuses. */
  predicate Ready(st: State, id: nat, replica: nat, config: CacheConfig, touches: seq<Touch>, view: View, serve: nat -> nat) {
    && replica in st.configs && st.configs[replica] == config && Unused(st.calls, id)
    && Shows(st, replica, view) && view.statuses == [] && Fits(view, touches, serve)
  }

  /** The clock goes on from now: a reading for each descriptor, then one for each entry served. */
  predicate Timed(now: nat, readings: seq<nat>, serve: nat -> nat, n: nat) {
    && Rising([now] + readings) && Forward(LastOf(now, readings), serve, n)
    && (forall r :: r in readings ==> ClockInRange(r))
    && (forall k: nat :: k < n ==> ClockInRange(serve(k)))
  }

  /** The naming half of a request: it is allowed, and leaves store, caches and history alone. */
  lemma NamingIsARun(policy: string -> Policy, st: State, id: nat, replica: nat, config: CacheConfig, domain: string,
                     descriptors: seq<seq<RequestEntry>>, hits: nat, readings: seq<nat>, serve: nat -> nat,
                     touches: seq<Touch>) returns (steps: seq<Step>)
    requires Known(Some(config)) && |readings| == |descriptors| && hits > 0 && ClockInRange(st.now)
    requires touches == Flatten(Requested(config, domain, descriptors, hits, readings))
    requires replica in st.configs && st.configs[replica] == config && Unused(st.calls, id)
    requires Timed(st.now, readings, serve, |touches|)
    ensures AllAllowed(policy, steps)
    ensures NamedAll(st, Run(st, steps), id, replica, touches) && Forward(Run(st, steps).now, serve, |touches|)
  {
    var moments := RequestedAreNamed(config, domain, descriptors, hits, readings, st.now);
    RisingFrom(st.now, moments);
    assert moments != [] ==> moments[|moments| - 1] in moments;
    NamingRuns(st, id, replica, domain, touches, moments);
    NamingIsAllowed(policy, id, replica, domain, touches, moments);
    steps := NamingSteps(id, replica, domain, touches, moments);
  }

  lemma RisingFrom(start: nat, moments: seq<nat>)
    requires Rising(moments) && forall m :: m in moments ==> start <= m
    ensures Rising([start] + moments)
  {
    forall i, j | 0 <= i <= j < |moments| + 1
      ensures ([start] + moments)[i] <= ([start] + moments)[j]
    {
      if j > 0 {
        assert moments[j - 1] in moments && (i > 0 ==> moments[i - 1] <= moments[j - 1]);
      }
    }
  }

  /** A request that arrives in this state, and what serving it leaves. */
  predicate Request(st: State, id: nat, replica: nat, config: CacheConfig, domain: string,
                    descriptors: seq<seq<RequestEntry>>, hitsAddend: uint32, readings: seq<nat>, serve: nat -> nat,
                    touches: seq<Touch>, view: View, reached: View) {
    && Known(Some(config)) && |readings| == |descriptors|
    && touches == Flatten(Requested(config, domain, descriptors, Max(1, hitsAddend), readings))
    && Ready(st, id, replica, config, touches, view, serve) && Timed(st.now, readings, serve, |touches|)
    && reached == ServeAll(view, touches, serve)
  }

  lemma ServingAll(policy: string -> Policy, st: State, id: nat, replica: nat, touches: seq<Touch>, view: View,
                   serve: nat -> nat, reached: View) returns (steps: seq<Step>, after: State, events: seq<Event>)
    requires Waiting(st.calls, id, replica, touches, 0) && Shows(st, replica, view)
    requires view.statuses == [] && Fits(view, touches, serve) && Forward(st.now, serve, |touches|)
    requires forall k: nat :: k < |touches| ==> ClockInRange(serve(k))
    requires reached == ServeAll(view, touches, serve)
    ensures AllAllowed(policy, steps) && after == Run(st, steps)
    ensures RunServes(st, after, replica, touches, reached, serve, events)
  {
    assert touches[..|touches|] == touches;
    steps := ServingSteps(id, |touches|, serve);
    after, events := ServingIsARun(st, id, replica, touches, |touches|, view, serve, reached);
    ServingIsAllowed(policy, id, |touches|, serve);
  }

  /** A request served after any run extends it to a run that gains these events. */
  lemma RequestIsARun(policy: string -> Policy, st: State, id: nat, replica: nat, config: CacheConfig, domain: string,
                      descriptors: seq<seq<RequestEntry>>, hitsAddend: uint32, readings: seq<nat>, serve: nat -> nat,
                      touches: seq<Touch>, view: View, reached: View)
    returns (steps: seq<Step>, after: State, events: seq<Event>)
    requires Request(st, id, replica, config, domain, descriptors, hitsAddend, readings, serve, touches, view, reached)
    requires ClockInRange(st.now)
    ensures AllAllowed(policy, steps) && after == Run(st, steps)
    ensures RunServes(st, after, replica, touches, reached, serve, events)
  {
    var naming :=
      NamingIsARun(policy, st, id, replica, config, domain, descriptors, Max(1, hitsAddend), readings, serve, touches);
    var named := Run(st, naming);
    var serving;
    serving, after, events := ServingAll(policy, named, id, replica, touches, view, serve, reached);
    steps := naming + serving;
    AllowedTogether(policy, naming, serving);
    RunConcat(st, naming, serving);
  }

  // ---- What the request answers ----

  lemma ClockStaysInRange(policy: string -> Policy, start: nat, steps: seq<Step>)
    requires ClockInRange(start) && AllAllowed(policy, steps)
    ensures ClockInRange(Run(Start(start), steps).now)
  {
    RunKeeps(policy, Start(start), steps);
  }

  /** The event of a touch, and its reference total, read off the history. */
  lemma EventOfTouch(h: seq<Event>, before: seq<Event>, events: seq<Event>, touches: seq<Touch>, statuses: seq<Verdict>,
                     serve: nat -> nat, i: nat)
    requires h == before + events && Answers(events, touches, statuses, serve) && i < |touches|
    ensures |statuses| == |touches| && |h| == |before| + |touches|
    ensures var e := h[|before| + i];
      && e.Decided? && e.touch == touches[i] && e.at == serve(i) && e.verdict == statuses[i]
      && TouchHits(h[..|before| + i + 1], touches[i].Key()) ==
         TouchHits(before, touches[i].Key()) + HitsOn(touches[..i + 1], touches[i].Key())
  {
    assert h[|before| + i] == events[i];
    assert h[..|before| + i + 1] == before + events[..i + 1];
    AnsweredHits(before, events[..i + 1], touches[..i + 1], statuses[..i + 1], serve, touches[i].Key());
  }

  lemma RefinesAt(policy: string -> Policy, start: nat, all: seq<Step>, after: State, k: nat)
    requires ClockInRange(start) && AllAllowed(policy, all) && after == Run(Start(start), all)
    requires k < |after.history| && after.history[k].OnTime() && FixedLimit(policy, after.history[k].touch.prefix)
    ensures after.history[k].verdict ==
      VerdictOf(TouchHits(after.history[..k + 1], after.history[k].touch.Key()), after.history[k].touch.limit)
  {
    CacheRefinesReference(policy, start, all, k);
  }

  lemma AnswerAt(policy: string -> Policy, start: nat, all: seq<Step>, st: State, after: State, replica: nat,
                 touches: seq<Touch>, reached: View, serve: nat -> nat, events: seq<Event>, i: nat)
    requires ClockInRange(start) && AllAllowed(policy, all) && after == Run(Start(start), all)
    requires RunServes(st, after, replica, touches, reached, serve, events) && i < |touches|
    requires serve(i) < touches[i].End() && FixedLimit(policy, touches[i].prefix)
    ensures |reached.statuses| == |touches|
    ensures reached.statuses[i] ==
      VerdictOf(TouchHits(st.history, touches[i].Key()) + HitsOn(touches[..i + 1], touches[i].Key()), touches[i].limit)
  {
    EventOfTouch(after.history, st.history, events, touches, reached.statuses, serve, i);
    RefinesAt(policy, start, all, after, |st.history| + i);
  }

  lemma ExtendedRun(policy: string -> Policy, start: nat, before: seq<Step>, steps: seq<Step>)
    requires AllAllowed(policy, before) && AllAllowed(policy, steps)
    ensures AllAllowed(policy, before + steps)
    ensures Run(Start(start), before + steps) == Run(Run(Start(start), before), steps)
  {
    AllowedTogether(policy, before, steps);
    RunConcat(Start(start), before, steps);
  }

  /** After any run of any replicas, with arbitrary evictions, reloads and interleavings, the
      statuses of a request are those of a reference limiter: status i, served before its window
      ends, compares with its limit all the hits that were ever asked for on its key, those of
      this request up to it included. */
  lemma HandlerMatchesReference(policy: string -> Policy, start: nat, before: seq<Step>, st: State, id: nat, replica: nat,
                                config: CacheConfig, domain: string, descriptors: seq<seq<RequestEntry>>, hitsAddend: uint32,
                                readings: seq<nat>, serve: nat -> nat, touches: seq<Touch>, view: View, reached: View, i: nat)
    requires ClockInRange(start) && AllAllowed(policy, before) && st == Run(Start(start), before)
    requires Request(st, id, replica, config, domain, descriptors, hitsAddend, readings, serve, touches, view, reached)
    requires i < |touches| && FixedLimit(policy, touches[i].prefix) && serve(i) < touches[i].End()
    ensures |reached.statuses| == |touches|
    ensures touches[i].hits == if hitsAddend == 0 then 1 else hitsAddend
    ensures reached.statuses[i] ==
      VerdictOf(TouchHits(st.history, touches[i].Key()) + HitsOn(touches[..i + 1], touches[i].Key()), touches[i].limit)
  {
    RequestedHits(config, domain, descriptors, Max(1, hitsAddend), readings);
    assert touches[i] in touches;
    ClockStaysInRange(policy, start, before);
    var steps, after, events :=
      RequestIsARun(policy, st, id, replica, config, domain, descriptors, hitsAddend, readings, serve, touches, view, reached);
    ExtendedRun(policy, start, before, steps);
    AnswerAt(policy, start, before + steps, st, after, replica, touches, reached, serve, events, i);
  }
}
