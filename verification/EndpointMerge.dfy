/** `PutConfigEndpoints`: the merge of a request's endpoint into the stored endpoint groups
    of a cluster, over single requests and over runs of them. */
module EndpointMerge {
  import opened Text

  datatype LbEndpoint = LbEndpoint(address: string, port: int, weight: Option<int>)
  datatype Group = Group(priority: int, endpoints: seq<LbEndpoint>)
  datatype Key = Key(node: string, cluster: string)

  // ---- One request ----

  function AppendTo(groups: seq<Group>, priority: int, ep: LbEndpoint): (r: seq<Group>)
    ensures |r| == |groups|
  {
    seq(|groups|, i requires 0 <= i < |groups| =>
      if groups[i].priority == priority then groups[i].(endpoints := groups[i].endpoints + [ep]) else groups[i])
  }

  predicate HasPriority(groups: seq<Group>, priority: int) {
    exists i :: 0 <= i < |groups| && groups[i].priority == priority
  }

  predicate Acceptable(request: seq<Group>, parseIp: string -> bool) {
    request != [] && request[0].endpoints != [] && parseIp(request[0].endpoints[0].address)
  }

  /** The document after a request: every group of the priority gets the first endpoint,
      a new group gets the whole first group, an absent document becomes the request. */
  function Merged(stored: Option<seq<Group>>, request: seq<Group>): seq<Group>
    requires request != [] && request[0].endpoints != []
  {
    if stored.None? then request
    else if HasPriority(stored.value, request[0].priority)
    then AppendTo(stored.value, request[0].priority, request[0].endpoints[0])
    else stored.value + [Group(request[0].priority, request[0].endpoints)]
  }

  function Lookup(documents: map<Key, seq<Group>>, key: Key): Option<seq<Group>> {
    if key in documents then Some(documents[key]) else None
  }

  class EndpointStore {
    var documents: map<Key, seq<Group>>
    const parseIp: string -> bool

    constructor (parseIp: string -> bool)
      ensures documents == map[] && this.parseIp == parseIp
    {
      documents := map[];
      this.parseIp := parseIp;
    }

    /** A request without a first endpoint at an IP address is refused and stores nothing. A short
        node name is refused too, but the handler goes on, so that the request is stored. */
    method PutConfigEndpoints(key: Key, request: seq<Group>) returns (status: nat)
      modifies this
      ensures status == if |key.node| >= 2 && Acceptable(request, parseIp) then 204 else 400
      ensures Acceptable(request, parseIp) <==>
        !(|request| == 0 || |request[0].endpoints| == 0 || !parseIp(request[0].endpoints[0].address))
      ensures Acceptable(request, parseIp) ==> key in documents
      ensures Acceptable(request, parseIp) && key !in old(documents) ==> documents[key] == request
      ensures !Acceptable(request, parseIp) ==> documents == old(documents)
      ensures forall other :: other != key ==> Lookup(documents, other) == Lookup(old(documents), other)
      ensures documents == old(if Acceptable(request, parseIp)
                               then documents[key := Merged(Lookup(documents, key), request)] else documents)
    {
      var refused := |key.node| < 2;
      if request == [] || request[0].endpoints == [] {
        return 400;
      }
      if !parseIp(request[0].endpoints[0].address) {
        return 400;
      }
      var groups := request;
      if key in documents {
        var stored, priority, ep := documents[key], request[0].priority, request[0].endpoints[0];
        var updated := false;
        groups := stored;
        for p := 0 to |groups|
          invariant |groups| == |stored|
          invariant forall i :: 0 <= i < p ==> groups[i] == AppendTo(stored, priority, ep)[i]
          invariant forall i :: p <= i < |groups| ==> groups[i] == stored[i]
          invariant updated <==> exists i :: 0 <= i < p && stored[i].priority == priority
        {
          if groups[p].priority == priority {
            groups := groups[p := groups[p].(endpoints := groups[p].endpoints + [ep])];
            updated := true;
          }
        }
        assert groups == AppendTo(stored, priority, ep);
        if !updated {
          assert groups == stored;
          groups := groups + [Group(priority, request[0].endpoints)];
        }
      }
      documents := documents[key := groups];
      status := if refused then 400 else 204;
    }
  }

  // ---- Conservation ----

  function AllEndpoints(groups: seq<Group>): multiset<LbEndpoint> {
    if groups == [] then multiset{} else multiset(groups[0].endpoints) + AllEndpoints(groups[1..])
  }

  function CountOf(groups: seq<Group>, priority: int): nat {
    if groups == [] then 0 else (if groups[0].priority == priority then 1 else 0) + CountOf(groups[1..], priority)
  }

  lemma {:induction false} CountsPresence(groups: seq<Group>, priority: int)
    ensures HasPriority(groups, priority) <==> CountOf(groups, priority) > 0
  {
    if groups != [] {
      CountsPresence(groups[1..], priority);
      assert forall i :: 0 < i < |groups| ==> groups[i] == groups[1..][i - 1];
      if HasPriority(groups[1..], priority) {
        var i :| 0 <= i < |groups| - 1 && groups[1..][i].priority == priority;
        assert groups[i + 1].priority == priority;
      }
    }
  }

  /** Appending to every group of a priority adds one copy for each of them. */
  lemma {:induction false} AppendToAdds(groups: seq<Group>, priority: int, ep: LbEndpoint)
    ensures AllEndpoints(AppendTo(groups, priority, ep)) ==
      AllEndpoints(groups) + multiset{}[ep := CountOf(groups, priority)]
  {
    if groups != [] {
      var after := AppendTo(groups, priority, ep);
      assert after[1..] == AppendTo(groups[1..], priority, ep);
      AppendToAdds(groups[1..], priority, ep);
    }
  }

  lemma {:induction false} AllEndpointsConcat(a: seq<Group>, b: seq<Group>)
    ensures AllEndpoints(a + b) == AllEndpoints(a) + AllEndpoints(b)
  {
    if a == [] {
      assert a + b == b;
    } else {
      assert (a + b)[1..] == a[1..] + b;
      AllEndpointsConcat(a[1..], b);
    }
  }

  /** What a request adds to a stored document. */
  function Added(stored: seq<Group>, request: seq<Group>): multiset<LbEndpoint>
    requires request != [] && request[0].endpoints != []
  {
    var n := CountOf(stored, request[0].priority);
    if n == 0 then multiset(request[0].endpoints) else multiset{}[request[0].endpoints[0] := n]
  }

  lemma MergeAdds(stored: seq<Group>, request: seq<Group>)
    requires request != [] && request[0].endpoints != []
    ensures AllEndpoints(Merged(Some(stored), request)) == AllEndpoints(stored) + Added(stored, request)
  {
    var priority := request[0].priority;
    CountsPresence(stored, priority);
    if HasPriority(stored, priority) {
      AppendToAdds(stored, priority, request[0].endpoints[0]);
    } else {
      var opening := [Group(priority, request[0].endpoints)];
      AllEndpointsConcat(stored, opening);
      assert AllEndpoints(opening) == multiset(request[0].endpoints);
    }
  }

  /** A request's first endpoint is stored exactly once, and nothing else is added to the
      document, exactly when at most one stored group has its priority and, if none has, it
      comes alone in its group. */
  lemma MergeConserves(stored: seq<Group>, request: seq<Group>)
    requires request != [] && request[0].endpoints != []
    ensures AllEndpoints(Merged(Some(stored), request)) == AllEndpoints(stored) + multiset{request[0].endpoints[0]}
      <==> (CountOf(stored, request[0].priority) == 1
            || (CountOf(stored, request[0].priority) == 0 && |request[0].endpoints| == 1))
  {
    var ep, all := request[0].endpoints[0], AllEndpoints(stored);
    MergeAdds(stored, request);
    assert |Added(stored, request)| ==
      if CountOf(stored, request[0].priority) == 0 then |request[0].endpoints| else CountOf(stored, request[0].priority);
    if all + Added(stored, request) == all + multiset{ep} {
      assert |all + Added(stored, request)| == |all| + |Added(stored, request)|;
    }
    if CountOf(stored, request[0].priority) == 0 && |request[0].endpoints| == 1 {
      assert request[0].endpoints == [ep];
    }
  }

  /** All that a request brings is stored, and nothing else, exactly when its later groups are
      empty, if its first group's priority is new, or else when it brings its first endpoint as
      many times as stored groups have the priority. */
  lemma MergeStoresRequest(stored: seq<Group>, request: seq<Group>)
    requires request != [] && request[0].endpoints != []
    ensures AllEndpoints(Merged(Some(stored), request)) == AllEndpoints(stored) + AllEndpoints(request)
      <==> (if CountOf(stored, request[0].priority) == 0 then AllEndpoints(request[1..]) == multiset{}
            else AllEndpoints(request) == multiset{}[request[0].endpoints[0] := CountOf(stored, request[0].priority)])
  {
    var all, added, brought := AllEndpoints(stored), Added(stored, request), AllEndpoints(request);
    MergeAdds(stored, request);
    CancelLeft(all, added, brought);
    CancelLeft(multiset(request[0].endpoints), AllEndpoints(request[1..]), multiset{});
    assert brought == multiset(request[0].endpoints) + AllEndpoints(request[1..]);
    assert multiset(request[0].endpoints) + multiset{} == multiset(request[0].endpoints);
  }

  lemma CancelLeft(a: multiset<LbEndpoint>, b: multiset<LbEndpoint>, c: multiset<LbEndpoint>)
    ensures a + b == a + c <==> b == c
  {
    assert (a + b) - a == b && (a + c) - a == c;
  }

  /** The first request for a cluster is stored as it is: all its groups, in their order, with
      all their endpoints. */
  lemma FirstRequestIsStoredWhole(request: seq<Group>)
    requires request != [] && request[0].endpoints != []
    ensures |Merged(None, request)| == |request|
    ensures forall i :: 0 <= i < |request| ==> Merged(None, request)[i] == request[i]
    ensures AllEndpoints(Merged(None, request)) == AllEndpoints(request)
  {
  }

  /** A further request leaves every stored group in its place, with its priority and with its
      endpoints in front, and appends at most one group. */
  lemma StoredGroupsStay(stored: seq<Group>, request: seq<Group>)
    requires request != [] && request[0].endpoints != []
    ensures var after := Merged(Some(stored), request);
      && |stored| <= |after| <= |stored| + 1
      && (|after| == |stored| <==> exists i :: 0 <= i < |stored| && stored[i].priority == request[0].priority)
      && (forall i :: 0 <= i < |stored| ==>
           && after[i].priority == stored[i].priority && stored[i].endpoints <= after[i].endpoints
           && (stored[i].priority != request[0].priority ==> after[i] == stored[i])
           && (stored[i].priority == request[0].priority ==>
                after[i].endpoints == stored[i].endpoints + [request[0].endpoints[0]]))
      && (|after| > |stored| ==> after[|stored|].priority == request[0].priority && after[|stored|].endpoints == request[0].endpoints)
  {
  }

  /** Groups after the first are dropped even when their priorities are new. */
  lemma LaterGroupsAreDropped(a: LbEndpoint, b: LbEndpoint, c: LbEndpoint)
    ensures Merged(Some([Group(0, [a])]), [Group(1, [b]), Group(2, [c])]) == [Group(0, [a]), Group(1, [b])]
  {
    assert !HasPriority([Group(0, [a])], 1);
  }

  // ---- Runs of one-endpoint requests ----

  datatype Put = Put(priority: int, endpoint: LbEndpoint)

  function RunPuts(stored: Option<seq<Group>>, puts: seq<Put>): Option<seq<Group>>
    decreases |puts|
  {
    if puts == [] then stored
    else RunPuts(Some(Merged(stored, [Group(puts[0].priority, [puts[0].endpoint])])), puts[1..])
  }

  function Without(priorities: seq<int>, p: int): seq<int> {
    if priorities == [] then []
    else (if priorities[0] == p then [] else [priorities[0]]) + Without(priorities[1..], p)
  }

  /** The priorities in order of first appearance. */
  function Priorities(puts: seq<Put>): seq<int> {
    if puts == [] then [] else [puts[0].priority] + Without(Priorities(puts[1..]), puts[0].priority)
  }

  /** The endpoints of one priority in order of arrival. */
  function Members(puts: seq<Put>, p: int): seq<LbEndpoint> {
    if puts == [] then []
    else (if puts[0].priority == p then [puts[0].endpoint] else []) + Members(puts[1..], p)
  }

  /** The stable grouping by priority. */
  function GroupBy(puts: seq<Put>): (r: seq<Group>)
    ensures |r| == |Priorities(puts)|
  {
    var ps := Priorities(puts);
    seq(|ps|, i requires 0 <= i < |ps| => Group(ps[i], Members(puts, ps[i])))
  }

  lemma {:induction false} WithoutIn(ps: seq<int>, p: int, q: int)
    ensures q in Without(ps, p) <==> q in ps && q != p
  {
    if ps != [] {
      WithoutIn(ps[1..], p, q);
    }
  }

  lemma {:induction false} WithoutConcat(ps: seq<int>, qs: seq<int>, p: int)
    ensures Without(ps + qs, p) == Without(ps, p) + Without(qs, p)
  {
    if ps == [] {
      assert ps + qs == qs;
    } else {
      assert (ps + qs)[1..] == ps[1..] + qs;
      WithoutConcat(ps[1..], qs, p);
    }
  }

  lemma {:induction false} PrioritiesIn(puts: seq<Put>, p: int)
    ensures p in Priorities(puts) <==> exists i :: 0 <= i < |puts| && puts[i].priority == p
  {
    if puts != [] {
      PrioritiesIn(puts[1..], p);
      WithoutIn(Priorities(puts[1..]), puts[0].priority, p);
      assert forall i :: 0 < i < |puts| ==> puts[i] == puts[1..][i - 1];
      if i :| 0 <= i < |puts| - 1 && puts[1..][i].priority == p {
        assert puts[i + 1].priority == p;
      }
    }
  }

  lemma {:induction false} WithoutSingle(q: int, p: int)
    ensures Without([q], p) == if q == p then [] else [q]
  {
    assert Without([q][1..], p) == [];
  }

  lemma {:induction false} PrioritiesExtend(puts: seq<Put>, put: Put)
    ensures Priorities(puts + [put]) ==
      if put.priority in Priorities(puts) then Priorities(puts) else Priorities(puts) + [put.priority]
  {
    if puts == [] {
      assert Priorities((puts + [put])[1..]) == [];
    } else {
      var p, q := puts[0].priority, put.priority;
      assert (puts + [put])[1..] == puts[1..] + [put];
      PrioritiesExtend(puts[1..], put);
      var ps := Priorities(puts[1..]);
      WithoutIn(ps, p, q);
      WithoutConcat(ps, [q], p);
      WithoutSingle(q, p);
    }
  }

  lemma {:induction false} MembersExtend(puts: seq<Put>, put: Put, p: int)
    ensures Members(puts + [put], p) == Members(puts, p) + (if put.priority == p then [put.endpoint] else [])
  {
    if puts == [] {
      assert Members((puts + [put])[1..], p) == [];
    } else {
      assert (puts + [put])[1..] == puts[1..] + [put];
      MembersExtend(puts[1..], put, p);
      var first := if puts[0].priority == p then [puts[0].endpoint] else [];
      var added := if put.priority == p then [put.endpoint] else [];
      assert first + (Members(puts[1..], p) + added) == (first + Members(puts[1..], p)) + added;
    }
  }

  lemma {:induction false} NoMembers(puts: seq<Put>, p: int)
    requires forall i :: 0 <= i < |puts| ==> puts[i].priority != p
    ensures Members(puts, p) == []
  {
    if puts != [] {
      NoMembers(puts[1..], p);
    }
  }

  /** What is stored after the given requests, when nothing was stored before them. */
  function Grouped(puts: seq<Put>): Option<seq<Group>> {
    if puts == [] then None else Some(GroupBy(puts))
  }

  /** What a further request does to each group so far. */
  lemma GroupExtends(puts: seq<Put>, put: Put, i: nat)
    requires i < |GroupBy(puts)| && |GroupBy(puts)| <= |GroupBy(puts + [put])|
    requires Priorities(puts + [put])[i] == Priorities(puts)[i]
    ensures var before, after := GroupBy(puts)[i], GroupBy(puts + [put])[i];
      && before.priority in Priorities(puts)
      && after == if before.priority == put.priority
                  then before.(endpoints := before.endpoints + [put.endpoint]) else before
  {
    var before := GroupBy(puts)[i];
    MembersExtend(puts, put, before.priority);
    assert before.endpoints + [] == before.endpoints;
  }

  /** One more request turns the grouping of the requests so far into the grouping of all. */
  lemma MergeExtendsGrouping(puts: seq<Put>, put: Put)
    ensures Merged(Grouped(puts), [Group(put.priority, [put.endpoint])]) == GroupBy(puts + [put])
  {
    var before, after := GroupBy(puts), GroupBy(puts + [put]);
    PrioritiesExtend(puts, put);
    forall i | 0 <= i < |before|
      ensures before[i].priority in Priorities(puts)
      ensures after[i] == if before[i].priority == put.priority
                          then before[i].(endpoints := before[i].endpoints + [put.endpoint]) else before[i]
    {
      GroupExtends(puts, put, i);
    }
    if put.priority in Priorities(puts) {
      var i :| 0 <= i < |before| && Priorities(puts)[i] == put.priority;
      assert before[i].priority == put.priority;
      assert after == AppendTo(before, put.priority, put.endpoint);
    } else {
      OpenedGroup(puts, put);
      assert !HasPriority(before, put.priority);
      assert after == before + [Group(put.priority, [put.endpoint])];
    }
  }

  lemma OpenedGroup(puts: seq<Put>, put: Put)
    requires put.priority !in Priorities(puts)
    ensures |GroupBy(puts + [put])| == |GroupBy(puts)| + 1
    ensures GroupBy(puts + [put])[|GroupBy(puts)|] == Group(put.priority, [put.endpoint])
  {
    PrioritiesExtend(puts, put);
    PrioritiesIn(puts, put.priority);
    MembersExtend(puts, put, put.priority);
    NoMembers(puts, put.priority);
    assert Members(puts + [put], put.priority) == [put.endpoint];
  }

  lemma SeenNext(seen: seq<Put>, puts: seq<Put>)
    requires puts != []
    ensures (seen + [puts[0]]) + puts[1..] == seen + puts
  {
  }

  lemma {:induction false} RunFromGrouping(seen: seq<Put>, puts: seq<Put>)
    ensures RunPuts(Grouped(seen), puts) == Grouped(seen + puts)
    decreases |puts|
  {
    if puts == [] {
      assert seen + puts == seen;
    } else {
      MergeExtendsGrouping(seen, puts[0]);
      RunFromGrouping(seen + [puts[0]], puts[1..]);
      SeenNext(seen, puts);
    }
  }

  /** From an absent document, any run of one-endpoint requests stores their stable grouping. */
  lemma RunsGroupByPriority(puts: seq<Put>)
    requires puts != []
    ensures RunPuts(None, puts) == Some(GroupBy(puts))
  {
    RunFromGrouping([], puts);
    assert [] + puts == puts;
  }

  // ---- Consequences for the stored document ----

  predicate DistinctPriorities(groups: seq<Group>) {
    forall i, j :: 0 <= i < j < |groups| ==> groups[i].priority != groups[j].priority
  }

  lemma {:induction false} DistinctCounts(groups: seq<Group>, p: int)
    requires DistinctPriorities(groups)
    ensures CountOf(groups, p) <= 1
  {
    if groups != [] {
      assert forall i :: 0 < i < |groups| ==> groups[i] == groups[1..][i - 1];
      DistinctCounts(groups[1..], p);
      CountsPresence(groups[1..], p);
    }
  }

  function Endpoints(puts: seq<Put>): multiset<LbEndpoint> {
    if puts == [] then multiset{} else multiset{puts[0].endpoint} + Endpoints(puts[1..])
  }

  /** A run on a document with distinct priorities keeps them distinct and stores every
      endpoint of the run exactly once, besides what was stored. */
  lemma {:induction false} RunConserves(stored: seq<Group>, puts: seq<Put>)
    requires DistinctPriorities(stored)
    ensures RunPuts(Some(stored), puts).Some?
    ensures DistinctPriorities(RunPuts(Some(stored), puts).value)
    ensures AllEndpoints(RunPuts(Some(stored), puts).value) == AllEndpoints(stored) + Endpoints(puts)
    decreases |puts|
  {
    if puts != [] {
      var request := [Group(puts[0].priority, [puts[0].endpoint])];
      DistinctCounts(stored, puts[0].priority);
      MergeConserves(stored, request);
      RunConserves(Merged(Some(stored), request), puts[1..]);
    }
  }

  /** The stable grouping has pairwise distinct priorities and exactly the endpoints put. */
  lemma {:induction false} GroupingConserves(puts: seq<Put>)
    requires puts != []
    ensures DistinctPriorities(GroupBy(puts)) && AllEndpoints(GroupBy(puts)) == Endpoints(puts)
  {
    var opening := [Group(puts[0].priority, [puts[0].endpoint])];
    RunsGroupByPriority(puts);
    RunConserves(opening, puts[1..]);
    assert AllEndpoints(opening[1..]) == multiset{};
  }
}
