/** The management server's own code over that machine: handlers that run to their end, and
    the watch loop taking the changes that are waiting. */
module ConfigManager {
  import opened ConfigSync
  import opened ConfigSyncInvariant

  lemma RunOne(st: State, done: seq<Step>, step: Step)
    ensures Run(st, done + [step]) == Apply(Run(st, done), step)
  {
    assert (done + [step])[..|done|] == done;
  }

  /** A read adds the node's next collection as it is stored, and writes nothing. */
  lemma ReadingOnlyReads(st: State)
    requires Enabled(st, Read) && st.past != [] && st.watcher.parts == ContentOf(st.db, st.watcher.node)[..|st.watcher.parts|]
    ensures var after, w := Apply(st, Read), st.watcher;
      && SameStore(st, after) && after.loaded == st.loaded && after.snapshots == st.snapshots && after.published == st.published
      && after.watcher.Loading? && after.watcher.node == w.node && after.watcher.version == w.version
      && |after.watcher.parts| == |w.parts| + 1
      && after.watcher.parts == ContentOf(st.db, w.node)[..|w.parts| + 1]
  {
    var content, k := ContentOf(st.db, st.watcher.node), |st.watcher.parts|;
    assert content[..k] + [content[k]] == content[..k + 1];
  }

  /** Neither the database nor the waiting changes nor the workers' records differ. */
  predicate SameStore(st: State, after: State) {
    && after.db == st.db && after.changes == st.changes && after.dirty == st.dirty && after.workers == st.workers
    && after.next == st.next
  }

  /** What a finished load of a node leaves: the node is loaded under the version it was taken
      up with; if its content is consistent it is served from now on, and otherwise every node
      is served what it was served before. */
  ghost predicate LoadFinished(st: State, after: State, node: string, version: Version, content: Content) {
    && after.watcher.Idle? && SameStore(st, after)
    && node in after.loaded && after.loaded == st.loaded[node := after.loaded[node]]
    && after.loaded[node].node == node && after.loaded[node].version == version && after.loaded[node].content == content
    && (Consistent(content) ==>
         && after.published == st.published + [after.loaded[node]]
         && node in after.snapshots && after.snapshots[node] == after.loaded[node])
    && (!Consistent(content) ==> after.published == st.published && after.snapshots == st.snapshots)
    && (forall other :: other != node ==>
         && (other in after.snapshots <==> other in st.snapshots)
         && (other in st.snapshots ==> after.snapshots[other] == st.snapshots[other]))
    && (node in st.snapshots ==> node in after.snapshots)
  }

  lemma PublishingFinishes(st: State)
    requires Enabled(st, Publish) && st.past != []
    ensures LoadFinished(st, Apply(st, Publish), st.watcher.node, st.watcher.version, st.watcher.parts)
  {
  }

  lemma FinishedSince(first: State, st: State, after: State, node: string, version: Version, content: Content)
    requires LoadFinished(st, after, node, version, content) && SameStore(first, st)
    requires st.loaded == first.loaded && st.snapshots == first.snapshots && st.published == first.published
    ensures LoadFinished(first, after, node, version, content)
  {
  }

  /** Reported versions are never the next one. */
  lemma NoReportOfNext(st: State, node: string)
    requires Inv(st) && node in st.workers
    ensures st.workers[node] != Uuid(st.next)
  {
    assert MayReport(st, node, st.workers[node]);
  }

  /** Without a change waiting or a load in progress, what is stored and consistent is served. */
  lemma QuietIsServed(st: State)
    requires Inv(st) && st.changes == [] && st.watcher.Idle?
    ensures forall node :: node in st.db.nodes && node !in st.dirty && Consistent(ContentOf(st.db, node)) ==>
      && node in st.snapshots
      && st.snapshots[node].version == st.db.nodes[node].version
      && st.snapshots[node].content == ContentOf(st.db, node)
  {
    forall node | node in st.db.nodes && node !in st.dirty && Consistent(ContentOf(st.db, node))
      ensures node in st.snapshots
      ensures st.snapshots[node].version == st.db.nodes[node].version
      ensures st.snapshots[node].content == ContentOf(st.db, node)
    {
      assert Settled(st, node);
    }
  }

  class Manager {
    var st: State

    ghost predicate Valid()
      reads this
    {
      Inv(st)
    }

    constructor (start: State)
      requires Init(start)
      ensures Valid() && st == start
    {
      st := start;
      InitHolds(start);
    }

    /** One database or watcher operation. */
    method Do(step: Step)
      requires Valid()
      modifies this
      ensures Valid() && st == Apply(old(st), step)
    {
      StepKeeps(st, step);
      st := Apply(st, step);
    }

    /** The same as the next step of a run. */
    method DoNext(step: Step, ghost done: seq<Step>, ghost start: State) returns (ghost steps: seq<Step>)
      requires Valid() && st == Run(start, done)
      modifies this
      ensures Valid() && st == Apply(old(st), step) && st == Run(start, steps)
    {
      RunOne(start, done, step);
      steps := done + [step];
      Do(step);
    }

    // ---- Handlers ----

    /** A fresh version, a waiting change and the status "False" for this node; no other node's
        document changes, and nothing that is loaded, served or reported. */
    method BumpVersion(node: string)
      requires Valid()
      modifies this
      ensures Valid() && node !in st.dirty && st.dirty == old(st.dirty) - {node}
      ensures forall other :: ContentOf(st.db, other) == ContentOf(old(st.db), other)
      ensures node in st.db.nodes && st.db.nodes[node].version == Uuid(old(st.next))
      ensures st.db.nodes[node].id == if node in old(st.db.nodes) then old(st.db.nodes)[node].id else old(st.next)
      ensures st.changes == old(st.changes) + [Change(node, st.db.nodes[node].id)]
      ensures forall other :: other != node ==>
        && (other in st.db.nodes <==> other in old(st.db.nodes))
        && (other in st.db.nodes ==> st.db.nodes[other] == old(st.db.nodes)[other])
      ensures st.snapshots == old(st.snapshots) && st.loaded == old(st.loaded) && st.workers == old(st.workers)
      ensures LiveSyncStatus(st, node) == NotSynced
    {
      if node in st.workers {
        NoReportOfNext(st, node);
      }
      Do(Bump(node));
    }

    /** One collection of one node; the version stays as it was. */
    method WriteCollection(node: string, collection: nat, docs: Docs)
      requires Valid() && collection < COLLECTIONS
      modifies this
      ensures Valid() && st.dirty == old(st.dirty) + {node}
      ensures ContentOf(st.db, node) == ContentOf(old(st.db), node)[collection := docs]
      ensures forall other :: other != node ==> ContentOf(st.db, other) == ContentOf(old(st.db), other)
      ensures st.db.nodes == old(st.db.nodes) && st.next == old(st.next) && st.changes == old(st.changes)
      ensures st.snapshots == old(st.snapshots) && st.loaded == old(st.loaded) && st.workers == old(st.workers)
    {
      Do(Write(node, collection, docs));
    }

    /** A handler that replaces or deletes documents of one collection: the write, then the bump. */
    method PutConfig(node: string, collection: nat, docs: Docs)
      requires Valid() && collection < COLLECTIONS
      modifies this
      ensures Valid() && Pending(st, node) && node !in st.dirty
      ensures ContentOf(st.db, node) == ContentOf(old(st.db), node)[collection := docs]
      ensures st.db.nodes[node].version == Uuid(old(st.next))
      ensures forall other :: other != node ==>
        ContentOf(st.db, other) == ContentOf(old(st.db), other) &&
        (other in st.db.nodes <==> other in old(st.db.nodes)) &&
        (other in st.db.nodes ==> st.db.nodes[other] == old(st.db.nodes)[other])
      ensures st.snapshots == old(st.snapshots) && LiveSyncStatus(st, node) == NotSynced
    {
      WriteCollection(node, collection, docs);
      BumpVersion(node);
      assert st.changes[|st.changes| - 1] == Change(node, st.db.nodes[node].id);
    }

    /** `DeleteConfigClusters`: the cluster, its endpoints, then the bump; what was consistent
        stays so. */
    method DeleteConfigClusters(node: string, name: string)
      requires Valid()
      modifies this
      ensures Valid() && Pending(st, node) && node !in st.dirty
      ensures var before, after := ContentOf(old(st.db), node), ContentOf(st.db, node);
        && after[CLUSTERS] == before[CLUSTERS] - {name} && after[ENDPOINTS] == before[ENDPOINTS] - {name}
        && after[LISTENERS] == before[LISTENERS] && after[SECRETS] == before[SECRETS]
        && (Consistent(before) ==> Consistent(after))
      ensures st.db.nodes[node].version == Uuid(old(st.next))
      ensures forall other :: other != node ==> ContentOf(st.db, other) == ContentOf(old(st.db), other)
    {
      WriteCollection(node, CLUSTERS, ContentOf(st.db, node)[CLUSTERS] - {name});
      WriteCollection(node, ENDPOINTS, ContentOf(st.db, node)[ENDPOINTS] - {name});
      BumpVersion(node);
      assert st.changes[|st.changes| - 1] == Change(node, st.db.nodes[node].id);
    }

    /** `PutConfigNode`: the address alone. A new document has no version, an old one keeps its
        own; no collection changes. */
    method PutConfigNode(node: string, changed: bool)
      requires Valid()
      modifies this
      ensures Valid() && st.db.contents == old(st.db.contents) && st.dirty == old(st.dirty)
      ensures node in st.db.nodes
      ensures if node in old(st.db.nodes) then st.db.nodes == old(st.db.nodes)
              else st.db.nodes == old(st.db.nodes)[node := NodeDoc(old(st.next), Empty)]
      ensures changed || node !in old(st.db.nodes) ==> Pending(st, node)
      ensures st.snapshots == old(st.snapshots) && st.workers == old(st.workers)
    {
      Do(PutNode(node, changed));
      if changed || node !in old(st.db.nodes) {
        assert st.changes[|st.changes| - 1] == Change(node, st.db.nodes[node].id);
      }
    }

    method RemoveDocument(node: string)
      requires Valid()
      modifies this
      ensures Valid() && st.db.nodes == old(st.db.nodes) - {node} && st.changes == old(st.changes)
      ensures forall other :: ContentOf(st.db, other) == ContentOf(old(st.db), other)
      ensures st.snapshots == old(st.snapshots) && st.workers == old(st.workers)
    {
      Do(DeleteNode(node));
    }

    /** `DeleteConfigNodes`: listeners, clusters, endpoints, then the document. Its secrets stay,
        it has no status any more, no change is raised, and it is served what it was. */
    method DeleteConfigNodes(node: string)
      requires Valid()
      modifies this
      ensures Valid() && st.db.nodes == old(st.db.nodes) - {node} && st.changes == old(st.changes)
      ensures var before, after := ContentOf(old(st.db), node), ContentOf(st.db, node);
        && after[LISTENERS] == map[] && after[CLUSTERS] == map[] && after[ENDPOINTS] == map[]
        && after[SECRETS] == before[SECRETS]
      ensures forall other :: other != node ==> ContentOf(st.db, other) == ContentOf(old(st.db), other)
      ensures st.snapshots == old(st.snapshots) && LiveSyncStatus(st, node) == NotFound
    {
      WriteCollection(node, LISTENERS, map[]);
      WriteCollection(node, CLUSTERS, map[]);
      WriteCollection(node, ENDPOINTS, map[]);
      RemoveDocument(node);
    }

    /** `OnStreamRequest` records the version that a worker names. */
    method OnStreamRequest(node: string, version: Version)
      requires Valid() && MayReport(st, node, version)
      modifies this
      ensures Valid() && st.workers == old(st.workers)[node := version]
      ensures st.db == old(st.db) && st.snapshots == old(st.snapshots) && st.changes == old(st.changes)
      ensures LiveSyncStatus(st, node) == Synced <==> node in st.db.nodes && st.db.nodes[node].version == version
    {
      Do(Report(node, version));
    }

    // ---- The watch loop ----

    /** `LoadNode`: the four collections, one read after the other, as they are stored. */
    method LoadNode(ghost done: seq<Step>, ghost start: State) returns (ghost steps: seq<Step>)
      requires Valid() && st.watcher.Loading? && st.watcher.parts == [] && st == Run(start, done)
      modifies this
      ensures Valid() && st.watcher.Loading? && st == Run(start, steps) && SameStore(old(st), st)
      ensures st.watcher.node == old(st.watcher.node) && st.watcher.version == old(st.watcher.version)
      ensures st.watcher.parts == ContentOf(st.db, st.watcher.node)
      ensures st.loaded == old(st.loaded) && st.snapshots == old(st.snapshots) && st.published == old(st.published)
    {
      steps := done;
      while |st.watcher.parts| < COLLECTIONS
        invariant Valid() && st.watcher.Loading? && |st.watcher.parts| <= COLLECTIONS && st == Run(start, steps)
        invariant SameStore(old(st), st)
        invariant st.watcher.node == old(st.watcher.node) && st.watcher.version == old(st.watcher.version)
        invariant st.watcher.parts == ContentOf(st.db, st.watcher.node)[..|st.watcher.parts|]
        invariant st.loaded == old(st.loaded) && st.snapshots == old(st.snapshots) && st.published == old(st.published)
        decreases COLLECTIONS - |st.watcher.parts|
      {
        ReadingOnlyReads(st);
        steps := DoNext(Read, steps, start);
      }
    }

    /** `loadNodeConfig`: load, then publish if consistent. */
    method LoadNodeConfig(ghost done: seq<Step>, ghost start: State) returns (ghost steps: seq<Step>)
      requires Valid() && st.watcher.Loading? && st.watcher.parts == [] && st == Run(start, done)
      modifies this
      ensures Valid() && st == Run(start, steps)
      ensures LoadFinished(old(st), st, old(st.watcher.node), old(st.watcher.version),
                           ContentOf(old(st.db), old(st.watcher.node)))
    {
      steps := LoadNode(done, start);
      ghost var mid := st;
      PublishingFinishes(mid);
      steps := DoNext(Publish, steps, start);
      FinishedSince(old(st), mid, st, mid.watcher.node, mid.watcher.version, mid.watcher.parts);
    }

    /** The next change is taken and its document read, if it still exists. */
    method FetchChange()
      requires Valid() && st.watcher.Idle? && st.changes != []
      modifies this
      ensures Valid() && st == Run(old(st), [Fetch])
      ensures st.changes == old(st.changes)[1..] && st.db == old(st.db) && st.dirty == old(st.dirty)
      ensures st.workers == old(st.workers) && st.next == old(st.next)
      ensures st.loaded == old(st.loaded) && st.snapshots == old(st.snapshots) && st.published == old(st.published)
      ensures var c := old(st.changes)[0];
        if c.node in st.db.nodes && st.db.nodes[c.node].id == c.id
        then st.watcher.Loading? && st.watcher.node == c.node && st.watcher.version == st.db.nodes[c.node].version && st.watcher.parts == []
        else st.watcher.Idle?
    {
      RunOne(st, [], Fetch);
      assert [] + [Fetch] == [Fetch];
      Do(Fetch);
    }

    /** One turn of the watch loop: fetch the document and, if it exists, load its node as it is
        stored under its version. */
    method HandleChange() returns (ghost steps: seq<Step>)
      requires Valid() && st.watcher.Idle? && st.changes != []
      modifies this
      ensures Valid() && st.watcher.Idle? && st == Run(old(st), steps)
      ensures st.changes == old(st.changes)[1..] && st.db == old(st.db) && st.dirty == old(st.dirty)
      ensures var c := old(st.changes)[0];
        if c.node in st.db.nodes && st.db.nodes[c.node].id == c.id
        then LoadFinished(old(st).(changes := st.changes), st, c.node, st.db.nodes[c.node].version, ContentOf(st.db, c.node))
        else st.loaded == old(st.loaded) && st.snapshots == old(st.snapshots) && st.published == old(st.published)
    {
      ghost var start := st;
      steps := [Fetch];
      FetchChange();
      ghost var fetched := st;
      if st.watcher.Loading? {
        steps := LoadNodeConfig(steps, start);
        FinishedSince(start.(changes := fetched.changes), fetched, st, fetched.watcher.node, fetched.watcher.version,
                      ContentOf(fetched.db, fetched.watcher.node));
      }
    }

    /** The watch loop, until no change is waiting: every node that was not left half-written
        is then served exactly as it is stored, provided that what is stored is consistent,
        and no node that was served before is left without a snapshot. */
    method WatchLoop()
      requires Valid() && st.watcher.Idle?
      modifies this
      ensures Valid() && st.watcher.Idle? && st.changes == []
      ensures st.db == old(st.db) && st.dirty == old(st.dirty)
      ensures forall node :: node in st.db.nodes && node !in st.dirty && Consistent(ContentOf(st.db, node)) ==>
        && node in st.snapshots
        && st.snapshots[node].version == st.db.nodes[node].version
        && st.snapshots[node].content == ContentOf(st.db, node)
      ensures forall node :: node in old(st.snapshots) ==> node in st.snapshots
      ensures forall node :: node in old(st.snapshots) && !Consistent(ContentOf(st.db, node)) ==>
        st.snapshots[node] == old(st.snapshots)[node]
    {
      while st.changes != []
        invariant Valid() && st.watcher.Idle?
        invariant st.db == old(st.db) && st.dirty == old(st.dirty)
        invariant forall node :: node in old(st.snapshots) ==> node in st.snapshots
        invariant forall node :: node in old(st.snapshots) && !Consistent(ContentOf(st.db, node)) ==>
          st.snapshots[node] == old(st.snapshots)[node]
        decreases |st.changes|
      {
        var _ := HandleChange();
      }
      QuietIsServed(st);
    }
  }
}
