/** What the configuration protocol guarantees in every reachable state. */
module ConfigSyncTheorems {
  import opened Text
  import opened ConfigSync
  import opened ConfigSyncInvariant

  lemma Reachable(start: State, steps: seq<Step>)
    requires Init(start)
    ensures Inv(Run(start, steps))
  {
    InitHolds(start);
    RunKeeps(start, steps);
  }

  /** An existing node that has no pending change, is not being loaded and has not been
      written since its last version bump was last loaded exactly as it is stored; if that
      content is consistent, the snapshot that workers are served is the stored content
      under the stored version. */
  lemma Convergence(start: State, steps: seq<Step>, node: string)
    requires Init(start)
    requires var st := Run(start, steps);
      node in st.db.nodes && !Pending(st, node) && !LoadingNode(st, node) && node !in st.dirty
    ensures var st := Run(start, steps);
      && node in st.loaded
      && st.loaded[node].version == st.db.nodes[node].version && st.loaded[node].content == ContentOf(st.db, node)
      && (Consistent(ContentOf(st.db, node)) ==>
           && node in st.snapshots
           && st.snapshots[node].version == st.db.nodes[node].version
           && st.snapshots[node].content == ContentOf(st.db, node)
           && st.snapshots[node] in st.published)
  {
    Reachable(start, steps);
    assert Settled(Run(start, steps), node);
  }

  /** If a node's version is a UUID and no write followed its bump, every snapshot ever
      published under that version holds exactly what the database holds. */
  lemma LabelSoundness(start: State, steps: seq<Step>, s: Snapshot)
    requires Init(start)
    requires var st := Run(start, steps);
      && s in st.published && s.version.Uuid? && s.node in st.db.nodes
      && st.db.nodes[s.node].version == s.version && s.node !in st.dirty
    ensures s.content == ContentOf(Run(start, steps).db, s.node)
  {
    Reachable(start, steps);
    assert MatchesLabel(Run(start, steps), s);
  }

  /** "Synced" under a UUID, with no write since its bump, means that a snapshot under that
      version was published for the worker, and each such snapshot is the stored content. */
  lemma SyncedMeansStored(start: State, steps: seq<Step>, node: string)
    requires Init(start)
    requires var st := Run(start, steps);
      LiveSyncStatus(st, node) == Synced && st.db.nodes[node].version.Uuid? && node !in st.dirty
    ensures var st := Run(start, steps);
      var sent := (s: Snapshot) => s.node == node && s.version == st.workers[node];
      && (exists s :: s in st.published && sent(s))
      && (forall s :: s in st.published && sent(s) ==> s.content == ContentOf(st.db, node))
  {
    var st := Run(start, steps);
    Reachable(start, steps);
    assert MayReport(st, node, st.workers[node]);
    var i :| 0 <= i < |st.published| && st.published[i].node == node && st.published[i].version == st.workers[node];
    assert st.published[i] in st.published;
    forall s | s in st.published && s.node == node && s.version == st.workers[node]
      ensures s.content == ContentOf(st.db, node)
    {
      assert MatchesLabel(st, s);
    }
  }

  /** Snapshots never go back: each is consistent, was assembled from collections read in
      order while or after the node carried its label, and no collection in it is older than
      any collection in any snapshot published before it. */
  lemma NoGoingBack(start: State, steps: seq<Step>, j: nat)
    requires Init(start) && j < |Run(start, steps).published|
    ensures var st := Run(start, steps);
      && Consistent(st.published[j].content) && SnapshotWitnessed(st.past, st.published[j])
      && forall i :: 0 <= i < j ==> NotAfter(st.published[i].times, st.published[j].times)
  {
    var st := Run(start, steps);
    Reachable(start, steps);
    assert st.published[j] in st.published;
    forall i | 0 <= i < j
      ensures NotAfter(st.published[i].times, st.published[j].times)
    {
      assert ReadBefore(st.published[i], st.published[j].since);
    }
  }

  predicate NotAfter(early: seq<nat>, late: seq<nat>) {
    forall a, b :: 0 <= a < |early| && 0 <= b < |late| ==> early[a] <= late[b]
  }

  /** No collection of a snapshot was read before the bump that made its label. */
  lemma ReadsFollowBump(start: State, steps: seq<Step>, s: Snapshot, bump: nat)
    requires Init(start)
    requires var st := Run(start, steps);
      && s in st.published
      && forall t :: 0 <= t < bump && t < |st.past| && s.node in st.past[t].nodes ==>
           st.past[t].nodes[s.node].version != s.version
    ensures forall i :: 0 <= i < |s.times| ==> bump <= s.times[i]
  {
    Reachable(start, steps);
    assert SnapshotWitnessed(Run(start, steps).past, s);
  }

  // ---- Where the sync status says less ----

  /** Without a UUID the status can be "Synced" though nothing was ever published: a node
      created by its address alone has the empty version that a first request reports. */
  lemma EmptyVersionLooksSynced() returns (start: State, steps: seq<Step>)
    ensures Init(start)
    ensures var st := Run(start, steps); LiveSyncStatus(st, "n") == Synced && st.published == []
  {
    start := State(Db(map[], map[]), 0, [], Idle, map[], map[], map[], {}, [], [Db(map[], map[])]);
    steps := [PutNode("n", true), Report("n", Empty)];
    assert steps[..1][..0] == [];
    var one := Apply(start, steps[0]);
    assert Run(start, steps[..1]) == one;
    assert Run(start, steps) == Apply(one, steps[1]);
  }

  /** A handler that stops between its write and its bump goes unnoticed: the status is what
      it was, while no snapshot under the reported version holds the new content any more. */
  lemma StoppedHandlerGoesUnnoticed(start: State, steps: seq<Step>, node: string, collection: nat, docs: Docs)
    requires Init(start) && collection < COLLECTIONS
    requires var st := Run(start, steps);
      && LiveSyncStatus(st, node) == Synced && st.db.nodes[node].version.Uuid? && node !in st.dirty
      && ContentOf(st.db, node)[collection] != docs
    ensures var st := Run(start, steps);
      var after := Apply(st, Write(node, collection, docs));
      && LiveSyncStatus(after, node) == Synced
      && forall s :: s in after.published && s.node == node && s.version == after.workers[node] ==>
           s.content != ContentOf(after.db, node)
  {
    SyncedMeansStored(start, steps, node);
    Reachable(start, steps);
    var st := Run(start, steps);
    var after := Apply(st, Write(node, collection, docs));
    assert ContentOf(after.db, node)[collection] == docs;
    forall s | s in after.published && s.node == node && s.version == after.workers[node]
      ensures s.content != ContentOf(after.db, node)
    {
      LabelSoundness(start, steps, s);
    }
  }

  // ---- What workers are served ----

  /** The last snapshot published for a node. */
  function LastFor(published: seq<Snapshot>, node: string): Option<Snapshot> {
    if published == [] then None
    else
      var n := |published| - 1;
      if published[n].node == node then Some(published[n]) else LastFor(published[..n], node)
  }

  function ServedTo(st: State, node: string): Option<Snapshot> {
    if node in st.snapshots then Some(st.snapshots[node]) else None
  }

  lemma {:induction false} LastForIs(published: seq<Snapshot>, node: string, s: Snapshot)
    requires s in published && s.node == node
    requires forall t :: t in published && t.node == node ==> t == s
    ensures LastFor(published, node) == Some(s)
  {
    var n := |published| - 1;
    if published[n].node == node {
      assert published[n] in published;
    } else {
      assert forall t :: t in published[..n] ==> t in published;
      LastForIs(published[..n], node, s);
    }
  }

  lemma {:induction false} NoneFor(published: seq<Snapshot>, node: string)
    requires forall t :: t in published ==> t.node != node
    ensures LastFor(published, node) == None
  {
    if published != [] {
      NoneFor(published[..|published| - 1], node);
    }
  }

  /** A new snapshot of another node changes nothing, one of this node replaces the last. */
  lemma LastForExtends(published: seq<Snapshot>, s: Snapshot, node: string)
    ensures LastFor(published + [s], node) == if s.node == node then Some(s) else LastFor(published, node)
  {
    assert (published + [s])[..|published|] == published;
  }

  lemma PublishedIsServed(st: State, s: Snapshot)
    requires Init(st) && s in st.published
    ensures s.node in st.snapshots && st.snapshots[s.node] == s
  {
    assert TakenAtStart(st.db, s);
    assert TakenAtStart(st.db, st.loaded[s.node]);
  }

  lemma ServedAtStart(st: State, node: string)
    requires Init(st)
    ensures ServedTo(st, node) == LastFor(st.published, node)
  {
    forall s | s in st.published
      ensures s.node in st.snapshots && st.snapshots[s.node] == s
    {
      PublishedIsServed(st, s);
    }
    if node in st.snapshots {
      LastForIs(st.published, node, st.snapshots[node]);
    } else {
      NoneFor(st.published, node);
    }
  }

  /** Only a step that publishes changes what is served, and only for the node it publishes. */
  lemma ServedChangesByPublishing(st: State, step: Step, node: string)
    ensures var after := Apply(st, step);
      && (node in st.snapshots ==> node in after.snapshots)
      && (after.published == st.published ==> after.snapshots == st.snapshots)
      && (after.published != st.published ==>
           && |after.published| == |st.published| + 1 && after.published[..|st.published|] == st.published
           && var s := after.published[|st.published|];
              Consistent(s.content) && ServedTo(after, node) == if s.node == node then Some(s) else ServedTo(st, node))
  {
    var after := Apply(st, step);
    if after.published != st.published {
      var s := after.published[|st.published|];
      assert after.published == st.published + [s] && after.snapshots == st.snapshots[s.node := s];
    } else if step.Publish? && Enabled(st, step) && st.past != [] {
      assert |TakePublish(st).published| == |st.published|;
    }
  }

  lemma ServingFollows(st: State, step: Step, node: string)
    requires ServedTo(st, node) == LastFor(st.published, node)
    ensures var after := Apply(st, step); ServedTo(after, node) == LastFor(after.published, node)
  {
    var after := Apply(st, step);
    ServedChangesByPublishing(st, step, node);
    if after.published != st.published {
      var s := after.published[|st.published|];
      assert after.published == st.published + [s];
      LastForExtends(st.published, s, node);
    }
  }

  /** A finished load is published exactly when its clusters have endpoints and its endpoints
      clusters, name by name; if not, every node is served what it was. */
  lemma UnmatchedNamesHoldBack(st: State)
    requires Enabled(st, Publish) && st.past != []
    ensures var after, parts := Apply(st, Publish), st.watcher.parts;
      if forall name :: name in parts[1] <==> name in parts[2]
      then |after.published| == |st.published| + 1 && after.published[|st.published|].content == parts
      else after.published == st.published && after.snapshots == st.snapshots
  {
    var parts := st.watcher.parts;
    assert parts[1].Keys == parts[2].Keys <==> forall name :: name in parts[1] <==> name in parts[2];
  }

  /** In every reachable state each node is served the last snapshot published for it, and
      none exactly if none was: an inconsistent load leaves the served snapshot in place. */
  lemma {:induction false} ServedIsLastPublished(start: State, steps: seq<Step>, node: string)
    requires Init(start)
    ensures var st := Run(start, steps); ServedTo(st, node) == LastFor(st.published, node)
  {
    if steps == [] {
      ServedAtStart(start, node);
    } else {
      var n := |steps| - 1;
      ServedIsLastPublished(start, steps[..n], node);
      ServingFollows(Run(start, steps[..n]), steps[n], node);
    }
  }

  /** A node that is served stays served, whatever happens afterwards. */
  lemma {:induction false} NeverWithdrawn(st: State, later: seq<Step>, node: string)
    requires node in st.snapshots
    ensures node in Run(st, later).snapshots
  {
    if later != [] {
      var n := |later| - 1;
      NeverWithdrawn(st, later[..n], node);
      ServedChangesByPublishing(Run(st, later[..n]), later[n], node);
    }
  }

  // ---- What the sync status tells ----

  /** Tokens that workers reported lie below the next one. */
  lemma ReportsAreOld(st: State, node: string)
    requires Inv(st) && node in st.workers
    ensures VersionBelow(st.workers[node], st.next)
  {
    assert MayReport(st, node, st.workers[node]);
  }

  lemma BumpUnsyncs(st: State, node: string)
    requires st.past != [] && (node in st.workers ==> st.workers[node] != Uuid(st.next))
    ensures LiveSyncStatus(Apply(st, Bump(node)), node) == NotSynced
  {
  }

  lemma ReportSyncs(st: State, node: string, version: Version)
    requires st.past != [] && MayReport(st, node, version) && node in st.db.nodes
    ensures LiveSyncStatus(Apply(st, Report(node, version)), node) ==
      if version == st.db.nodes[node].version then Synced else NotSynced
  {
  }

  lemma DeletionUnnames(st: State, node: string)
    requires st.past != []
    ensures LiveSyncStatus(Apply(st, DeleteNode(node)), node) == NotFound
  {
  }

  /** A bump makes the status "False", whatever was reported before; a report makes it "True"
      exactly if it names the node's current version; a deletion leaves no status. */
  lemma StatusFollows(start: State, steps: seq<Step>, st: State, node: string, version: Version)
    requires Init(start) && st == Run(start, steps)
    ensures LiveSyncStatus(Apply(st, Bump(node)), node) == NotSynced
    ensures LiveSyncStatus(Apply(st, DeleteNode(node)), node) == NotFound
    ensures MayReport(st, node, version) && node in st.db.nodes ==>
      LiveSyncStatus(Apply(st, Report(node, version)), node) ==
        if version == st.db.nodes[node].version then Synced else NotSynced
  {
    Reachable(start, steps);
    if node in st.workers {
      ReportsAreOld(st, node);
    }
    BumpUnsyncs(st, node);
    DeletionUnnames(st, node);
    if MayReport(st, node, version) && node in st.db.nodes {
      ReportSyncs(st, node, version);
    }
  }
}
