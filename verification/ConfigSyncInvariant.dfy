/** The inductive invariant of the configuration protocol. */
module ConfigSyncInvariant {
  import opened ConfigSync

  // ---- Its parts ----

  ghost predicate Fresh(st: State) {
    && (forall node :: node in st.db.nodes ==> DocBelow(st.db.nodes[node], st.next))
    && (forall c :: c in st.changes ==> c.id < st.next)
    && (st.watcher.Loading? ==> st.watcher.id < st.next && VersionBelow(st.watcher.version, st.next))
    && (forall s :: s in st.published ==> VersionBelow(s.version, st.next))
  }

  predicate Pending(st: State, node: string) {
    node in st.db.nodes && Change(node, st.db.nodes[node].id) in st.changes
  }

  predicate LoadingNode(st: State, node: string) {
    st.watcher.Loading? && st.watcher.node == node
  }

  /** An existing node without a write since its last bump and without a pending change
      is being loaded as it is, or has been loaded as it is. */
  predicate Settled(st: State, node: string) {
    node in st.db.nodes && node !in st.dirty && !Pending(st, node) ==>
      if LoadingNode(st, node) then
        && st.watcher.version == st.db.nodes[node].version
        && st.watcher.parts <= ContentOf(st.db, node)
      else
        && node in st.loaded
        && st.loaded[node].version == st.db.nodes[node].version
        && st.loaded[node].content == ContentOf(st.db, node)
  }

  /** The node still carries this UUID and has not been written since it got it. */
  predicate Current(st: State, node: string, version: Version) {
    version.Uuid? && node in st.db.nodes && st.db.nodes[node].version == version && node !in st.dirty
  }

  predicate LoadMatchesLabel(st: State) {
    st.watcher.Loading? && Current(st, st.watcher.node, st.watcher.version) ==>
      st.watcher.parts <= ContentOf(st.db, st.watcher.node)
  }

  predicate MatchesLabel(st: State, s: Snapshot) {
    Current(st, s.node, s.version) ==> s.content == ContentOf(st.db, s.node)
  }

  /** The node carried the label at `since`, and each part is what its collection held at its time. */
  predicate Witnessed(past: seq<Db>, node: string, version: Version, since: nat, parts: seq<Docs>, times: seq<nat>) {
    && since < |past| && node in past[since].nodes && past[since].nodes[node].version == version
    && |parts| == |times| <= COLLECTIONS
    && (forall i :: 0 <= i < |times| ==> since <= times[i] < |past|)
    && (forall i, j :: 0 <= i < j < |times| ==> times[i] <= times[j])
    && (forall i :: 0 <= i < |times| ==> parts[i] == ContentOf(past[times[i]], node)[i])
  }

  predicate SnapshotWitnessed(past: seq<Db>, s: Snapshot) {
    |s.times| == COLLECTIONS && Witnessed(past, s.node, s.version, s.since, s.content, s.times)
  }

  /** Everything `early` holds was read no later than the reading of `late` began. */
  predicate ReadBefore(early: Snapshot, late: nat) {
    forall i :: 0 <= i < |early.times| ==> early.times[i] <= late
  }

  ghost predicate Timely(st: State) {
    && (st.watcher.Loading? ==>
         && Witnessed(st.past, st.watcher.node, st.watcher.version, st.watcher.since, st.watcher.parts, st.watcher.times)
         && forall s :: s in st.published ==> ReadBefore(s, st.watcher.since))
    && (forall s :: s in st.published ==> SnapshotWitnessed(st.past, s))
    && (forall i, j :: 0 <= i < j < |st.published| ==> ReadBefore(st.published[i], st.published[j].since))
  }

  ghost predicate Kept(st: State) {
    && (forall s :: s in st.published ==> Consistent(s.content))
    && (forall node :: node in st.loaded && Consistent(st.loaded[node].content) ==>
         node in st.snapshots && st.snapshots[node] == st.loaded[node])
    && (forall node :: node in st.snapshots ==> st.snapshots[node].node == node && st.snapshots[node] in st.published)
    && (forall node :: node in st.workers ==> MayReport(st, node, st.workers[node]))
  }

  /** The part of the invariant that speaks of the present only. */
  ghost predicate Core(st: State) {
    && Fresh(st)
    && (forall node :: Settled(st, node))
    && LoadMatchesLabel(st)
    && (forall s :: s in st.published ==> MatchesLabel(st, s))
  }

  ghost predicate Inv(st: State) {
    && st.past != [] && st.past[Now(st)] == st.db
    && Core(st)
    && Timely(st)
    && Kept(st)
  }

  lemma CoreIgnoresPast(st: State, past: seq<Db>)
    requires Core(st)
    ensures Core(st.(past := past))
  {
    forall node
      ensures Settled(st.(past := past), node)
    {
      assert Settled(st, node);
    }
    forall s | s in st.published
      ensures MatchesLabel(st.(past := past), s)
    {
      assert MatchesLabel(st, s);
    }
  }

  lemma InitIsTimely(st: State)
    requires Init(st)
    ensures Timely(st)
  {
    forall s | s in st.published
      ensures SnapshotWitnessed(st.past, s)
    {
      assert TakenAtStart(st.db, s);
    }
    forall i, j | 0 <= i < j < |st.published|
      ensures ReadBefore(st.published[i], st.published[j].since)
    {
      assert TakenAtStart(st.db, st.published[i]);
    }
  }

  lemma InitHolds(st: State)
    requires Init(st)
    ensures Inv(st)
  {
    InitIsTimely(st);
    forall node
      ensures Settled(st, node)
    {
      assert node in st.loaded <==> node in st.db.nodes;
    }
    forall s | s in st.published
      ensures MatchesLabel(st, s) && VersionBelow(s.version, st.next)
    {
      assert TakenAtStart(st.db, s);
    }
  }

  // ---- Timeliness survives the passing of time ----

  lemma WitnessedLater(past: seq<Db>, db: Db, node: string, version: Version, since: nat, parts: seq<Docs>, times: seq<nat>)
    requires Witnessed(past, node, version, since, parts, times)
    ensures Witnessed(past + [db], node, version, since, parts, times)
  {
  }

  lemma SnapshotsWitnessedLater(past: seq<Db>, db: Db, published: seq<Snapshot>)
    requires forall s :: s in published ==> SnapshotWitnessed(past, s)
    ensures forall s :: s in published ==> SnapshotWitnessed(past + [db], s)
  {
    forall s | s in published
      ensures SnapshotWitnessed(past + [db], s)
    {
      assert SnapshotWitnessed(past, s);
      WitnessedLater(past, db, s.node, s.version, s.since, s.content, s.times);
    }
  }

  /** A step that leaves the watcher and the published snapshots alone keeps them timely. */
  lemma TimelyLater(st: State, after: State, db: Db)
    requires Timely(st) && after.watcher == st.watcher && after.published == st.published
    requires after.past == st.past + [db]
    ensures Timely(after)
  {
    SnapshotsWitnessedLater(st.past, db, st.published);
    if st.watcher.Loading? {
      WitnessedLater(st.past, db, st.watcher.node, st.watcher.version, st.watcher.since, st.watcher.parts, st.watcher.times);
    }
  }

  // ---- Each step keeps the invariant ----

  lemma WriteKeeps(st: State, step: Step)
    requires Inv(st) && Enabled(st, step) && step.Write?
    ensures Inv(Apply(st, step))
  {
    var after := Apply(st, step);
    TimelyLater(st, after, after.db);
    forall node
      ensures Settled(after, node)
    {
      assert Settled(st, node);
    }
    forall s | s in after.published
      ensures MatchesLabel(after, s)
    {
      assert MatchesLabel(st, s);
    }
    KeptUnchanged(st, after);
  }

  /** A node keeps its version, loses it with its document, or gets an empty or a fresh one. */
  predicate VersionsMove(st: State, after: State) {
    && st.next <= after.next
    && forall node :: node in after.db.nodes ==>
         || (node in st.db.nodes && after.db.nodes[node].version == st.db.nodes[node].version)
         || after.db.nodes[node].version == Empty
         || after.db.nodes[node].version.token >= st.next
  }

  /** Without a new report, what workers reported stays reportable. */
  lemma MayReportsKept(st: State, after: State)
    requires Kept(st) && st.published <= after.published && after.workers == st.workers && VersionsMove(st, after)
    ensures forall node :: node in after.workers ==> MayReport(after, node, after.workers[node])
  {
    forall node | node in after.workers
      ensures MayReport(after, node, after.workers[node])
    {
      MayStillReport(st, after, node, st.workers[node]);
    }
  }

  lemma KeptUnchanged(st: State, after: State)
    requires Kept(st) && VersionsMove(st, after)
    requires after.published == st.published && after.loaded == st.loaded
    requires after.snapshots == st.snapshots && after.workers == st.workers
    ensures Kept(after)
  {
    MayReportsKept(st, after);
  }

  lemma MayStillReport(st: State, after: State, node: string, version: Version)
    requires MayReport(st, node, version) && st.published <= after.published && VersionsMove(st, after)
    ensures MayReport(after, node, version)
  {
    if version != Empty && !Outdated(st, node, version) {
      var i :| 0 <= i < |st.published| && st.published[i].node == node && st.published[i].version == version;
      assert after.published[i] == st.published[i];
    }
  }

  /** A bumped node is pending, and no snapshot carries its new version yet. */
  lemma BumpKeepsCore(st: State, name: string)
    requires Core(st)
    ensures Core(TakeBump(st, name))
  {
    var after := TakeBump(st, name);
    assert forall c :: c in st.changes ==> c in after.changes;
    assert after.changes[|st.changes|] == Change(name, after.db.nodes[name].id);
    forall node
      ensures Settled(after, node)
    {
      assert Settled(st, node);
    }
    forall s | s in after.published
      ensures MatchesLabel(after, s)
    {
      assert MatchesLabel(st, s);
    }
  }

  lemma BumpKeeps(st: State, step: Step)
    requires Inv(st) && Enabled(st, step) && step.Bump?
    ensures Inv(Apply(st, step))
  {
    var after := Apply(st, step);
    TimelyLater(st, after, after.db);
    KeptUnchanged(st, after);
    BumpKeepsCore(st, step.node);
    CoreIgnoresPast(Take(st, step), after.past);
  }

  lemma TouchNodeKeepsCore(st: State, name: string, changed: bool)
    requires Core(st) && name in st.db.nodes
    ensures Core(TouchNode(st, name, changed))
  {
    var after := TouchNode(st, name, changed);
    assert forall c :: c in st.changes ==> c in after.changes;
    forall node
      ensures Settled(after, node)
    {
      assert Settled(st, node);
    }
    forall s | s in after.published
      ensures MatchesLabel(after, s)
    {
      assert MatchesLabel(st, s);
    }
  }

  /** An inserted document is pending, and carries no UUID. */
  lemma InsertNodeKeepsCore(st: State, name: string)
    requires Core(st) && name !in st.db.nodes
    ensures Core(InsertNode(st, name))
  {
    var after := InsertNode(st, name);
    assert forall c :: c in st.changes ==> c in after.changes;
    assert after.changes[|st.changes|] == Change(name, st.next);
    forall node
      ensures Settled(after, node)
    {
      assert Settled(st, node);
    }
    forall s | s in after.published
      ensures MatchesLabel(after, s)
    {
      assert MatchesLabel(st, s);
    }
  }

  lemma PutNodeKeeps(st: State, step: Step)
    requires Inv(st) && Enabled(st, step) && step.PutNode?
    ensures Inv(Apply(st, step))
  {
    var after := Apply(st, step);
    TimelyLater(st, after, after.db);
    KeptUnchanged(st, after);
    if step.node in st.db.nodes {
      TouchNodeKeepsCore(st, step.node, step.changed);
    } else {
      InsertNodeKeepsCore(st, step.node);
    }
    CoreIgnoresPast(Take(st, step), after.past);
  }

  function DeleteNodeOf(st: State, name: string): State {
    st.(db := st.db.(nodes := st.db.nodes - {name}))
  }

  lemma DeleteNodeKeepsCore(st: State, name: string)
    requires Core(st)
    ensures Core(DeleteNodeOf(st, name))
  {
    var after := DeleteNodeOf(st, name);
    forall node
      ensures Settled(after, node)
    {
      assert Settled(st, node);
    }
    forall s | s in after.published
      ensures MatchesLabel(after, s)
    {
      assert MatchesLabel(st, s);
    }
  }

  lemma DeleteNodeKeeps(st: State, step: Step)
    requires Inv(st) && Enabled(st, step) && step.DeleteNode?
    ensures Inv(Apply(st, step))
  {
    var after := Apply(st, step);
    TimelyLater(st, after, after.db);
    KeptUnchanged(st, after);
    DeleteNodeKeepsCore(st, step.node);
    CoreIgnoresPast(DeleteNodeOf(st, step.node), after.past);
  }

  lemma FetchIsTimely(st: State)
    requires Timely(st) && Enabled(st, Fetch) && st.past != [] && st.past[Now(st)] == st.db
    ensures Timely(Apply(st, Fetch))
  {
    var after := Apply(st, Fetch);
    SnapshotsWitnessedLater(st.past, st.db, st.published);
    forall s | s in st.published && after.watcher.Loading?
      ensures ReadBefore(s, after.watcher.since)
    {
      assert SnapshotWitnessed(st.past, s);
    }
  }

  lemma FetchKeepsCore(st: State)
    requires Core(st) && Enabled(st, Fetch) && st.past != []
    ensures Core(TakeFetch(st))
  {
    var after := TakeFetch(st);
    forall node
      ensures Settled(after, node)
    {
      assert Settled(st, node);
      assert st.changes == [st.changes[0]] + after.changes;
    }
    forall s | s in after.published
      ensures MatchesLabel(after, s)
    {
      assert MatchesLabel(st, s);
    }
  }

  lemma FetchKeeps(st: State, step: Step)
    requires Inv(st) && Enabled(st, step) && step.Fetch?
    ensures Inv(Apply(st, step))
  {
    var after := Apply(st, step);
    FetchIsTimely(st);
    FetchKeepsCore(st);
    CoreIgnoresPast(TakeFetch(st), after.past);
    KeptUnchanged(st, after);
  }

  /** Reading one more collection now. */
  lemma WitnessedMore(past: seq<Db>, db: Db, node: string, version: Version, since: nat, parts: seq<Docs>, times: seq<nat>)
    requires Witnessed(past, node, version, since, parts, times) && |parts| < COLLECTIONS
    ensures Witnessed(past + [db], node, version, since,
                      parts + [ContentOf(past[|past| - 1], node)[|parts|]], times + [|past| - 1])
  {
    var later, now := past + [db], |past| - 1;
    var more, at := parts + [ContentOf(past[now], node)[|parts|]], times + [now];
    WitnessedLater(past, db, node, version, since, parts, times);
    forall i | 0 <= i < |at|
      ensures since <= at[i] < |later| && more[i] == ContentOf(later[at[i]], node)[i]
    {
      if i < |times| {
        assert at[i] == times[i] && more[i] == parts[i];
      } else {
        assert at[i] == now && later[now] == past[now];
      }
    }
  }

  lemma ReadIsTimely(st: State)
    requires Timely(st) && Enabled(st, Read) && st.past != [] && st.past[Now(st)] == st.db
    ensures Timely(Apply(st, Read))
  {
    var w := st.watcher;
    SnapshotsWitnessedLater(st.past, st.db, st.published);
    WitnessedMore(st.past, st.db, w.node, w.version, w.since, w.parts, w.times);
  }

  lemma ReadKeeps(st: State)
    requires Inv(st) && Enabled(st, Read)
    ensures Inv(Apply(st, Read))
  {
    var after := Apply(st, Read);
    ReadIsTimely(st);
    forall node
      ensures Settled(after, node)
    {
      assert Settled(st, node);
    }
    forall s | s in after.published
      ensures MatchesLabel(after, s)
    {
      assert MatchesLabel(st, s);
    }
    KeptUnchanged(st, after);
  }

  function Assembled(w: Watcher): Snapshot
    requires w.Loading? && |w.parts| == COLLECTIONS
  {
    Snapshot(w.node, w.version, w.parts, w.since, w.times)
  }

  lemma PublishIsTimely(st: State)
    requires Timely(st) && Enabled(st, Publish) && st.past != []
    ensures Timely(Apply(st, Publish))
  {
    var after, w, snapshot := Apply(st, Publish), st.watcher, Assembled(st.watcher);
    SnapshotsWitnessedLater(st.past, st.db, st.published);
    WitnessedLater(st.past, st.db, w.node, w.version, w.since, w.parts, w.times);
    assert SnapshotWitnessed(after.past, snapshot);
    forall i, j | 0 <= i < j < |after.published|
      ensures ReadBefore(after.published[i], after.published[j].since)
    {
      assert after.published[i] == st.published[i] && st.published[i] in st.published;
    }
  }

  lemma PublishIsKept(st: State)
    requires Kept(st) && Enabled(st, Publish) && st.past != []
    ensures Kept(Apply(st, Publish))
  {
    var after := Apply(st, Publish);
    MayReportsKept(st, after);
    PublishKeepsSnapshots(st);
  }

  lemma PublishKeepsSnapshots(st: State)
    requires Kept(st) && Enabled(st, Publish) && st.past != []
    ensures var after := Apply(st, Publish);
      && (forall s :: s in after.published ==> Consistent(s.content))
      && (forall node :: node in after.loaded && Consistent(after.loaded[node].content) ==>
           node in after.snapshots && after.snapshots[node] == after.loaded[node])
      && (forall node :: node in after.snapshots ==>
           after.snapshots[node].node == node && after.snapshots[node] in after.published)
  {
    var after, snapshot := Apply(st, Publish), Assembled(st.watcher);
    if Consistent(snapshot.content) {
      assert after.published == st.published + [snapshot];
      assert snapshot in after.published;
      assert forall s :: s in st.published ==> s in after.published;
    }
  }

  /** A load that ends settles its node: what was read is what is loaded. */
  lemma PublishSettles(st: State, node: string)
    requires Settled(st, node) && Enabled(st, Publish) && st.past != []
    ensures Settled(Apply(st, Publish), node)
  {
  }

  lemma PublishMatchesLabels(st: State)
    requires LoadMatchesLabel(st) && Enabled(st, Publish) && st.past != []
    requires forall s :: s in st.published ==> MatchesLabel(st, s)
    ensures forall s :: s in Apply(st, Publish).published ==> MatchesLabel(Apply(st, Publish), s)
  {
    var after, snapshot := Apply(st, Publish), Assembled(st.watcher);
    forall s | s in after.published
      ensures MatchesLabel(after, s)
    {
      assert s == snapshot || MatchesLabel(st, s);
    }
  }

  lemma PublishIsFresh(st: State)
    requires Fresh(st) && Enabled(st, Publish) && st.past != []
    ensures Fresh(Apply(st, Publish))
  {
    assert forall s :: s in Apply(st, Publish).published ==> s in st.published || s == Assembled(st.watcher);
  }

  lemma PublishKeeps(st: State)
    requires Inv(st) && Enabled(st, Publish)
    ensures Inv(Apply(st, Publish))
  {
    PublishIsFresh(st);
    PublishIsTimely(st);
    PublishIsKept(st);
    PublishMatchesLabels(st);
    forall node
      ensures Settled(Apply(st, Publish), node)
    {
      assert Settled(st, node);
      PublishSettles(st, node);
    }
  }

  lemma ReportKeeps(st: State, step: Step)
    requires Inv(st) && Enabled(st, step) && step.Report?
    ensures Inv(Apply(st, step))
  {
    var after := Apply(st, step);
    TimelyLater(st, after, after.db);
    forall node
      ensures Settled(after, node)
    {
      assert Settled(st, node);
    }
    forall s | s in after.published
      ensures MatchesLabel(after, s)
    {
      assert MatchesLabel(st, s);
    }
    forall node | node in after.workers
      ensures MayReport(after, node, after.workers[node])
    {
      MayStillReport(st, after, node, after.workers[node]);
    }
  }

  lemma StepKeeps(st: State, step: Step)
    requires Inv(st)
    ensures Inv(Apply(st, step))
  {
    if Enabled(st, step) {
      match step
      case Write(_, _, _) => WriteKeeps(st, step);
      case Bump(_) => BumpKeeps(st, step);
      case PutNode(_, _) => PutNodeKeeps(st, step);
      case DeleteNode(_) => DeleteNodeKeeps(st, step);
      case Fetch => FetchKeeps(st, step);
      case Read => ReadKeeps(st);
      case Publish => PublishKeeps(st);
      case Report(_, _) => ReportKeeps(st, step);
    }
  }

  lemma {:induction false} RunKeeps(st: State, steps: seq<Step>)
    requires Inv(st)
    ensures Inv(Run(st, steps))
  {
    if steps != [] {
      RunKeeps(st, steps[..|steps| - 1]);
      StepKeeps(Run(st, steps[..|steps| - 1]), steps[|steps| - 1]);
    }
  }
}
