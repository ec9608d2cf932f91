/** How a configuration change reaches a worker: REST handlers write a collection and then
    put a fresh version into the node document; one watcher takes the resulting change
    events in turn, re-reads the node, reads its four collections one at a time and
    publishes a snapshot if it is consistent; workers report the version they received.

    Every database operation is one atomic step, and steps of different handlers, of the
    watcher and of workers interleave freely. */
module ConfigSync {

  // ---- The database ----

  type Docs = map<string, string>

  const LISTENERS: nat := 0
  const CLUSTERS: nat := 1
  const ENDPOINTS: nat := 2
  const SECRETS: nat := 3
  const COLLECTIONS: nat := 4

  /** A node's documents in its four collections, in the order in which they are read. */
  type Content = c: seq<Docs> | |c| == COLLECTIONS witness [map[], map[], map[], map[]]

  const NOTHING: Content := [map[], map[], map[], map[]]

  /** The version field of a node document: a UUID, or empty if no handler has set one. */
  datatype Version = Empty | Uuid(token: nat)

  /** A node document with its object id; ids are never used again after a deletion. */
  datatype NodeDoc = NodeDoc(id: nat, version: Version)

  datatype Db = Db(nodes: map<string, NodeDoc>, contents: map<string, Content>)

  function ContentOf(db: Db, node: string): Content {
    if node in db.contents then db.contents[node] else NOTHING
  }

  /** Every cluster is discovered through EDS, so a snapshot is consistent when it has
      endpoints for exactly its clusters. */
  predicate Consistent(content: Content) {
    content[CLUSTERS].Keys == content[ENDPOINTS].Keys
  }

  // ---- The machine ----

  /** A change of the node document with this id; the name is the document's own. */
  datatype Change = Change(node: string, id: nat)

  /** `since` is when the node document was read, `times` when each collection was. */
  datatype Watcher =
    | Idle
    | Loading(node: string, id: nat, version: Version, since: nat, parts: seq<Docs>, times: seq<nat>)

  datatype Snapshot = Snapshot(node: string, version: Version, content: Content, since: nat, times: seq<nat>)

  /** `dirty` holds the nodes written since their last version bump, `published` every
      snapshot ever published, `past` the database at every instant so far. */
  datatype State = State(
    db: Db,
    next: nat,
    changes: seq<Change>,
    watcher: Watcher,
    loaded: map<string, Snapshot>,
    snapshots: map<string, Snapshot>,
    workers: map<string, Version>,
    dirty: set<string>,
    published: seq<Snapshot>,
    past: seq<Db>)

  datatype Step =
    | Write(node: string, collection: nat, docs: Docs)
    | Bump(node: string)
    | PutNode(node: string, changed: bool)
    | DeleteNode(node: string)
    | Fetch
    | Read
    | Publish
    | Report(node: string, version: Version)

  function Now(st: State): nat
    requires st.past != []
  {
    |st.past| - 1
  }

  /** A UUID drawn before, that the node does not carry now. */
  predicate Outdated(st: State, node: string, version: Version) {
    && version.Uuid? && version.token < st.next
    && (node in st.db.nodes ==> st.db.nodes[node].version != version)
  }

  /** A worker's first request carries no version, later ones that of a snapshot it was sent,
      or one from before the server started, which its node no longer carries. */
  predicate MayReport(st: State, node: string, version: Version) {
    || version == Empty || Outdated(st, node, version)
    || exists i :: 0 <= i < |st.published| && st.published[i].node == node && st.published[i].version == version
  }

  predicate Enabled(st: State, step: Step) {
    match step
    case Write(_, collection, _) => collection < COLLECTIONS
    case Bump(_) => true
    case PutNode(_, _) => true
    case DeleteNode(_) => true
    case Fetch => st.watcher.Idle? && st.changes != []
    case Read => st.watcher.Loading? && |st.watcher.parts| < COLLECTIONS
    case Publish => st.watcher.Loading? && |st.watcher.parts| == COLLECTIONS
    case Report(node, version) => MayReport(st, node, version)
  }

  /** The document that an upsert finds or inserts. */
  function UpsertId(st: State, node: string): nat {
    if node in st.db.nodes then st.db.nodes[node].id else st.next
  }

  function TakeWrite(st: State, node: string, collection: nat, docs: Docs): State
    requires collection < COLLECTIONS
  {
    st.(db := st.db.(contents := st.db.contents[node := ContentOf(st.db, node)[collection := docs]]),
        dirty := st.dirty + {node})
  }

  function TakeBump(st: State, node: string): State {
    st.(db := st.db.(nodes := st.db.nodes[node := NodeDoc(UpsertId(st, node), Uuid(st.next))]),
        next := st.next + 1,
        changes := st.changes + [Change(node, UpsertId(st, node))],
        dirty := st.dirty - {node})
  }

  /** An upsert of the address that inserts the document. */
  function InsertNode(st: State, node: string): State {
    st.(db := st.db.(nodes := st.db.nodes[node := NodeDoc(st.next, Empty)]),
        next := st.next + 1,
        changes := st.changes + [Change(node, st.next)])
  }

  /** An upsert of the address that finds the document; altering nothing raises no change. */
  function TouchNode(st: State, node: string, changed: bool): State
    requires node in st.db.nodes
  {
    if changed then st.(changes := st.changes + [Change(node, st.db.nodes[node].id)]) else st
  }

  /** Take the next change; a document deleted meanwhile is not found and skipped. */
  function TakeFetch(st: State): State
    requires st.changes != [] && st.past != []
  {
    var Change(node, id) := st.changes[0];
    st.(changes := st.changes[1..],
        watcher := if node in st.db.nodes && st.db.nodes[node].id == id
                   then Loading(node, id, st.db.nodes[node].version, Now(st), [], [])
                   else Idle)
  }

  function TakeRead(st: State): State
    requires st.watcher.Loading? && |st.watcher.parts| < COLLECTIONS && st.past != []
  {
    var w := st.watcher;
    st.(watcher := w.(parts := w.parts + [ContentOf(st.db, w.node)[|w.parts|]], times := w.times + [Now(st)]))
  }

  function TakePublish(st: State): State
    requires st.watcher.Loading? && |st.watcher.parts| == COLLECTIONS
  {
    var w := st.watcher;
    var snapshot := Snapshot(w.node, w.version, w.parts, w.since, w.times);
    var done := st.(watcher := Idle, loaded := st.loaded[w.node := snapshot]);
    if Consistent(snapshot.content) then
      done.(snapshots := st.snapshots[w.node := snapshot], published := st.published + [snapshot])
    else
      done
  }

  function Take(st: State, step: Step): State
    requires Enabled(st, step) && st.past != []
  {
    match step
    case Write(node, collection, docs) => TakeWrite(st, node, collection, docs)
    case Bump(node) => TakeBump(st, node)
    case PutNode(node, changed) =>
      if node in st.db.nodes then TouchNode(st, node, changed) else InsertNode(st, node)
    case DeleteNode(node) => st.(db := st.db.(nodes := st.db.nodes - {node}))
    case Fetch => TakeFetch(st)
    case Read => TakeRead(st)
    case Publish => TakePublish(st)
    case Report(node, version) => st.(workers := st.workers[node := version])
  }

  /** Each step is an instant; a step that cannot happen leaves the state alone. */
  function Apply(st: State, step: Step): State {
    if Enabled(st, step) && st.past != [] then
      var after := Take(st, step);
      after.(past := st.past + [after.db])
    else st
  }

  function Run(st: State, steps: seq<Step>): State {
    if steps == [] then st
    else Apply(Run(st, steps[..|steps| - 1]), steps[|steps| - 1])
  }

  /** `GetLiveSyncStatus`: no answer without a node document, "False" without a worker record. */
  datatype SyncStatus = NotFound | Synced | NotSynced

  function LiveSyncStatus(st: State, node: string): SyncStatus {
    if node !in st.db.nodes then NotFound
    else if node in st.workers && st.workers[node] == st.db.nodes[node].version then Synced
    else NotSynced
  }

  // ---- Where runs start ----

  /** A snapshot of the database as it is at instant 0. */
  predicate TakenAtStart(db: Db, s: Snapshot) {
    && s.node in db.nodes && s.version == db.nodes[s.node].version && s.content == ContentOf(db, s.node)
    && s.since == 0 && s.times == [0, 0, 0, 0]
  }

  /** The change stream has just been opened on a database that the start-up loop has loaded;
      records of workers, which outlive the server, are such as workers may report. */
  ghost predicate Init(st: State) {
    && st.past == [st.db] && st.changes == [] && st.watcher == Idle && st.dirty == {}
    && (forall node :: node in st.db.nodes ==> DocBelow(st.db.nodes[node], st.next))
    && st.loaded.Keys == st.db.nodes.Keys
    && (forall node :: node in st.loaded ==> st.loaded[node].node == node && TakenAtStart(st.db, st.loaded[node]))
    && (forall node :: node in st.loaded && Consistent(st.loaded[node].content) ==>
         node in st.snapshots && st.snapshots[node] == st.loaded[node])
    && (forall node :: node in st.snapshots ==> st.snapshots[node].node == node && st.snapshots[node] in st.published)
    && (forall s :: s in st.published ==> Consistent(s.content) && TakenAtStart(st.db, s))
    && (forall node :: node in st.workers ==> MayReport(st, node, st.workers[node]))
  }

  /** Tokens and ids handed out so far lie below the next one. */
  predicate DocBelow(doc: NodeDoc, next: nat) {
    doc.id < next && VersionBelow(doc.version, next)
  }

  predicate VersionBelow(version: Version, next: nat) {
    version.Uuid? ==> version.token < next
  }
}
