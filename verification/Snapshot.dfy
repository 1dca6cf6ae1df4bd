/** The snapshot release protocol: immutable manifests and one optimistic release pointer per corpus. */
module SnapshotRelease {
  import opened Text
  import opened Evaluation
  import opened SnapshotManifest

  // ---------------------------------------------------------------- Values and tables

  /** A snapshot row with its member rows in source order. */
  datatype Snapshot = Snapshot(id: Uuid, corpusID: Uuid, manifest: string, createdBy: string, createdAt: int, members: seq<Member>)

  datatype Release = Release(corpusID: Uuid, snapshotID: Uuid, version: int, activatedAt: int)

  datatype Store = Store(snapshots: map<Uuid, Snapshot>, releases: map<Uuid, Release>)

  datatype Failure = InvalidInput | NotFound | StaleRelease | CandidateNotReady | GraphReleaseNotReady | StorageError

  /** The release is absent when a first snapshot is only staged. */
  datatype Publication =
    | Published(snapshot: Snapshot, release: Option<Release>, created: bool)
    | Unpublished(failure: Failure)

  // ---------------------------------------------------------------- What the transaction reads elsewhere

  datatype DocumentDetails = DocumentDetails(sourceRevisionID: Uuid, officialOrigin: string, capturedAt: int, contentSHA256: string)

  /** Published documents by corpus, source and document; documents with complete artifacts; latest documents; ready graphs. */
  datatype World = World(
    published: map<(Uuid, Uuid, Uuid), DocumentDetails>, ready: set<Uuid>, latest: map<Uuid, seq<(Uuid, Uuid)>>,
    graphs: set<(Uuid, Uuid)>)

  datatype Candidate = Chosen(member: Member) | Refused(failure: Failure)

  function CandidateMember(world: World, corpusID: Uuid, sourceID: Uuid, documentID: Uuid): Candidate {
    if (corpusID, sourceID, documentID) !in world.published then Refused(NotFound)
    else if documentID !in world.ready then Refused(CandidateNotReady)
    else
      var details := world.published[(corpusID, sourceID, documentID)];
      Chosen(Member(sourceID, details.sourceRevisionID, documentID, details.officialOrigin, details.capturedAt, details.contentSHA256))
  }

  // ---------------------------------------------------------------- Writing a snapshot

  /** The member table's own keys and checks. */
  ghost predicate StorableMembers(members: seq<Member>) {
    && DistinctSources(members)
    && (forall i, j | 0 <= i < j < |members| :: members[i].documentID != members[j].documentID)
    && forall i | 0 <= i < |members| :: StorableMember(members[i])
  }

  ghost predicate HasManifest(store: Store, id: Uuid, corpusID: Uuid, manifest: string) {
    id in store.snapshots && store.snapshots[id].corpusID == corpusID && store.snapshots[id].manifest == manifest
  }

  /** findByManifest. */
  ghost function FindByManifest(store: Store, corpusID: Uuid, manifest: string): (found: Option<Uuid>)
    ensures found.Some? ==> HasManifest(store, found.value, corpusID, manifest)
    ensures found.None? ==> forall id | id in store.snapshots :: !HasManifest(store, id, corpusID, manifest)
  {
    if exists id :: HasManifest(store, id, corpusID, manifest) then
      var id :| HasManifest(store, id, corpusID, manifest);
      Some(id)
    else None
  }

  function PreviousSnapshot(previous: Option<Release>): Uuid {
    if previous.Some? then previous.value.snapshotID else NIL
  }

  function CurrentVersion(release: Option<Release>): int {
    if release.Some? then release.value.version else 0
  }

  function ReleaseOf(store: Store, corpusID: Uuid): Option<Release> {
    if corpusID in store.releases then Some(store.releases[corpusID]) else None
  }

  /** The pointer moved to a snapshot under the next version. */
  function Point(store: Store, corpusID: Uuid, snapshotID: Uuid, at: int): (Store, Release) {
    var release := Release(corpusID, snapshotID, CurrentVersion(ReleaseOf(store, corpusID)) + 1, at);
    (store.(releases := store.releases[corpusID := release]), release)
  }

  /** The snapshot row and its members, unless a key is taken. */
  ghost predicate Insertable(store: Store, snapshotID: Uuid, members: seq<Member>) {
    snapshotID !in store.snapshots && StorableMembers(members)
  }

  ghost function WriteSnapshot(
    store: Store, corpusID: Uuid, snapshotID: Uuid, actor: string, at: int, members: seq<Member>, stamp: int -> string, sha: string -> string)
    : (Store, Publication)
  {
    if members == [] then (store, Unpublished(CandidateNotReady))
    else
      var manifest := ManifestOf(members, stamp, sha);
      var existing := FindByManifest(store, corpusID, manifest);
      var previous := ReleaseOf(store, corpusID);
      if existing.Some? then
        if PreviousSnapshot(previous) != existing.value then (store, Unpublished(StaleRelease))
        else (store, Published(store.snapshots[existing.value], previous, false))
      else if !Insertable(store, snapshotID, members) || CurrentVersion(previous) >= MAX_INT32 then (store, Unpublished(StorageError))
      else
        var snapshot := Snapshot(snapshotID, corpusID, manifest, actor, at, BySource(members));
        var (after, release) := Point(store.(snapshots := store.snapshots[snapshotID := snapshot]), corpusID, snapshotID, at);
        (after, Published(snapshot.(members := members), Some(release), true))
  }

  ghost function WriteStagedSnapshot(
    store: Store, corpusID: Uuid, snapshotID: Uuid, actor: string, at: int, members: seq<Member>, stamp: int -> string, sha: string -> string)
    : (Store, Publication)
  {
    if members == [] then (store, Unpublished(CandidateNotReady))
    else
      var manifest := ManifestOf(members, stamp, sha);
      var existing := FindByManifest(store, corpusID, manifest);
      var release := ReleaseOf(store, corpusID);
      if existing.Some? then
        (store, Published(store.snapshots[existing.value], release, false))
      else if !Insertable(store, snapshotID, members) then (store, Unpublished(StorageError))
      else
        var snapshot := Snapshot(snapshotID, corpusID, manifest, actor, at, BySource(members));
        (store.(snapshots := store.snapshots[snapshotID := snapshot]), Published(snapshot.(members := members), release, true))
  }

  // ---------------------------------------------------------------- Commands

  datatype Command =
    | PublishCommand(corpusID: Uuid, sourceID: Uuid, documentID: Uuid, expectedVersion: int, snapshotID: Uuid, actor: string, at: int)
    | StageCommand(corpusID: Uuid, sourceID: Uuid, documentID: Uuid, snapshotID: Uuid, actor: string, at: int)
    | ActivateCommand(corpusID: Uuid, snapshotID: Uuid, expectedVersion: int, at: int)
    | InitializeCommand(corpusID: Uuid, snapshotID: Uuid, actor: string, at: int)

  /** Time zero is the zero instant. */
  predicate ValidCommand(command: Command) {
    match command
    case PublishCommand(c, s, d, expected, id, actor, _) => c != NIL && s != NIL && d != NIL && id != NIL && expected >= 1 && !Blank(actor)
    case StageCommand(c, s, d, id, actor, at) => c != NIL && s != NIL && d != NIL && id != NIL && !Blank(actor) && at != 0
    case ActivateCommand(c, id, expected, at) => c != NIL && id != NIL && expected >= 0 && at != 0
    case InitializeCommand(c, id, actor, _) => c != NIL && id != NIL && !Blank(actor)
  }

  function ActiveMembers(store: Store, corpusID: Uuid): seq<Member> {
    if corpusID in store.releases && store.releases[corpusID].snapshotID in store.snapshots
    then store.snapshots[store.releases[corpusID].snapshotID].members else []
  }

  ghost function Publish(store: Store, command: Command, world: World, stamp: int -> string, sha: string -> string): (Store, Publication)
    requires command.PublishCommand?
  {
    if !ValidCommand(command) then (store, Unpublished(InvalidInput))
    else if command.corpusID !in store.releases then (store, Unpublished(NotFound))
    else if store.releases[command.corpusID].version != command.expectedVersion then (store, Unpublished(StaleRelease))
    else
      match CandidateMember(world, command.corpusID, command.sourceID, command.documentID)
      case Refused(failure) => (store, Unpublished(failure))
      case Chosen(candidate) =>
        WriteSnapshot(store, command.corpusID, command.snapshotID, command.actor, command.at,
                      Replace(ActiveMembers(store, command.corpusID), candidate), stamp, sha)
  }

  ghost function Stage(store: Store, command: Command, world: World, stamp: int -> string, sha: string -> string): (Store, Publication)
    requires command.StageCommand?
  {
    if !ValidCommand(command) then (store, Unpublished(InvalidInput))
    else
      match CandidateMember(world, command.corpusID, command.sourceID, command.documentID)
      case Refused(failure) => (store, Unpublished(failure))
      case Chosen(candidate) =>
        WriteStagedSnapshot(store, command.corpusID, command.snapshotID, command.actor, command.at,
                            Replace(ActiveMembers(store, command.corpusID), candidate), stamp, sha)
  }

  ghost function Activate(store: Store, command: Command, world: World): (Store, Publication)
    requires command.ActivateCommand?
  {
    var release := ReleaseOf(store, command.corpusID);
    if !ValidCommand(command) then (store, Unpublished(InvalidInput))
    else if CurrentVersion(release) != command.expectedVersion then (store, Unpublished(StaleRelease))
    else if command.snapshotID !in store.snapshots || store.snapshots[command.snapshotID].corpusID != command.corpusID then
      (store, Unpublished(NotFound))
    else if (command.corpusID, command.snapshotID) !in world.graphs then (store, Unpublished(GraphReleaseNotReady))
    else if release.Some? && release.value.snapshotID == command.snapshotID then
      (store, Published(store.snapshots[command.snapshotID], release, false))
    else if CurrentVersion(release) >= MAX_INT32 then (store, Unpublished(StorageError))
    else
      var (after, moved) := Point(store, command.corpusID, command.snapshotID, command.at);
      (after, Published(store.snapshots[command.snapshotID], Some(moved), true))
  }

  datatype Candidates = AllChosen(members: seq<Member>) | OneRefused(failure: Failure)

  /** readyMembers: every latest published document must be a ready candidate. */
  function ReadyMembers(world: World, corpusID: Uuid, pairs: seq<(Uuid, Uuid)>): Candidates {
    if pairs == [] then AllChosen([])
    else
      match ReadyMembers(world, corpusID, pairs[..|pairs| - 1])
      case OneRefused(failure) => OneRefused(failure)
      case AllChosen(members) =>
        match CandidateMember(world, corpusID, pairs[|pairs| - 1].0, pairs[|pairs| - 1].1)
        case Refused(failure) => OneRefused(failure)
        case Chosen(member) => AllChosen(members + [member])
  }

  function LatestPairs(world: World, corpusID: Uuid): seq<(Uuid, Uuid)> {
    if corpusID in world.latest then world.latest[corpusID] else []
  }

  ghost function Initialize(store: Store, command: Command, world: World, stamp: int -> string, sha: string -> string): (Store, Publication)
    requires command.InitializeCommand?
  {
    if !ValidCommand(command) then (store, Unpublished(InvalidInput))
    else if command.corpusID in store.releases then
      var release := store.releases[command.corpusID];
      if release.snapshotID !in store.snapshots then (store, Unpublished(StorageError))
      else (store, Published(store.snapshots[release.snapshotID], Some(release), false))
    else
      match ReadyMembers(world, command.corpusID, LatestPairs(world, command.corpusID))
      case OneRefused(failure) => (store, Unpublished(failure))
      case AllChosen(members) =>
        WriteSnapshot(store, command.corpusID, command.snapshotID, command.actor, command.at, members, stamp, sha)
  }

  /** One call and what it read of the rest of the database. */
  datatype Call = Call(command: Command, world: World)

  ghost function Apply(store: Store, call: Call, stamp: int -> string, sha: string -> string): (Store, Publication) {
    match call.command
    case PublishCommand(_, _, _, _, _, _, _) => Publish(store, call.command, call.world, stamp, sha)
    case StageCommand(_, _, _, _, _, _) => Stage(store, call.command, call.world, stamp, sha)
    case ActivateCommand(_, _, _, _) => Activate(store, call.command, call.world)
    case InitializeCommand(_, _, _, _) => Initialize(store, call.command, call.world, stamp, sha)
  }

  ghost function Exec(store: Store, history: seq<Call>, stamp: int -> string, sha: string -> string): Store {
    if history == [] then store
    else Apply(Exec(store, history[..|history| - 1], stamp, sha), history[|history| - 1], stamp, sha).0
  }

  // ---------------------------------------------------------------- Invariant

  ghost predicate SnapshotOk(store: Store, id: Uuid, stamp: int -> string, sha: string -> string)
    requires id in store.snapshots
  {
    var snapshot := store.snapshots[id];
    && snapshot.id == id && id != NIL && snapshot.members != [] && Ascending(snapshot.members)
    && snapshot.manifest == ManifestOf(snapshot.members, stamp, sha)
    && forall m | m in snapshot.members :: StorableMember(m)
  }

  ghost predicate OnePerManifest(store: Store) {
    forall a, b | a in store.snapshots && b in store.snapshots && store.snapshots[a].corpusID == store.snapshots[b].corpusID
                  && store.snapshots[a].manifest == store.snapshots[b].manifest :: a == b
  }

  ghost predicate ReleaseOk(store: Store, c: Uuid)
    requires c in store.releases
  {
    var release := store.releases[c];
    && release.corpusID == c && release.version >= 1
    && release.snapshotID in store.snapshots && store.snapshots[release.snapshotID].corpusID == c
  }

  /**
   At most one snapshot per corpus and manifest, every manifest that of its own non-empty members,
   and every active snapshot present in the release's corpus.
   */
  ghost predicate StoreOk(store: Store, stamp: int -> string, sha: string -> string) {
    && (forall id {:trigger SnapshotOk(store, id, stamp, sha)} | id in store.snapshots :: SnapshotOk(store, id, stamp, sha))
    && OnePerManifest(store)
    && forall c {:trigger ReleaseOk(store, c)} | c in store.releases :: ReleaseOk(store, c)
  }

  const EMPTY := Store(map[], map[])

  lemma PointKeepsStore(store: Store, corpusID: Uuid, snapshotID: Uuid, at: int, stamp: int -> string, sha: string -> string)
    requires StoreOk(store, stamp, sha) && snapshotID in store.snapshots && store.snapshots[snapshotID].corpusID == corpusID
    ensures StoreOk(Point(store, corpusID, snapshotID, at).0, stamp, sha)
  {
    var after := Point(store, corpusID, snapshotID, at).0;
    forall id | id in after.snapshots ensures SnapshotOk(after, id, stamp, sha) { assert SnapshotOk(store, id, stamp, sha); }
    forall c | c in after.releases ensures ReleaseOk(after, c) {
      if c in store.releases {
        assert ReleaseOk(store, c);
      }
    }
  }

  lemma SortedManifest(members: seq<Member>, stamp: int -> string, sha: string -> string)
    requires members != [] && DistinctSources(members)
    ensures BySource(members) != [] && Ascending(BySource(members))
    ensures ManifestOf(BySource(members), stamp, sha) == ManifestOf(members, stamp, sha)
  {
    BySourceKeeps(members);
    AscendingSorts(BySource(members));
    assert members[0] in BySource(members);
  }

  lemma NewManifestStaysUnique(store: Store, snapshot: Snapshot)
    requires OnePerManifest(store) && snapshot.id !in store.snapshots
    requires forall id | id in store.snapshots :: !HasManifest(store, id, snapshot.corpusID, snapshot.manifest)
    ensures OnePerManifest(store.(snapshots := store.snapshots[snapshot.id := snapshot]))
  {
    forall id | id in store.snapshots
      ensures store.snapshots[id].corpusID != snapshot.corpusID || store.snapshots[id].manifest != snapshot.manifest
    {
      assert !HasManifest(store, id, snapshot.corpusID, snapshot.manifest);
    }
  }

  lemma AddSnapshot(store: Store, snapshot: Snapshot, stamp: int -> string, sha: string -> string)
    requires StoreOk(store, stamp, sha) && snapshot.id !in store.snapshots && snapshot.id != NIL
    requires snapshot.members != [] && Ascending(snapshot.members) && snapshot.manifest == ManifestOf(snapshot.members, stamp, sha)
    requires forall m | m in snapshot.members :: StorableMember(m)
    requires forall id | id in store.snapshots :: !HasManifest(store, id, snapshot.corpusID, snapshot.manifest)
    ensures StoreOk(store.(snapshots := store.snapshots[snapshot.id := snapshot]), stamp, sha)
  {
    var after := store.(snapshots := store.snapshots[snapshot.id := snapshot]);
    forall id | id in after.snapshots ensures SnapshotOk(after, id, stamp, sha) {
      if id != snapshot.id {
        assert SnapshotOk(store, id, stamp, sha);
      }
    }
    NewManifestStaysUnique(store, snapshot);
    forall c | c in after.releases ensures ReleaseOk(after, c) { assert ReleaseOk(store, c); }
  }

  /** Inserting a snapshot whose manifest is new keeps the tables sound. */
  lemma InsertKeepsStore(
    store: Store, corpusID: Uuid, snapshotID: Uuid, actor: string, at: int, members: seq<Member>, stamp: int -> string, sha: string -> string)
    requires StoreOk(store, stamp, sha) && members != [] && Insertable(store, snapshotID, members) && snapshotID != NIL
    requires FindByManifest(store, corpusID, ManifestOf(members, stamp, sha)).None?
    ensures var snapshot := Snapshot(snapshotID, corpusID, ManifestOf(members, stamp, sha), actor, at, BySource(members));
            StoreOk(store.(snapshots := store.snapshots[snapshotID := snapshot]), stamp, sha)
  {
    SortedManifest(members, stamp, sha);
    BySourceKeeps(members);
    AddSnapshot(store, Snapshot(snapshotID, corpusID, ManifestOf(members, stamp, sha), actor, at, BySource(members)), stamp, sha);
  }

  lemma WriteSnapshotKeepsStore(
    store: Store, corpusID: Uuid, snapshotID: Uuid, actor: string, at: int, members: seq<Member>, stamp: int -> string, sha: string -> string)
    requires StoreOk(store, stamp, sha) && snapshotID != NIL
    ensures StoreOk(WriteSnapshot(store, corpusID, snapshotID, actor, at, members, stamp, sha).0, stamp, sha)
  {
    var manifest := ManifestOf(members, stamp, sha);
    if members != [] && FindByManifest(store, corpusID, manifest).None? && Insertable(store, snapshotID, members) {
      InsertKeepsStore(store, corpusID, snapshotID, actor, at, members, stamp, sha);
      var snapshot := Snapshot(snapshotID, corpusID, manifest, actor, at, BySource(members));
      PointKeepsStore(store.(snapshots := store.snapshots[snapshotID := snapshot]), corpusID, snapshotID, at, stamp, sha);
    }
  }

  lemma WriteStagedKeepsStore(
    store: Store, corpusID: Uuid, snapshotID: Uuid, actor: string, at: int, members: seq<Member>, stamp: int -> string, sha: string -> string)
    requires StoreOk(store, stamp, sha) && snapshotID != NIL
    ensures StoreOk(WriteStagedSnapshot(store, corpusID, snapshotID, actor, at, members, stamp, sha).0, stamp, sha)
  {
    if members != [] && FindByManifest(store, corpusID, ManifestOf(members, stamp, sha)).None? && Insertable(store, snapshotID, members) {
      InsertKeepsStore(store, corpusID, snapshotID, actor, at, members, stamp, sha);
    }
  }

  lemma ApplyKeepsStore(store: Store, call: Call, stamp: int -> string, sha: string -> string)
    requires StoreOk(store, stamp, sha)
    ensures StoreOk(Apply(store, call, stamp, sha).0, stamp, sha)
  {
    var world := call.world;
    match call.command
    case PublishCommand(c, s, d, _, id, actor, at) =>
      match CandidateMember(world, c, s, d) {
        case Refused(_) =>
        case Chosen(candidate) =>
          if id != NIL {
            WriteSnapshotKeepsStore(store, c, id, actor, at, Replace(ActiveMembers(store, c), candidate), stamp, sha);
          }
      }
    case StageCommand(c, s, d, id, actor, at) =>
      match CandidateMember(world, c, s, d) {
        case Refused(_) =>
        case Chosen(candidate) =>
          if id != NIL {
            WriteStagedKeepsStore(store, c, id, actor, at, Replace(ActiveMembers(store, c), candidate), stamp, sha);
          }
      }
    case ActivateCommand(c, id, _, at) =>
      if id in store.snapshots && store.snapshots[id].corpusID == c {
        PointKeepsStore(store, c, id, at, stamp, sha);
      }
    case InitializeCommand(c, id, actor, at) =>
      match ReadyMembers(world, c, LatestPairs(world, c)) {
        case OneRefused(_) =>
        case AllChosen(members) =>
          if id != NIL {
            WriteSnapshotKeepsStore(store, c, id, actor, at, members, stamp, sha);
          }
      }
  }

  lemma {:induction false} EveryHistoryKeepsStore(store: Store, history: seq<Call>, stamp: int -> string, sha: string -> string)
    requires StoreOk(store, stamp, sha)
    ensures StoreOk(Exec(store, history, stamp, sha), stamp, sha)
  {
    if history != [] {
      EveryHistoryKeepsStore(store, history[..|history| - 1], stamp, sha);
      ApplyKeepsStore(Exec(store, history[..|history| - 1], stamp, sha), history[|history| - 1], stamp, sha);
    }
  }

  /** From the empty store, every history of calls leads to a sound store. */
  lemma ReachableStoresAreSound(history: seq<Call>, stamp: int -> string, sha: string -> string)
    ensures StoreOk(Exec(EMPTY, history, stamp, sha), stamp, sha)
  {
    EveryHistoryKeepsStore(EMPTY, history, stamp, sha);
  }

  // ---------------------------------------------------------------- The pointer has no ABA

  ghost function VersionOf(store: Store, c: Uuid): int {
    CurrentVersion(ReleaseOf(store, c))
  }

  /** A call keeps every snapshot, and keeps a corpus's pointer or moves it to the next version. */
  ghost predicate Stepped(store: Store, after: Store, c: Uuid) {
    && (forall id | id in store.snapshots :: id in after.snapshots && after.snapshots[id] == store.snapshots[id])
    && (ReleaseOf(after, c) == ReleaseOf(store, c) || VersionOf(after, c) == VersionOf(store, c) + 1)
  }

  lemma WritingSteps(
    store: Store, corpusID: Uuid, snapshotID: Uuid, actor: string, at: int, members: seq<Member>, stamp: int -> string, sha: string -> string,
    c: Uuid)
    ensures Stepped(store, WriteSnapshot(store, corpusID, snapshotID, actor, at, members, stamp, sha).0, c)
    ensures Stepped(store, WriteStagedSnapshot(store, corpusID, snapshotID, actor, at, members, stamp, sha).0, c)
  {
  }

  lemma EveryCallSteps(store: Store, call: Call, stamp: int -> string, sha: string -> string, c: Uuid)
    ensures Stepped(store, Apply(store, call, stamp, sha).0, c)
  {
    match call.command
    case PublishCommand(corpusID, s, d, _, id, actor, at) =>
      match CandidateMember(call.world, corpusID, s, d) {
        case Refused(_) =>
        case Chosen(m) => WritingSteps(store, corpusID, id, actor, at, Replace(ActiveMembers(store, corpusID), m), stamp, sha, c);
      }
    case StageCommand(corpusID, s, d, id, actor, at) =>
      match CandidateMember(call.world, corpusID, s, d) {
        case Refused(_) =>
        case Chosen(m) => WritingSteps(store, corpusID, id, actor, at, Replace(ActiveMembers(store, corpusID), m), stamp, sha, c);
      }
    case ActivateCommand(_, _, _, _) =>
    case InitializeCommand(corpusID, id, actor, at) =>
      match ReadyMembers(call.world, corpusID, LatestPairs(call.world, corpusID)) {
        case OneRefused(_) =>
        case AllChosen(members) => WritingSteps(store, corpusID, id, actor, at, members, stamp, sha, c);
      }
  }

  /** Stored snapshots never change and the version never falls. */
  lemma {:induction false} HistoryOnlyAdds(store: Store, history: seq<Call>, stamp: int -> string, sha: string -> string, c: Uuid)
    ensures var after := Exec(store, history, stamp, sha);
            && (forall id | id in store.snapshots :: id in after.snapshots && after.snapshots[id] == store.snapshots[id])
            && VersionOf(after, c) >= VersionOf(store, c)
            && (VersionOf(after, c) == VersionOf(store, c) ==> ReleaseOf(after, c) == ReleaseOf(store, c))
  {
    if history != [] {
      var before := Exec(store, history[..|history| - 1], stamp, sha);
      HistoryOnlyAdds(store, history[..|history| - 1], stamp, sha, c);
      EveryCallSteps(before, history[|history| - 1], stamp, sha, c);
    }
  }

  lemma {:induction false} ExecSplit(store: Store, first: seq<Call>, second: seq<Call>, stamp: int -> string, sha: string -> string)
    ensures Exec(store, first + second, stamp, sha) == Exec(Exec(store, first, stamp, sha), second, stamp, sha)
  {
    if second == [] {
      assert first + second == first;
    } else {
      ExecSplit(store, first, second[..|second| - 1], stamp, sha);
      assert (first + second)[..|first + second| - 1] == first + second[..|second| - 1];
    }
  }

  /** Whenever a corpus shows the same version twice, it shows the same active snapshot. */
  lemma EqualVersionsMeanEqualReleases(store: Store, history: seq<Call>, m: nat, n: nat, stamp: int -> string, sha: string -> string, c: Uuid)
    requires m <= n <= |history|
    requires VersionOf(Exec(store, history[..m], stamp, sha), c) == VersionOf(Exec(store, history[..n], stamp, sha), c)
    ensures ReleaseOf(Exec(store, history[..m], stamp, sha), c) == ReleaseOf(Exec(store, history[..n], stamp, sha), c)
  {
    assert history[..n] == history[..m] + history[m..n];
    ExecSplit(store, history[..m], history[m..n], stamp, sha);
    HistoryOnlyAdds(Exec(store, history[..m], stamp, sha), history[m..n], stamp, sha, c);
  }

  /** The version a command demands before it moves the pointer. */
  predicate ExpectsVersion(command: Command, c: Uuid, version: int) {
    match command
    case PublishCommand(corpusID, _, _, expected, _, _, _) => corpusID == c && expected == version
    case ActivateCommand(corpusID, _, expected, _) => corpusID == c && expected == version
    case InitializeCommand(corpusID, _, _, _) => corpusID == c && version == 0
    case StageCommand(_, _, _, _, _, _) => false
  }

  ghost predicate MovesPointer(store: Store, history: seq<Call>, n: nat, stamp: int -> string, sha: string -> string, c: Uuid)
    requires n < |history|
  {
    var before := Exec(store, history[..n], stamp, sha);
    ReleaseOf(Apply(before, history[n], stamp, sha).0, c) != ReleaseOf(before, c)
  }

  lemma MoversExpectTheVersion(store: Store, call: Call, stamp: int -> string, sha: string -> string, c: Uuid)
    requires ReleaseOf(Apply(store, call, stamp, sha).0, c) != ReleaseOf(store, c)
    ensures ExpectsVersion(call.command, c, VersionOf(store, c))
  {
  }

  lemma MovedVersionStays(store: Store, history: seq<Call>, m: nat, n: nat, stamp: int -> string, sha: string -> string, c: Uuid)
    requires m < n <= |history| && MovesPointer(store, history, m, stamp, sha, c)
    ensures VersionOf(Exec(store, history[..n], stamp, sha), c) > VersionOf(Exec(store, history[..m], stamp, sha), c)
  {
    var moved, rest := history[..m + 1], history[m + 1..n];
    assert moved[..m] == history[..m] && history[..n] == moved + rest;
    EveryCallSteps(Exec(store, history[..m], stamp, sha), history[m], stamp, sha, c);
    ExecSplit(store, moved, rest, stamp, sha);
    HistoryOnlyAdds(Exec(store, moved, stamp, sha), rest, stamp, sha, c);
  }

  /** Of all the calls that expect one version of a corpus, at most one ever moves its pointer. */
  lemma OneMovePerExpectedVersion(
    store: Store, history: seq<Call>, m: nat, n: nat, version: int, stamp: int -> string, sha: string -> string, c: Uuid)
    requires m < n < |history| && MovesPointer(store, history, m, stamp, sha, c)
    requires ExpectsVersion(history[m].command, c, version) && ExpectsVersion(history[n].command, c, version)
    ensures !MovesPointer(store, history, n, stamp, sha, c)
  {
    MoversExpectTheVersion(Exec(store, history[..m], stamp, sha), history[m], stamp, sha, c);
    OneExpectedVersion(history[m].command, c, version, VersionOf(Exec(store, history[..m], stamp, sha), c));
    MovedVersionStays(store, history, m, n, stamp, sha, c);
    if MovesPointer(store, history, n, stamp, sha, c) {
      MoversExpectTheVersion(Exec(store, history[..n], stamp, sha), history[n], stamp, sha, c);
      OneExpectedVersion(history[n].command, c, version, VersionOf(Exec(store, history[..n], stamp, sha), c));
    }
  }

  lemma OneExpectedVersion(command: Command, c: Uuid, version: int, other: int)
    requires ExpectsVersion(command, c, version) && ExpectsVersion(command, c, other)
    ensures version == other
  {
  }

  /** Staging never moves a pointer. */
  lemma StageMovesNothing(store: Store, call: Call, stamp: int -> string, sha: string -> string)
    requires call.command.StageCommand?
    ensures Apply(store, call, stamp, sha).0.releases == store.releases
  {
  }

  // ---------------------------------------------------------------- What a publication changes

  /** Details as the revision table checks them. */
  ghost predicate HashedWorld(world: World) {
    forall key | key in world.published :: IsSha256(world.published[key].contentSHA256)
  }

  /** The members a publication or a staging asks for. */
  function Requested(store: Store, command: Command, world: World): seq<Member>
    requires command.PublishCommand? || command.StageCommand?
  {
    var active := ActiveMembers(store, command.corpusID);
    match CandidateMember(world, command.corpusID, command.sourceID, command.documentID)
    case Refused(_) => active
    case Chosen(candidate) => Replace(active, candidate)
  }

  /** The digest tells two member lists apart if their texts differ. */
  ghost predicate ToldApart(a: seq<Member>, b: seq<Member>, stamp: int -> string, sha: string -> string) {
    ManifestOf(a, stamp, sha) == ManifestOf(b, stamp, sha) ==> ManifestText(a, stamp) == ManifestText(b, stamp)
  }

  /** A publication that creates a snapshot activates it under the next version with the requested members. */
  lemma CreatedPublishChangesOneSource(store: Store, call: Call, stamp: int -> string, sha: string -> string)
    requires StoreOk(store, stamp, sha) && call.command.PublishCommand?
    requires Apply(store, call, stamp, sha).1.Published? && Apply(store, call, stamp, sha).1.created
    ensures OneSourceChanged(store, call, Apply(store, call, stamp, sha).0)
    ensures VersionOf(Apply(store, call, stamp, sha).0, call.command.corpusID) == VersionOf(store, call.command.corpusID) + 1
  {
    var c := call.command.corpusID;
    assert ReleaseOk(store, c);
    assert SnapshotOk(store, store.releases[c].snapshotID, stamp, sha);
    var candidate := CandidateMember(call.world, c, call.command.sourceID, call.command.documentID).member;
    ReplaceMembers(ActiveMembers(store, c), candidate);
    BySourceKeeps(Replace(ActiveMembers(store, c), candidate));
  }

  /** The active members are the old ones with the candidate overriding or extending them, one per source. */
  ghost predicate OneSourceChanged(store: Store, call: Call, after: Store)
    requires call.command.PublishCommand?
  {
    var c := call.command.corpusID;
    var candidate := CandidateMember(call.world, c, call.command.sourceID, call.command.documentID);
    && candidate.Chosen? && candidate.member.sourceID == call.command.sourceID
    && DistinctSources(ActiveMembers(after, c))
    && forall m :: m in ActiveMembers(after, c) <==>
         m == candidate.member || (m in ActiveMembers(store, c) && m.sourceID != call.command.sourceID)
  }

  /** An uncreated publication found the requested manifest on the active snapshot and left everything alone. */
  lemma UncreatedPublishFoundActive(store: Store, call: Call, stamp: int -> string, sha: string -> string)
    requires StoreOk(store, stamp, sha) && call.command.PublishCommand?
    requires Apply(store, call, stamp, sha).1.Published? && !Apply(store, call, stamp, sha).1.created
    ensures var c := call.command.corpusID;
            && Apply(store, call, stamp, sha).0 == store && c in store.releases
            && SnapshotOk(store, store.releases[c].snapshotID, stamp, sha)
            && CandidateMember(call.world, c, call.command.sourceID, call.command.documentID).Chosen?
            && ManifestOf(Requested(store, call.command, call.world), stamp, sha) == ManifestOf(ActiveMembers(store, c), stamp, sha)
  {
    var c := call.command.corpusID;
    assert ReleaseOk(store, c);
    assert SnapshotOk(store, store.releases[c].snapshotID, stamp, sha);
  }

  /**
   Every successful publication, whether it created a snapshot or not, leaves the old active members with
   the candidate overriding or extending them; it raises the version exactly when it created one.
   */
  lemma PublishChangesOneSource(store: Store, call: Call, stamp: int -> string, sha: string -> string)
    requires StoreOk(store, stamp, sha) && call.command.PublishCommand? && Apply(store, call, stamp, sha).1.Published?
    requires HashedWorld(call.world) && Stamps(stamp)
    requires ToldApart(Requested(store, call.command, call.world), ActiveMembers(store, call.command.corpusID), stamp, sha)
    ensures var (after, publication) := Apply(store, call, stamp, sha);
            && OneSourceChanged(store, call, after)
            && VersionOf(after, call.command.corpusID) == VersionOf(store, call.command.corpusID) + (if publication.created then 1 else 0)
            && (!publication.created ==> after == store)
  {
    if Apply(store, call, stamp, sha).1.created {
      CreatedPublishChangesOneSource(store, call, stamp, sha);
    } else {
      var c := call.command.corpusID;
      UncreatedPublishFoundActive(store, call, stamp, sha);
      var candidate := CandidateMember(call.world, c, call.command.sourceID, call.command.documentID).member;
      ReplacementShows(ActiveMembers(store, c), candidate, stamp);
      ReplaceMembers(ActiveMembers(store, c), candidate);
      ReplaceSame(ActiveMembers(store, c), candidate);
    }
  }

  // ---------------------------------------------------------------- One snapshot per member set

  /** A corpus holds at most one snapshot of a set of members. */
  lemma OneSnapshotPerMemberSet(store: Store, a: Uuid, b: Uuid, stamp: int -> string, sha: string -> string)
    requires StoreOk(store, stamp, sha) && a in store.snapshots && b in store.snapshots
    requires store.snapshots[a].corpusID == store.snapshots[b].corpusID
    ensures SameMembers(store.snapshots[a].members, store.snapshots[b].members) <==> a == b
  {
    assert SnapshotOk(store, a, stamp, sha) && SnapshotOk(store, b, stamp, sha);
    if SameMembers(store.snapshots[a].members, store.snapshots[b].members) {
      AscendingUnique(store.snapshots[a].members, store.snapshots[b].members);
    }
  }

  /** What Stage hands back is the requested list itself or a stored one with its manifest. */
  lemma StagedManifest(store: Store, call: Call, stamp: int -> string, sha: string -> string)
    requires StoreOk(store, stamp, sha) && call.command.StageCommand? && Apply(store, call, stamp, sha).1.Published?
    ensures var publication := Apply(store, call, stamp, sha).1;
            var requested := Requested(store, call.command, call.world);
            && CandidateMember(call.world, call.command.corpusID, call.command.sourceID, call.command.documentID).Chosen?
            && (publication.created ==> publication.snapshot.members == requested)
            && (!publication.created ==>
                  && publication.snapshot.id in store.snapshots && store.snapshots[publication.snapshot.id] == publication.snapshot
                  && ManifestOf(publication.snapshot.members, stamp, sha) == ManifestOf(requested, stamp, sha))
  {
    var publication := Apply(store, call, stamp, sha).1;
    if !publication.created {
      var requested := Requested(store, call.command, call.world);
      var found := FindByManifest(store, call.command.corpusID, ManifestOf(requested, stamp, sha)).value;
      assert HasManifest(store, found, call.command.corpusID, ManifestOf(requested, stamp, sha));
      assert SnapshotOk(store, found, stamp, sha);
    }
  }

  lemma RequestedIsHashed(store: Store, command: Command, world: World, stamp: int -> string, sha: string -> string)
    requires StoreOk(store, stamp, sha) && HashedWorld(world) && (command.PublishCommand? || command.StageCommand?)
    ensures Hashed(Requested(store, command, world)) && DistinctSources(Requested(store, command, world))
  {
    var c := command.corpusID;
    if c in store.releases && store.releases[c].snapshotID in store.snapshots {
      assert SnapshotOk(store, store.releases[c].snapshotID, stamp, sha);
    }
    match CandidateMember(world, c, command.sourceID, command.documentID)
    case Refused(_) =>
    case Chosen(candidate) => ReplaceMembers(ActiveMembers(store, c), candidate);
  }

  /**
   Stage hands back the requested members, newly stored or found, exactly when the origins of both lists
   hold line breaks in the same places; so always when no origin holds one.
   */
  lemma StageOffersRequestedExactly(store: Store, call: Call, stamp: int -> string, sha: string -> string)
    requires StoreOk(store, stamp, sha) && call.command.StageCommand? && Apply(store, call, stamp, sha).1.Published?
    requires HashedWorld(call.world) && Stamps(stamp)
    requires ToldApart(Apply(store, call, stamp, sha).1.snapshot.members, Requested(store, call.command, call.world), stamp, sha)
    ensures var offered := Apply(store, call, stamp, sha).1.snapshot.members;
            var requested := Requested(store, call.command, call.world);
            && (SameMembers(offered, requested) <==> Breaks(offered) == Breaks(requested))
            && (BreakFree(offered) && BreakFree(requested) ==> SameMembers(offered, requested))
  {
    var offered, requested := Apply(store, call, stamp, sha).1.snapshot.members, Requested(store, call.command, call.world);
    StagedManifest(store, call, stamp, sha);
    if !Apply(store, call, stamp, sha).1.created {
      assert SnapshotOk(store, Apply(store, call, stamp, sha).1.snapshot.id, stamp, sha);
      RequestedIsHashed(store, call.command, call.world, stamp, sha);
      SortedSame(offered, requested);
      EqualTextsMeanEqualMembersExactly(offered, requested, stamp);
      if BreakFree(offered) && BreakFree(requested) {
        ManifestTextIdentifies(offered, requested, stamp);
      }
    }
  }

  lemma SortedSame(a: seq<Member>, b: seq<Member>)
    requires Ascending(a) && DistinctSources(b)
    ensures BySource(a) == BySource(b) <==> SameMembers(a, b)
  {
    BySourceKeeps(a);
    BySourceKeeps(b);
    if SameMembers(a, b) {
      AscendingUnique(BySource(a), BySource(b));
    }
  }

  /** A line break misleads Stage: asked to add b beside a, it hands back a stored snapshot of one other member. */
  lemma LineBreakMisleadsStage(store: Store, call: Call, a: Member, b: Member, id: Uuid, stamp: int -> string, sha: string -> string)
    requires StoreOk(store, stamp, sha) && call.command.StageCommand? && ValidCommand(call.command)
    requires a.sourceID < b.sourceID && StorableMember(a) && StorableMember(b)
    requires ActiveMembers(store, call.command.corpusID) == [a]
    requires CandidateMember(call.world, call.command.corpusID, call.command.sourceID, call.command.documentID) == Chosen(b)
    requires id in store.snapshots && store.snapshots[id].corpusID == call.command.corpusID
    requires store.snapshots[id].members == [Swallowing(a, b, stamp)]
    ensures var (after, publication) := Apply(store, call, stamp, sha);
            && after == store && publication.Published? && !publication.created && publication.snapshot.id == id
            && !SameMembers(publication.snapshot.members, Requested(store, call.command, call.world))
  {
    LineBreakHidesMember(a, b, stamp);
    assert SnapshotOk(store, id, stamp, sha);
    ReplaceAppends([a], b);
    assert [a] + [b] == [a, b];
    assert HasManifest(store, id, call.command.corpusID, ManifestOf([a, b], stamp, sha));
  }

  /** What the transaction reads when one document of a source is published and ready. */
  function WorldOf(corpusID: Uuid, m: Member): World {
    World(map[(corpusID, m.sourceID, m.documentID) := DocumentDetails(m.sourceRevisionID, m.officialOrigin, m.capturedAt, m.contentSHA256)],
          {m.documentID}, map[corpusID := [(m.sourceID, m.documentID)]], {})
  }

  /** A staging of the swallowing member, an initialisation with a, and a staging of b. */
  function MisleadingHistory(corpusID: Uuid, a: Member, b: Member, stamp: int -> string): seq<Call> {
    var m := Swallowing(a, b, stamp);
    [Call(StageCommand(corpusID, m.sourceID, m.documentID, 1, "x", 1), WorldOf(corpusID, m)),
     Call(InitializeCommand(corpusID, 2, "x", 1), WorldOf(corpusID, a)),
     Call(StageCommand(corpusID, b.sourceID, b.documentID, 3, "x", 1), WorldOf(corpusID, b))]
  }

  function Lone(id: Uuid, corpusID: Uuid, m: Member, stamp: int -> string, sha: string -> string): Snapshot {
    Snapshot(id, corpusID, ManifestOf([m], stamp, sha), "x", 1, [m])
  }

  lemma CandidateOfWorld(corpusID: Uuid, m: Member)
    ensures CandidateMember(WorldOf(corpusID, m), corpusID, m.sourceID, m.documentID) == Chosen(m)
    ensures ReadyMembers(WorldOf(corpusID, m), corpusID, LatestPairs(WorldOf(corpusID, m), corpusID)) == AllChosen([m])
  {
    var pairs := [(m.sourceID, m.documentID)];
    assert pairs[..0] == [] && ReadyMembers(WorldOf(corpusID, m), corpusID, pairs[..0]) == AllChosen([]);
    assert [] + [m] == [m];
  }

  lemma FirstStage(corpusID: Uuid, m: Member, stamp: int -> string, sha: string -> string)
    requires corpusID != NIL && m.sourceID != NIL && m.documentID != NIL && StorableMember(m)
    ensures Apply(EMPTY, Call(StageCommand(corpusID, m.sourceID, m.documentID, 1, "x", 1), WorldOf(corpusID, m)), stamp, sha).0
         == Store(map[1 := Lone(1, corpusID, m, stamp, sha)], map[])
  {
    CandidateOfWorld(corpusID, m);
    assert !IsSpace("x"[0]);
    AscendingSorts([m]);
    assert Replace([], m) == [m];
  }

  lemma ThenInitialize(corpusID: Uuid, m: Member, a: Member, stamp: int -> string, sha: string -> string)
    requires corpusID != NIL && StorableMember(a) && ManifestOf([a], stamp, sha) != ManifestOf([m], stamp, sha)
    ensures Apply(Store(map[1 := Lone(1, corpusID, m, stamp, sha)], map[]), Call(InitializeCommand(corpusID, 2, "x", 1), WorldOf(corpusID, a)),
                  stamp, sha).0
         == Store(map[1 := Lone(1, corpusID, m, stamp, sha), 2 := Lone(2, corpusID, a, stamp, sha)],
                  map[corpusID := Release(corpusID, 2, 1, 1)])
  {
    CandidateOfWorld(corpusID, a);
    assert !IsSpace("x"[0]);
    AscendingSorts([a]);
  }

  /**
   From the empty store, for any two members: after staging the swallowing member and initialising with a,
   a staging of b hands back the first snapshot, whose members are not the requested ones.
   */
  lemma LineBreakMisleadsHistory(corpusID: Uuid, a: Member, b: Member, stamp: int -> string, sha: string -> string)
    requires corpusID != NIL && a.sourceID < b.sourceID && a.sourceID != NIL && a.documentID != NIL && b.documentID != NIL
    requires StorableMember(a) && StorableMember(b) && ToldApart([a], [Swallowing(a, b, stamp)], stamp, sha)
    ensures var history := MisleadingHistory(corpusID, a, b, stamp);
            var (after, publication) := Apply(Exec(EMPTY, history[..2], stamp, sha), history[2], stamp, sha);
            && publication.Published? && !publication.created
            && publication.snapshot.members == [Swallowing(a, b, stamp)]
            && Requested(Exec(EMPTY, history[..2], stamp, sha), history[2].command, history[2].world) == [a, b]
            && !SameMembers(publication.snapshot.members, [a, b])
  {
    var m, history := Swallowing(a, b, stamp), MisleadingHistory(corpusID, a, b, stamp);
    LineBreakHidesMember(a, b, stamp);
    SwallowingTextDiffers(a, b, stamp);
    FirstStage(corpusID, m, stamp, sha);
    ThenInitialize(corpusID, m, a, stamp, sha);
    TwoCalls(history[0], history[1], history[2], stamp, sha);
    ReachableStoresAreSound(history[..2], stamp, sha);
    CandidateOfWorld(corpusID, b);
    assert !IsSpace("x"[0]);
    ReplaceAppends([a], b);
    assert [a] + [b] == [a, b];
    LineBreakMisleadsStage(Exec(EMPTY, history[..2], stamp, sha), history[2], a, b, 1, stamp, sha);
  }

  lemma TwoCalls(first: Call, second: Call, third: Call, stamp: int -> string, sha: string -> string)
    ensures Exec(EMPTY, [first, second, third][..2], stamp, sha)
         == Apply(Apply(EMPTY, first, stamp, sha).0, second, stamp, sha).0
  {
    assert [first, second, third][..2] == [first, second] && [first, second][..1] == [first] && [first][..0] == [];
    assert Exec(EMPTY, [first], stamp, sha) == Apply(EMPTY, first, stamp, sha).0;
  }

  lemma SwallowingTextDiffers(a: Member, b: Member, stamp: int -> string)
    ensures ManifestText([a], stamp) != ManifestText([Swallowing(a, b, stamp)], stamp)
  {
    SingleText(a, stamp);
    SingleText(Swallowing(a, b, stamp), stamp);
    SwallowedLine(a, b, stamp);
  }

  // ---------------------------------------------------------------- Origins without line breaks stay so

  ghost predicate BreakFreeWorld(world: World) {
    forall key | key in world.published :: '\n' !in world.published[key].officialOrigin
  }

  ghost predicate BreakFreeStore(store: Store) {
    forall id | id in store.snapshots :: BreakFree(store.snapshots[id].members)
  }

  lemma BreakFreeCandidates(world: World, corpusID: Uuid, pairs: seq<(Uuid, Uuid)>)
    requires BreakFreeWorld(world)
    ensures ReadyMembers(world, corpusID, pairs).AllChosen? ==> BreakFree(ReadyMembers(world, corpusID, pairs).members)
  {
    if pairs != [] {
      BreakFreeCandidates(world, corpusID, pairs[..|pairs| - 1]);
    }
  }

  lemma {:induction false} ReplaceStaysBreakFree(members: seq<Member>, candidate: Member)
    requires BreakFree(members) && '\n' !in candidate.officialOrigin
    ensures BreakFree(Replace(members, candidate))
  {
    if members != [] {
      ReplaceStaysBreakFree(members[1..], candidate);
      assert forall m | m in members[1..] :: m in members;
    }
  }

  lemma WritingStaysBreakFree(
    store: Store, corpusID: Uuid, snapshotID: Uuid, actor: string, at: int, members: seq<Member>, stamp: int -> string, sha: string -> string)
    requires BreakFreeStore(store) && BreakFree(members)
    ensures BreakFreeStore(WriteSnapshot(store, corpusID, snapshotID, actor, at, members, stamp, sha).0)
    ensures BreakFreeStore(WriteStagedSnapshot(store, corpusID, snapshotID, actor, at, members, stamp, sha).0)
  {
    BySourceKeeps(members);
  }

  lemma CallStaysBreakFree(store: Store, call: Call, stamp: int -> string, sha: string -> string)
    requires BreakFreeStore(store) && BreakFreeWorld(call.world)
    ensures BreakFreeStore(Apply(store, call, stamp, sha).0)
  {
    match call.command
    case PublishCommand(corpusID, s, d, _, id, actor, at) =>
      match CandidateMember(call.world, corpusID, s, d) {
        case Refused(_) =>
        case Chosen(m) =>
          ReplaceStaysBreakFree(ActiveMembers(store, corpusID), m);
          WritingStaysBreakFree(store, corpusID, id, actor, at, Replace(ActiveMembers(store, corpusID), m), stamp, sha);
      }
    case StageCommand(corpusID, s, d, id, actor, at) =>
      match CandidateMember(call.world, corpusID, s, d) {
        case Refused(_) =>
        case Chosen(m) =>
          ReplaceStaysBreakFree(ActiveMembers(store, corpusID), m);
          WritingStaysBreakFree(store, corpusID, id, actor, at, Replace(ActiveMembers(store, corpusID), m), stamp, sha);
      }
    case ActivateCommand(_, _, _, _) =>
    case InitializeCommand(corpusID, id, actor, at) =>
      var pairs := LatestPairs(call.world, corpusID);
      BreakFreeCandidates(call.world, corpusID, pairs);
      match ReadyMembers(call.world, corpusID, pairs) {
        case OneRefused(_) =>
        case AllChosen(members) => WritingStaysBreakFree(store, corpusID, id, actor, at, members, stamp, sha);
      }
  }

  lemma {:induction false} HistoryStaysBreakFree(store: Store, history: seq<Call>, stamp: int -> string, sha: string -> string)
    requires BreakFreeStore(store) && forall call | call in history :: BreakFreeWorld(call.world)
    ensures BreakFreeStore(Exec(store, history, stamp, sha))
  {
    if history != [] {
      HistoryStaysBreakFree(store, history[..|history| - 1], stamp, sha);
      CallStaysBreakFree(Exec(store, history[..|history| - 1], stamp, sha), history[|history| - 1], stamp, sha);
    }
  }

  /** Where origins never hold line breaks, Stage always hands back the requested members. */
  lemma StageOffersRequested(history: seq<Call>, call: Call, stamp: int -> string, sha: string -> string)
    requires (forall earlier | earlier in history :: BreakFreeWorld(earlier.world)) && BreakFreeWorld(call.world)
    requires HashedWorld(call.world) && Stamps(stamp) && call.command.StageCommand?
    requires var (after, publication) := Apply(Exec(EMPTY, history, stamp, sha), call, stamp, sha);
             && publication.Published?
             && ToldApart(publication.snapshot.members, Requested(Exec(EMPTY, history, stamp, sha), call.command, call.world), stamp, sha)
    ensures SameMembers(Apply(Exec(EMPTY, history, stamp, sha), call, stamp, sha).1.snapshot.members,
                        Requested(Exec(EMPTY, history, stamp, sha), call.command, call.world))
  {
    var store := Exec(EMPTY, history, stamp, sha);
    ReachableStoresAreSound(history, stamp, sha);
    HistoryStaysBreakFree(EMPTY, history, stamp, sha);
    RequestedIsBreakFree(store, call);
    StagedManifest(store, call, stamp, sha);
    StageOffersRequestedExactly(store, call, stamp, sha);
  }

  lemma RequestedIsBreakFree(store: Store, call: Call)
    requires BreakFreeStore(store) && BreakFreeWorld(call.world) && call.command.StageCommand?
    ensures BreakFree(Requested(store, call.command, call.world))
  {
    match CandidateMember(call.world, call.command.corpusID, call.command.sourceID, call.command.documentID)
    case Refused(_) =>
    case Chosen(candidate) => ReplaceStaysBreakFree(ActiveMembers(store, call.command.corpusID), candidate);
  }

  /** The active snapshot is found again under its own manifest. */
  lemma ActiveIsFound(store: Store, c: Uuid, manifest: string, stamp: int -> string, sha: string -> string)
    requires StoreOk(store, stamp, sha) && c in store.releases
    requires store.releases[c].snapshotID in store.snapshots && store.snapshots[store.releases[c].snapshotID].manifest == manifest
    ensures FindByManifest(store, c, manifest) == Some(store.releases[c].snapshotID)
  {
    assert ReleaseOk(store, c);
    assert HasManifest(store, store.releases[c].snapshotID, c, manifest);
  }

  /** Publishing members already active returns the active release uncreated and writes nothing. */
  lemma WritingActiveMembersIsIdle(
    store: Store, c: Uuid, snapshotID: Uuid, actor: string, at: int, members: seq<Member>, stamp: int -> string, sha: string -> string)
    requires StoreOk(store, stamp, sha) && c in store.releases && members != [] && members == ActiveMembers(store, c)
    ensures WriteSnapshot(store, c, snapshotID, actor, at, members, stamp, sha)
         == (store, Published(store.snapshots[store.releases[c].snapshotID], Some(store.releases[c]), false))
  {
    assert ReleaseOk(store, c);
    var id := store.releases[c].snapshotID;
    assert SnapshotOk(store, id, stamp, sha);
    ActiveIsFound(store, c, ManifestOf(members, stamp, sha), stamp, sha);
  }

  /** Repeating a publication at the version it produced returns the same release uncreated and changes nothing. */
  lemma RepeatedPublishIsUncreated(store: Store, call: Call, again: Command, stamp: int -> string, sha: string -> string)
    requires StoreOk(store, stamp, sha) && call.command.PublishCommand? && ValidCommand(again)
    requires Apply(store, call, stamp, sha).1.Published?
    requires again.PublishCommand? && again.corpusID == call.command.corpusID && again.sourceID == call.command.sourceID
    requires again.documentID == call.command.documentID
    requires again.expectedVersion == VersionOf(Apply(store, call, stamp, sha).0, call.command.corpusID)
    ensures var (after, first) := Apply(store, call, stamp, sha);
            var (later, second) := Apply(after, Call(again, call.world), stamp, sha);
            && later == after && second.Published? && !second.created && second.release == first.release
            && second.snapshot.id == first.snapshot.id
  {
    var c := call.command.corpusID;
    var after := Apply(store, call, stamp, sha).0;
    var candidate := CandidateMember(call.world, c, again.sourceID, again.documentID).member;
    if Apply(store, call, stamp, sha).1.created {
      ApplyKeepsStore(store, call, stamp, sha);
      CreatedPublishChangesOneSource(store, call, stamp, sha);
      assert candidate in ActiveMembers(after, c);
      ReplaceSame(ActiveMembers(after, c), candidate);
      WritingActiveMembersIsIdle(after, c, again.snapshotID, again.actor, again.at, ActiveMembers(after, c), stamp, sha);
    }
  }

  // ---------------------------------------------------------------- The repository

  /** Member rows are inserted one by one against the table's keys. */
  method InsertMemberRows(members: seq<Member>) returns (ok: bool)
    ensures ok <==> StorableMembers(members)
  {
    var sources: set<Uuid>, documents: set<Uuid> := {}, {};
    for index := 0 to |members|
      invariant forall i, j | 0 <= i < j < index ::
                  members[i].sourceID != members[j].sourceID && members[i].documentID != members[j].documentID
      invariant forall i | 0 <= i < index :: StorableMember(members[i])
      invariant sources == set i | 0 <= i < index :: members[i].sourceID
      invariant documents == set i | 0 <= i < index :: members[i].documentID
    {
      var m := members[index];
      if m.sourceID in sources || m.documentID in documents || !StorableMember(m) {
        return false;
      }
      sources := sources + {m.sourceID};
      documents := documents + {m.documentID};
    }
    ok := true;
  }

  method SelectReadyMembers(world: World, corpusID: Uuid) returns (candidates: Candidates)
    ensures candidates == ReadyMembers(world, corpusID, LatestPairs(world, corpusID))
  {
    var pairs := LatestPairs(world, corpusID);
    var members: seq<Member> := [];
    for index := 0 to |pairs|
      invariant ReadyMembers(world, corpusID, pairs[..index]) == AllChosen(members)
    {
      assert pairs[..index + 1][..index] == pairs[..index];
      match CandidateMember(world, corpusID, pairs[index].0, pairs[index].1) {
        case Refused(failure) =>
          RefusalStays(world, corpusID, pairs, index + 1);
          return OneRefused(failure);
        case Chosen(member) =>
          members := members + [member];
      }
    }
    assert pairs[..|pairs|] == pairs;
    candidates := AllChosen(members);
  }

  lemma {:induction false} RefusalStays(world: World, corpusID: Uuid, pairs: seq<(Uuid, Uuid)>, n: nat)
    requires n <= |pairs| && ReadyMembers(world, corpusID, pairs[..n]).OneRefused?
    ensures ReadyMembers(world, corpusID, pairs) == ReadyMembers(world, corpusID, pairs[..n])
    decreases |pairs|
  {
    if n < |pairs| {
      assert pairs[..|pairs| - 1][..n] == pairs[..n];
      RefusalStays(world, corpusID, pairs[..|pairs| - 1], n);
    } else {
      assert pairs[..n] == pairs;
    }
  }

  class Repository {
    const stamp: int -> string
    const sha: string -> string
    var snapshots: map<Uuid, Snapshot>
    var releases: map<Uuid, Release>

    constructor (stamp: int -> string, sha: string -> string)
      ensures Tables() == EMPTY && this.stamp == stamp && this.sha == sha && Valid()
    {
      this.stamp, this.sha, snapshots, releases := stamp, sha, map[], map[];
    }

    function Tables(): Store
      reads this
    {
      Store(snapshots, releases)
    }

    ghost predicate Valid()
      reads this
    {
      StoreOk(Tables(), stamp, sha)
    }

    method FindSnapshot(corpusID: Uuid, manifest: string) returns (found: Option<Uuid>)
      requires Valid()
      ensures found == FindByManifest(Tables(), corpusID, manifest)
    {
      if id :| id in snapshots && snapshots[id].corpusID == corpusID && snapshots[id].manifest == manifest {
        assert HasManifest(Tables(), id, corpusID, manifest);
        found := Some(id);
      } else {
        found := None;
      }
    }

    /** Inserts the first release row of a corpus or overwrites the one it has. */
    method MovePointer(corpusID: Uuid, snapshotID: Uuid, at: int) returns (release: Release)
      modifies this`releases
      ensures (Tables(), release) == Point(old(Tables()), corpusID, snapshotID, at)
    {
      var version := if corpusID in releases then releases[corpusID].version + 1 else 1;
      release := Release(corpusID, snapshotID, version, at);
      releases := releases[corpusID := release];
    }

    method Write(corpusID: Uuid, snapshotID: Uuid, actor: string, at: int, members: seq<Member>) returns (publication: Publication)
      requires Valid()
      modifies this
      ensures (Tables(), publication) == WriteSnapshot(old(Tables()), corpusID, snapshotID, actor, at, members, stamp, sha)
    {
      if |members| == 0 {
        return Unpublished(CandidateNotReady);
      }
      var manifest := ManifestSHA256(members, stamp, sha);
      var existing := FindSnapshot(corpusID, manifest);
      var previous := ReleaseOf(Tables(), corpusID);
      if existing.Some? {
        if PreviousSnapshot(previous) != existing.value {
          return Unpublished(StaleRelease);
        }
        return Published(snapshots[existing.value], previous, false);
      }
      var storable := InsertMemberRows(members);
      if snapshotID in snapshots || !storable || CurrentVersion(previous) >= MAX_INT32 {
        return Unpublished(StorageError);
      }
      var snapshot := Snapshot(snapshotID, corpusID, manifest, actor, at, BySource(members));
      snapshots := snapshots[snapshotID := snapshot];
      var release := MovePointer(corpusID, snapshotID, at);
      publication := Published(snapshot.(members := members), Some(release), true);
    }

    method WriteStaged(corpusID: Uuid, snapshotID: Uuid, actor: string, at: int, members: seq<Member>) returns (publication: Publication)
      requires Valid()
      modifies this`snapshots
      ensures (Tables(), publication) == WriteStagedSnapshot(old(Tables()), corpusID, snapshotID, actor, at, members, stamp, sha)
    {
      if |members| == 0 {
        return Unpublished(CandidateNotReady);
      }
      var manifest := ManifestSHA256(members, stamp, sha);
      var existing := FindSnapshot(corpusID, manifest);
      var release := ReleaseOf(Tables(), corpusID);
      if existing.Some? {
        return Published(snapshots[existing.value], release, false);
      }
      var storable := InsertMemberRows(members);
      if snapshotID in snapshots || !storable {
        return Unpublished(StorageError);
      }
      var snapshot := Snapshot(snapshotID, corpusID, manifest, actor, at, BySource(members));
      snapshots := snapshots[snapshotID := snapshot];
      publication := Published(snapshot.(members := members), release, true);
    }

    method Publish(command: Command, world: World) returns (publication: Publication)
      requires Valid() && command.PublishCommand?
      modifies this
      ensures (Tables(), publication) == Apply(old(Tables()), Call(command, world), stamp, sha) && Valid()
    {
      ApplyKeepsStore(Tables(), Call(command, world), stamp, sha);
      if !ValidCommand(command) {
        return Unpublished(InvalidInput);
      }
      if command.corpusID !in releases {
        return Unpublished(NotFound);
      }
      if releases[command.corpusID].version != command.expectedVersion {
        return Unpublished(StaleRelease);
      }
      match CandidateMember(world, command.corpusID, command.sourceID, command.documentID) {
        case Refused(failure) => publication := Unpublished(failure);
        case Chosen(candidate) =>
          var members := ReplaceMember(ActiveMembers(Tables(), command.corpusID), candidate);
          publication := Write(command.corpusID, command.snapshotID, command.actor, command.at, members);
      }
    }

    method Stage(command: Command, world: World) returns (publication: Publication)
      requires Valid() && command.StageCommand?
      modifies this
      ensures (Tables(), publication) == Apply(old(Tables()), Call(command, world), stamp, sha) && Valid()
    {
      ApplyKeepsStore(Tables(), Call(command, world), stamp, sha);
      if !ValidCommand(command) {
        return Unpublished(InvalidInput);
      }
      match CandidateMember(world, command.corpusID, command.sourceID, command.documentID) {
        case Refused(failure) => publication := Unpublished(failure);
        case Chosen(candidate) =>
          var members := ReplaceMember(ActiveMembers(Tables(), command.corpusID), candidate);
          publication := WriteStaged(command.corpusID, command.snapshotID, command.actor, command.at, members);
      }
    }

    method Activate(command: Command, world: World) returns (publication: Publication)
      requires Valid() && command.ActivateCommand?
      modifies this
      ensures (Tables(), publication) == Apply(old(Tables()), Call(command, world), stamp, sha) && Valid()
      ensures publication.Published? ==>
                && command.corpusID in releases && releases[command.corpusID].snapshotID == command.snapshotID
                && publication.release == Some(releases[command.corpusID])
    {
      ApplyKeepsStore(Tables(), Call(command, world), stamp, sha);
      var active := ReleaseOf(Tables(), command.corpusID);
      if !ValidCommand(command) {
        return Unpublished(InvalidInput);
      }
      if CurrentVersion(active) != command.expectedVersion {
        return Unpublished(StaleRelease);
      }
      if command.snapshotID !in snapshots || snapshots[command.snapshotID].corpusID != command.corpusID {
        return Unpublished(NotFound);
      }
      var snapshot := snapshots[command.snapshotID];
      if (command.corpusID, command.snapshotID) !in world.graphs {
        return Unpublished(GraphReleaseNotReady);
      }
      if active.Some? && active.value.snapshotID == command.snapshotID {
        return Published(snapshot, active, false);
      }
      if CurrentVersion(active) >= MAX_INT32 {
        return Unpublished(StorageError);
      }
      var release := MovePointer(command.corpusID, command.snapshotID, command.at);
      publication := Published(snapshot, Some(release), true);
    }

    method Initialize(command: Command, world: World) returns (publication: Publication)
      requires Valid() && command.InitializeCommand?
      modifies this
      ensures (Tables(), publication) == Apply(old(Tables()), Call(command, world), stamp, sha) && Valid()
    {
      ApplyKeepsStore(Tables(), Call(command, world), stamp, sha);
      if !ValidCommand(command) {
        return Unpublished(InvalidInput);
      }
      if command.corpusID in releases {
        var release := releases[command.corpusID];
        assert ReleaseOk(Tables(), command.corpusID);
        return Published(snapshots[release.snapshotID], Some(release), false);
      }
      var candidates := SelectReadyMembers(world, command.corpusID);
      match candidates {
        case OneRefused(failure) => publication := Unpublished(failure);
        case AllChosen(members) =>
          publication := Write(command.corpusID, command.snapshotID, command.actor, command.at, members);
      }
    }
  }
}
