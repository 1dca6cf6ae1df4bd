/** What each successful snapshot command leaves active and what it hands back, and exactly when it succeeds. */
module SnapshotOutcomes {
  import opened Text
  import opened Evaluation
  import opened SnapshotManifest
  import opened SnapshotRelease

  // ---------------------------------------------------------------- Documents

  predicate ReadyDocument(world: World, c: Uuid, sourceID: Uuid, documentID: Uuid) {
    (c, sourceID, documentID) in world.published && documentID in world.ready
  }

  /** The member a ready document makes. */
  predicate Describes(world: World, c: Uuid, sourceID: Uuid, documentID: Uuid, m: Member) {
    && ReadyDocument(world, c, sourceID, documentID)
    && var details := world.published[(c, sourceID, documentID)];
    && m.sourceID == sourceID && m.documentID == documentID && m.sourceRevisionID == details.sourceRevisionID
    && m.officialOrigin == details.officialOrigin && m.capturedAt == details.capturedAt && m.contentSHA256 == details.contentSHA256
  }

  /** A published document is taken exactly when its artifacts are complete; the two refusals differ. */
  lemma CandidateIsReadyDocument(world: World, c: Uuid, sourceID: Uuid, documentID: Uuid)
    ensures var candidate := CandidateMember(world, c, sourceID, documentID);
            && (candidate.Chosen? <==> ReadyDocument(world, c, sourceID, documentID))
            && (candidate.Chosen? ==> Describes(world, c, sourceID, documentID, candidate.member))
            && (candidate == Refused(NotFound) <==> (c, sourceID, documentID) !in world.published)
            && (candidate == Refused(CandidateNotReady) <==>
                  (c, sourceID, documentID) in world.published && documentID !in world.ready)
  {
  }

  /** All the listed documents are taken, in order, exactly when each is ready. */
  lemma {:induction false} ReadyMembersAreAllReady(world: World, c: Uuid, pairs: seq<(Uuid, Uuid)>)
    ensures var found := ReadyMembers(world, c, pairs);
            && (found.AllChosen? <==> forall i | 0 <= i < |pairs| :: ReadyDocument(world, c, pairs[i].0, pairs[i].1))
            && (found.AllChosen? ==>
                  && |found.members| == |pairs|
                  && forall i | 0 <= i < |pairs| :: Describes(world, c, pairs[i].0, pairs[i].1, found.members[i]))
  {
    if pairs != [] {
      ReadyMembersAreAllReady(world, c, pairs[..|pairs| - 1]);
      CandidateIsReadyDocument(world, c, pairs[|pairs| - 1].0, pairs[|pairs| - 1].1);
    }
  }

  // ---------------------------------------------------------------- Frames

  /** Every other corpus keeps its pointer, and every stored snapshot stays. */
  ghost predicate OthersKept(store: Store, after: Store, c: Uuid) {
    && (forall d | d != c :: ReleaseOf(after, d) == ReleaseOf(store, d))
    && forall id | id in store.snapshots :: id in after.snapshots && after.snapshots[id] == store.snapshots[id]
  }

  /** The call left corpus c active on this snapshot, and hands back that very release. */
  predicate Active(after: Store, c: Uuid, publication: Publication, snapshotID: Uuid, version: int) {
    && publication.Published? && c in after.releases && publication.release == Some(after.releases[c])
    && after.releases[c].corpusID == c && after.releases[c].snapshotID == snapshotID && after.releases[c].version == version
  }

  /** The one snapshot a call adds: written by the actor at the time, holding the members and their manifest. */
  ghost predicate Adds(
    store: Store, after: Store, publication: Publication, c: Uuid, id: Uuid, actor: string, at: int, members: seq<Member>,
    stamp: int -> string, sha: string -> string)
  {
    && id !in store.snapshots && after.snapshots.Keys == store.snapshots.Keys + {id}
    && var row := after.snapshots[id];
    && row.id == id && row.corpusID == c && row.createdBy == actor && row.createdAt == at
    && row.manifest == ManifestOf(members, stamp, sha) && SameMembers(row.members, members) && Ascending(row.members)
    && publication.Published? && publication.created && publication.snapshot == row.(members := members)
  }

  /** A stored snapshot of the corpus under the manifest of the members. */
  ghost predicate StoredAs(store: Store, c: Uuid, id: Uuid, members: seq<Member>, stamp: int -> string, sha: string -> string) {
    && id in store.snapshots && store.snapshots[id].corpusID == c && store.snapshots[id].manifest == ManifestOf(members, stamp, sha)
  }

  ghost predicate NotStored(store: Store, c: Uuid, members: seq<Member>, stamp: int -> string, sha: string -> string) {
    forall id :: !StoredAs(store, c, id, members, stamp, sha)
  }

  // ---------------------------------------------------------------- Activate

  /** What an activation asks of the tables. */
  predicate Activatable(store: Store, command: Command, world: World)
    requires command.ActivateCommand?
  {
    var c := command.corpusID;
    && c != NIL && command.snapshotID != NIL && command.at != 0 && command.expectedVersion >= 0
    && command.expectedVersion == (if c in store.releases then store.releases[c].version else 0)
    && command.snapshotID in store.snapshots && store.snapshots[command.snapshotID].corpusID == c
    && (c, command.snapshotID) in world.graphs
    && (!IsActive(store, c, command.snapshotID) ==> command.expectedVersion < MAX_INT32)
  }

  predicate IsActive(store: Store, c: Uuid, snapshotID: Uuid) {
    c in store.releases && store.releases[c].snapshotID == snapshotID
  }

  /**
   An activation that succeeds leaves the requested snapshot active and hands back the stored release; the
   version rises by one exactly when another snapshot or none was active. It succeeds exactly when the
   command is valid, the version is the expected one, the snapshot is one of the corpus with a ready graph,
   and a needed move fits the version column. A refused one changes nothing.
   */
  lemma ActivateLeavesActive(store: Store, call: Call, stamp: int -> string, sha: string -> string)
    requires StoreOk(store, stamp, sha) && call.command.ActivateCommand?
    ensures var (after, publication) := Apply(store, call, stamp, sha);
            var command := call.command;
            && (publication.Published? <==> Activatable(store, command, call.world))
            && (publication.Unpublished? ==> after == store)
            && (publication.Published? ==>
                  && Active(after, command.corpusID, publication, command.snapshotID,
                            command.expectedVersion + if publication.created then 1 else 0)
                  && (publication.created <==> !IsActive(store, command.corpusID, command.snapshotID))
                  && (publication.created ==> after.releases[command.corpusID].activatedAt == command.at)
                  && (!publication.created ==> after == store)
                  && OthersKept(store, after, command.corpusID) && after.snapshots == store.snapshots
                  && publication.snapshot == store.snapshots[command.snapshotID])
  {
    var c := call.command.corpusID;
    if c in store.releases {
      assert ReleaseOk(store, c);
    }
  }

  // ---------------------------------------------------------------- Writing an active snapshot

  /** Members that can be written as a new snapshot. */
  ghost predicate Writable(store: Store, c: Uuid, id: Uuid, members: seq<Member>, version: int, stamp: int -> string, sha: string -> string) {
    NotStored(store, c, members, stamp, sha) && id !in store.snapshots && StorableMembers(members) && version < MAX_INT32
  }

  /** Written: a new snapshot of the members is active under the next version. Found: it was active already, and nothing changed. */
  ghost predicate WritesActive(
    store: Store, after: Store, publication: Publication, c: Uuid, id: Uuid, actor: string, at: int, members: seq<Member>,
    stamp: int -> string, sha: string -> string)
  {
    var version := if c in store.releases then store.releases[c].version else 0;
    && publication.Published? && OthersKept(store, after, c)
    && (publication.created ==>
          && Adds(store, after, publication, c, id, actor, at, members, stamp, sha)
          && Active(after, c, publication, id, version + 1) && after.releases[c].activatedAt == at)
    && (!publication.created ==>
          && after == store && publication.snapshot.id in store.snapshots
          && store.snapshots[publication.snapshot.id] == publication.snapshot
          && StoredAs(store, c, publication.snapshot.id, members, stamp, sha)
          && Active(store, c, publication, publication.snapshot.id, version))
  }

  lemma FoundIsStored(store: Store, c: Uuid, members: seq<Member>, stamp: int -> string, sha: string -> string)
    requires StoreOk(store, stamp, sha)
    ensures var found := FindByManifest(store, c, ManifestOf(members, stamp, sha));
            && (found.None? <==> NotStored(store, c, members, stamp, sha))
            && forall id: Uuid :: StoredAs(store, c, id, members, stamp, sha) <==> found == Some(id)
  {
    var manifest := ManifestOf(members, stamp, sha);
    var found := FindByManifest(store, c, manifest);
    forall id: Uuid ensures StoredAs(store, c, id, members, stamp, sha) <==> found == Some(id) {
      assert HasManifest(store, id, c, manifest) <==> StoredAs(store, c, id, members, stamp, sha);
    }
  }

  /** The members are those of the active snapshot, by their manifest. */
  ghost predicate ActiveStored(store: Store, c: Uuid, members: seq<Member>, stamp: int -> string, sha: string -> string) {
    c in store.releases && StoredAs(store, c, store.releases[c].snapshotID, members, stamp, sha)
  }

  lemma WriteLeavesActive(
    store: Store, c: Uuid, id: Uuid, actor: string, at: int, members: seq<Member>, stamp: int -> string, sha: string -> string)
    requires StoreOk(store, stamp, sha) && (StorableMembers(members) ==> DistinctSources(members))
    ensures var (after, publication) := WriteSnapshot(store, c, id, actor, at, members, stamp, sha);
            var version := if c in store.releases then store.releases[c].version else 0;
            && (publication.Published? <==>
                  members != [] && (ActiveStored(store, c, members, stamp, sha) || Writable(store, c, id, members, version, stamp, sha)))
            && (publication.Unpublished? ==> after == store)
            && (publication.Published? ==> WritesActive(store, after, publication, c, id, actor, at, members, stamp, sha))
  {
    FoundIsStored(store, c, members, stamp, sha);
    if c in store.releases {
      assert ReleaseOk(store, c);
    }
    var found := FindByManifest(store, c, ManifestOf(members, stamp, sha));
    if found.Some? {
      assert SnapshotOk(store, found.value, stamp, sha);
    } else if StorableMembers(members) && members != [] {
      BySourceKeeps(members);
    }
  }

  /**
   A publication succeeds exactly when the command is valid, the version is the expected one, the document is
   ready, and the requested members are the active ones or a new snapshot can be written.
   */
  lemma PublishLeavesActive(store: Store, call: Call, stamp: int -> string, sha: string -> string)
    requires StoreOk(store, stamp, sha) && call.command.PublishCommand?
    ensures var (after, publication) := Apply(store, call, stamp, sha);
            var command, requested := call.command, Requested(store, call.command, call.world);
            var c := command.corpusID;
            && (publication.Published? <==>
                  && ValidCommand(command) && c in store.releases && store.releases[c].version == command.expectedVersion
                  && ReadyDocument(call.world, c, command.sourceID, command.documentID)
                  && (ActiveStored(store, c, requested, stamp, sha)
                      || Writable(store, c, command.snapshotID, requested, command.expectedVersion, stamp, sha)))
            && (publication.Unpublished? ==> after == store)
            && (publication.Published? ==>
                  WritesActive(store, after, publication, c, command.snapshotID, command.actor, command.at, requested, stamp, sha))
  {
    var command := call.command;
    CandidateIsReadyDocument(call.world, command.corpusID, command.sourceID, command.documentID);
    WriteLeavesActive(store, command.corpusID, command.snapshotID, command.actor, command.at,
                      Requested(store, command, call.world), stamp, sha);
  }

  // ---------------------------------------------------------------- Initialize

  /** The members are those of the listed documents, every one of them ready. */
  ghost predicate MembersOf(world: World, c: Uuid, pairs: seq<(Uuid, Uuid)>, members: seq<Member>) {
    && (forall m | m in members :: exists i :: 0 <= i < |pairs| && Describes(world, c, pairs[i].0, pairs[i].1, m))
    && forall i | 0 <= i < |pairs| :: exists m :: m in members && Describes(world, c, pairs[i].0, pairs[i].1, m)
  }

  lemma ChosenAreMembersOf(world: World, c: Uuid, pairs: seq<(Uuid, Uuid)>)
    requires ReadyMembers(world, c, pairs).AllChosen?
    ensures MembersOf(world, c, pairs, ReadyMembers(world, c, pairs).members)
    ensures ReadyMembers(world, c, pairs).members == [] <==> pairs == []
  {
    ReadyMembersAreAllReady(world, c, pairs);
    var members := ReadyMembers(world, c, pairs).members;
    forall m | m in members ensures exists i :: 0 <= i < |pairs| && Describes(world, c, pairs[i].0, pairs[i].1, m) {
      var i :| 0 <= i < |members| && members[i] == m;
    }
    forall i | 0 <= i < |pairs| ensures exists m :: m in members && Describes(world, c, pairs[i].0, pairs[i].1, m) {
      assert members[i] in members;
    }
  }

  /** An initialisation of a corpus that has a release hands it back with its snapshot and changes nothing. */
  lemma InitializeKeepsActive(store: Store, call: Call, stamp: int -> string, sha: string -> string)
    requires StoreOk(store, stamp, sha) && call.command.InitializeCommand? && ValidCommand(call.command)
    requires call.command.corpusID in store.releases
    ensures var (after, publication) := Apply(store, call, stamp, sha);
            var c := call.command.corpusID;
            && after == store && publication.Published? && !publication.created
            && publication.snapshot.id in store.snapshots && publication.snapshot == store.snapshots[publication.snapshot.id]
            && Active(store, c, publication, publication.snapshot.id, store.releases[c].version)
  {
    var c := call.command.corpusID;
    assert ReleaseOk(store, c);
    assert SnapshotOk(store, store.releases[c].snapshotID, stamp, sha);
  }

  /** The members of the latest documents, if all of them are ready. */
  function LatestMembers(world: World, c: Uuid): seq<Member> {
    var found := ReadyMembers(world, c, LatestPairs(world, c));
    if found.AllChosen? then found.members else []
  }

  lemma LatestMembersDescribe(world: World, c: Uuid)
    ensures LatestMembers(world, c) != [] <==>
              && LatestPairs(world, c) != []
              && forall i | 0 <= i < |LatestPairs(world, c)| :: ReadyDocument(world, c, LatestPairs(world, c)[i].0, LatestPairs(world, c)[i].1)
    ensures LatestMembers(world, c) != [] ==> MembersOf(world, c, LatestPairs(world, c), LatestMembers(world, c))
  {
    ReadyMembersAreAllReady(world, c, LatestPairs(world, c));
    if ReadyMembers(world, c, LatestPairs(world, c)).AllChosen? {
      ChosenAreMembersOf(world, c, LatestPairs(world, c));
    }
  }

  lemma InitializeWrites(store: Store, call: Call, stamp: int -> string, sha: string -> string)
    requires call.command.InitializeCommand? && call.command.corpusID !in store.releases
    ensures var command, members := call.command, LatestMembers(call.world, call.command.corpusID);
            var (after, publication) := Apply(store, call, stamp, sha);
            && (ValidCommand(command) && members != [] ==>
                  (after, publication) == WriteSnapshot(store, command.corpusID, command.snapshotID, command.actor, command.at, members, stamp, sha))
            && (!ValidCommand(command) || members == [] ==> after == store && publication.Unpublished?)
  {
  }

  /**
   The first initialisation of a corpus succeeds exactly when the command is valid, there are latest published
   documents, every one of them is ready, and their snapshot can be written. These documents, and no others,
   are then the active members, under version one.
   */
  lemma InitializeLeavesActive(store: Store, call: Call, stamp: int -> string, sha: string -> string)
    requires StoreOk(store, stamp, sha) && call.command.InitializeCommand? && call.command.corpusID !in store.releases
    ensures var (after, publication) := Apply(store, call, stamp, sha);
            var command, members := call.command, LatestMembers(call.world, call.command.corpusID);
            && (publication.Published? <==>
                  ValidCommand(command) && members != [] && Writable(store, command.corpusID, command.snapshotID, members, 0, stamp, sha))
            && (publication.Unpublished? ==> after == store)
            && (publication.Published? ==> FirstRelease(store, after, call, publication))
  {
    var command, members := call.command, LatestMembers(call.world, call.command.corpusID);
    InitializeWrites(store, call, stamp, sha);
    LatestMembersDescribe(call.world, command.corpusID);
    if ValidCommand(command) && members != [] {
      WriteLeavesActive(store, command.corpusID, command.snapshotID, command.actor, command.at, members, stamp, sha);
    }
  }

  ghost predicate FirstRelease(store: Store, after: Store, call: Call, publication: Publication)
    requires call.command.InitializeCommand?
  {
    var command := call.command;
    var c := command.corpusID;
    && OthersKept(store, after, c) && Active(after, c, publication, command.snapshotID, 1) && publication.created
    && after.releases[c].activatedAt == command.at
    && MembersOf(call.world, c, LatestPairs(call.world, c), ActiveMembers(after, c))
  }

  // ---------------------------------------------------------------- Stage

  /**
   A staging hands back the release as it stands. It succeeds exactly when the command is valid, the document is
   ready, and a snapshot with the requested manifest is stored or can be; then it hands back that one.
   */
  lemma StageLeavesStored(store: Store, call: Call, stamp: int -> string, sha: string -> string)
    requires StoreOk(store, stamp, sha) && call.command.StageCommand?
    ensures var (after, publication) := Apply(store, call, stamp, sha);
            var command, requested := call.command, Requested(store, call.command, call.world);
            var c := command.corpusID;
            && (publication.Published? <==>
                  && ValidCommand(command) && ReadyDocument(call.world, c, command.sourceID, command.documentID)
                  && (!NotStored(store, c, requested, stamp, sha)
                      || (command.snapshotID !in store.snapshots && StorableMembers(requested))))
            && (publication.Unpublished? ==> after == store)
            && (publication.Published? ==>
                  && after.releases == store.releases
                  && publication.release == (if c in store.releases then Some(store.releases[c]) else None)
                  && (publication.created <==> NotStored(store, c, requested, stamp, sha))
                  && (publication.created ==>
                        Adds(store, after, publication, c, command.snapshotID, command.actor, command.at, requested, stamp, sha))
                  && (!publication.created ==>
                        && after == store && StoredAs(store, c, publication.snapshot.id, requested, stamp, sha)
                        && publication.snapshot == store.snapshots[publication.snapshot.id]))
  {
    var command, requested := call.command, Requested(store, call.command, call.world);
    var c := command.corpusID;
    CandidateIsReadyDocument(call.world, c, command.sourceID, command.documentID);
    FoundIsStored(store, c, requested, stamp, sha);
    var found := FindByManifest(store, c, ManifestOf(requested, stamp, sha));
    if found.Some? {
      assert SnapshotOk(store, found.value, stamp, sha);
    } else if StorableMembers(requested) {
      BySourceKeeps(requested);
    }
  }
}
