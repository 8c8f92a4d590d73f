/** What holds of memory blocks over every run, whatever the actors, the interleaving and the clock. */
module MemoryBlockLaws {
  import opened MemoryBlockStore
  import opened Wrappers

  datatype Write =
    | Creating(id: BlockId, document: Document, actor: Actor, now: int)
    | Updating(id: BlockId, expected: int, document: Document, actor: Actor, now: int)
    | Restoring(id: BlockId, expected: int, source: int, actor: Actor, now: int)

  function Apply(t: Tables, w: Write): Outcome
  {
    match w
    case Creating(id, d, a, now) => CreateBlock(t, id, d, a, now)
    case Updating(id, e, d, a, now) => UpdateBlock(t, id, e, d, a, now)
    case Restoring(id, e, s, a, now) => RestoreBlock(t, id, e, s, a, now)
  }

  function Step(t: Tables, w: Write): Tables
  {
    var o := Apply(t, w);
    if o.Committed? then o.tables else t
  }

  function Run(t: Tables, ws: seq<Write>): Tables
    decreases |ws|
  {
    if ws == [] then t else Run(Step(t, ws[0]), ws[1..])
  }

  // ---------------------------------------------------------------------------------------------
  // The invariant
  // ---------------------------------------------------------------------------------------------

  /** What one revision owes to its block and to the revisions before it. */
  ghost predicate RevisionOk(t: Tables, id: BlockId, k: int)
    requires id in t.blocks && (id, k) in t.revisions
  {
    var b, r := t.blocks[id], t.revisions[(id, k)];
    && ValidDocument(r.snapshot) && r.snapshot.layer == b.layer && r.snapshot.managedBy == b.managedBy
    && WellShaped(k, r) && RestoreMatches(t, id, r)
    && b.createdAt <= r.createdAt <= b.updatedAt
    && (IsAgent(r.actor) ==> r.snapshot.managedBy == AgentManaged)
    && (k > 1 ==> FollowsOk(t, id, k))
  }

  /** A later revision comes no earlier than its predecessor, and by an agent only on one that is not read-only. */
  ghost predicate FollowsOk(t: Tables, id: BlockId, k: int)
    requires (id, k) in t.revisions
  {
    && (id, k - 1) in t.revisions
    && t.revisions[(id, k - 1)].createdAt <= t.revisions[(id, k)].createdAt
    && (IsAgent(t.revisions[(id, k)].actor) ==> !t.revisions[(id, k - 1)].snapshot.readOnly)
  }

  /** The block's revisions are exactly 1..current. */
  ghost predicate BlockOk(t: Tables, id: BlockId)
    requires id in t.blocks
  {
    && PositiveInt32(t.blocks[id].currentRevision)
    && t.blocks[id].createdAt <= t.blocks[id].updatedAt
    && (forall k :: (id, k) in t.revisions <==> 1 <= k <= t.blocks[id].currentRevision)
    && (forall k {:trigger RevisionOk(t, id, k)} :: (id, k) in t.revisions ==> RevisionOk(t, id, k))
    && t.blocks[id].updatedAt == t.revisions[(id, t.blocks[id].currentRevision)].createdAt
  }

  ghost predicate Invariant(t: Tables)
  {
    && (forall id :: id in t.blocks ==> BlockOk(t, id))
    && (forall id, k :: (id, k) in t.revisions ==> id in t.blocks)
  }

  /** One committed write: a new block with revision 1, or one new revision on top of an old block. */
  ghost predicate Extends(t: Tables, t': Tables, id: BlockId, k: int)
  {
    && id in t'.blocks && t'.blocks[id].currentRevision == k && (id, k) in t'.revisions && (id, k) !in t.revisions
    && t' == Tables(t.blocks[id := t'.blocks[id]], t.revisions[(id, k) := t'.revisions[(id, k)]])
    && t'.revisions[(id, k)].createdAt == t'.blocks[id].updatedAt
    && if id in t.blocks then
         && t.blocks[id].currentRevision == k - 1 && t.blocks[id].updatedAt <= t'.blocks[id].updatedAt
         && t'.blocks[id] == t.blocks[id].(currentRevision := k, updatedAt := t'.blocks[id].updatedAt)
       else
         k == 1 && t'.blocks[id].createdAt == t'.blocks[id].updatedAt
  }

  lemma CommitExtends(t: Tables, w: Write)
    requires Invariant(t) && Apply(t, w).Committed?
    ensures var o := Apply(t, w);
            && Extends(t, o.tables, o.record.id, o.record.revision)
            && NewRevisionOk(t, o.tables, o.record.id, o.record.revision)
            && GetRevision(o.tables, o.record.id, o.record.revision) == Found(o.record)
  {
    var o := Apply(t, w);
    if w.Creating? {
      assert (w.id, 1) !in t.revisions;
    } else {
      assert BlockOk(t, w.id);
    }
  }

  /** The new revision alone, judged against the tables it was inserted into. */
  ghost predicate NewRevisionOk(t: Tables, t': Tables, id: BlockId, k: int)
    requires Extends(t, t', id, k)
  {
    var b, r := t'.blocks[id], t'.revisions[(id, k)];
    && PositiveInt32(k) && ValidDocument(r.snapshot) && r.snapshot.layer == b.layer && r.snapshot.managedBy == b.managedBy
    && WellShaped(k, r) && RestoreMatches(t, id, r)
    && (IsAgent(r.actor) ==> r.snapshot.managedBy == AgentManaged)
    && (k > 1 && IsAgent(r.actor) && (id, k - 1) in t.revisions ==> !t.revisions[(id, k - 1)].snapshot.readOnly)
  }

  lemma OldRevisionStaysOk(t: Tables, t': Tables, id: BlockId, k: int, other: BlockId, j: int)
    requires Extends(t, t', id, k) && other in t.blocks && (other, j) in t.revisions && RevisionOk(t, other, j)
    ensures (other, j) in t'.revisions && RevisionOk(t', other, j)
  {
  }

  lemma NewRevisionStaysOk(t: Tables, t': Tables, id: BlockId, k: int)
    requires Extends(t, t', id, k) && NewRevisionOk(t, t', id, k)
    requires id in t.blocks ==> BlockOk(t, id)
    ensures RevisionOk(t', id, k)
  {
    if k > 1 {
      assert (id, k - 1) in t.revisions;
    }
  }

  lemma ExtendedBlockOk(t: Tables, t': Tables, id: BlockId, k: int)
    requires Extends(t, t', id, k) && NewRevisionOk(t, t', id, k)
    requires id in t.blocks ==> BlockOk(t, id)
    requires forall j :: (id, j) in t.revisions ==> id in t.blocks
    ensures BlockOk(t', id)
  {
    NewRevisionStaysOk(t, t', id, k);
    forall j | (id, j) in t'.revisions ensures RevisionOk(t', id, j) {
      if j != k {
        OldRevisionStaysOk(t, t', id, k, id, j);
      }
    }
  }

  lemma ExtensionKeepsInvariant(t: Tables, t': Tables, id: BlockId, k: int)
    requires Invariant(t) && Extends(t, t', id, k) && NewRevisionOk(t, t', id, k)
    ensures Invariant(t')
  {
    ExtendedBlockOk(t, t', id, k);
    forall other | other in t.blocks && other != id ensures BlockOk(t', other) {
      assert BlockOk(t, other);
      forall j | (other, j) in t.revisions ensures RevisionOk(t', other, j) {
        OldRevisionStaysOk(t, t', id, k, other, j);
      }
    }
  }

  lemma StepKeepsInvariant(t: Tables, w: Write)
    requires Invariant(t)
    ensures Invariant(Step(t, w))
  {
    if Apply(t, w).Committed? {
      CommitExtends(t, w);
      ExtensionKeepsInvariant(t, Apply(t, w).tables, Apply(t, w).record.id, Apply(t, w).record.revision);
    }
  }

  /** In every reachable state each block has exactly the revisions 1..current, all of one layer and
      manager, in time order, with restores that copy an earlier revision. */
  lemma {:induction false} RunKeepsInvariant(t: Tables, ws: seq<Write>)
    requires Invariant(t)
    ensures Invariant(Run(t, ws))
    decreases |ws|
  {
    if ws != [] {
      StepKeepsInvariant(t, ws[0]);
      RunKeepsInvariant(Step(t, ws[0]), ws[1..]);
    }
  }

  const Empty := Tables(map[], map[])

  /** From empty tables on: a block has exactly the revisions 1..current, each of its layer and manager and
      no earlier than the one before; the first alone is a create, and a restore holds the document of a
      revision at least two back. */
  lemma ReachableBlocksAreChains(ws: seq<Write>, id: BlockId, k: int)
    requires id in Run(Empty, ws).blocks
    ensures var t := Run(Empty, ws);
            && 1 <= t.blocks[id].currentRevision <= MAX_REVISION
            && ((id, k) in t.revisions <==> 1 <= k <= t.blocks[id].currentRevision)
            && ((id, k) in t.revisions ==>
                 var r := t.revisions[(id, k)];
                 && r.snapshot.layer == t.blocks[id].layer && r.snapshot.managedBy == t.blocks[id].managedBy
                 && (r.operation == Create <==> k == 1)
                 && (k > 1 ==> (id, k - 1) in t.revisions && t.revisions[(id, k - 1)].createdAt <= r.createdAt)
                 && (r.operation == Restore ==>
                      && r.restoredFrom.Some? && 1 <= r.restoredFrom.value < k - 1
                      && (id, r.restoredFrom.value) in t.revisions
                      && t.revisions[(id, r.restoredFrom.value)].snapshot == r.snapshot))
  {
    RunKeepsInvariant(Empty, ws);
    var t := Run(Empty, ws);
    assert BlockOk(t, id);
    if (id, k) in t.revisions {
      assert RevisionOk(t, id, k);
    }
  }

  // ---------------------------------------------------------------------------------------------
  // What the tables enforce by themselves
  // ---------------------------------------------------------------------------------------------

  /** On intact tables constraints and triggers admit exactly the next revision of a block, never a second
      create, of the block's layer and manager, with the document of an older revision if it is a restore,
      and from an agent only on an agent-managed block that is not read-only. */
  lemma TriggersAdmitExactly(t: Tables, id: BlockId, k: int, r: RevisionRow)
    requires Invariant(t) && id in t.blocks
    ensures var c := t.blocks[id].currentRevision;
            Insertable(t, id, k, r) <==>
              && k == c + 1 <= MAX_REVISION && ValidActor(r.actor)
              && r.snapshot.layer == t.blocks[id].layer && r.snapshot.managedBy == t.blocks[id].managedBy
              && (IsAgent(r.actor) ==> r.snapshot.managedBy == AgentManaged && !t.revisions[(id, c)].snapshot.readOnly)
              && match r.operation
                 case Create => false
                 case Update => r.restoredFrom == None
                 case Restore => r.restoredFrom.Some? && 1 <= r.restoredFrom.value < c &&
                                 r.snapshot == t.revisions[(id, r.restoredFrom.value)].snapshot
  {
    assert BlockOk(t, id);
    var c := t.blocks[id].currentRevision;
    assert (id, c) in t.revisions && RevisionOk(t, id, c) && (id, 1) in t.revisions;
  }

  /** No check of the program is needed for the history: any insert of a first or next revision, with the
      block moved to it, that constraints and triggers let through keeps the invariant, whatever document,
      actor, operation, restore link, time and expected revision it carries. */
  lemma TriggersAloneKeepHistory(t: Tables, id: BlockId, expected: int, r: RevisionRow)
    requires Invariant(t)
    ensures id in t.blocks && MoveTo(t, id, expected, r).Committed? ==> Invariant(MoveTo(t, id, expected, r).tables)
    ensures var b := BlockRow(r.snapshot.layer, r.snapshot.managedBy, 1, r.createdAt, r.createdAt);
            id !in t.blocks && Insertable(t.(blocks := t.blocks[id := b]), id, 1, r) ==>
              Invariant(Tables(t.blocks[id := b], t.revisions[(id, 1) := r]))
  {
    if id in t.blocks {
      assert BlockOk(t, id);
      if MoveTo(t, id, expected, r).Committed? {
        ExtensionKeepsInvariant(t, MoveTo(t, id, expected, r).tables, id, expected + 1);
      }
    } else {
      var b := BlockRow(r.snapshot.layer, r.snapshot.managedBy, 1, r.createdAt, r.createdAt);
      if Insertable(t.(blocks := t.blocks[id := b]), id, 1, r) {
        ExtensionKeepsInvariant(t, Tables(t.blocks[id := b], t.revisions[(id, 1) := r]), id, 1);
      }
    }
  }

  // ---------------------------------------------------------------------------------------------
  // Append-only history
  // ---------------------------------------------------------------------------------------------

  /** Revisions are never changed or removed, and a block keeps its identity. */
  ghost predicate Grows(t: Tables, t': Tables)
  {
    && (forall key :: key in t.revisions ==> key in t'.revisions && t'.revisions[key] == t.revisions[key])
    && (forall id :: id in t.blocks ==> id in t'.blocks && SameBlock(t.blocks[id], t'.blocks[id]))
  }

  predicate SameBlock(b: BlockRow, b': BlockRow)
  {
    && b'.layer == b.layer && b'.managedBy == b.managedBy && b'.createdAt == b.createdAt
    && b.currentRevision <= b'.currentRevision && b.updatedAt <= b'.updatedAt
  }

  lemma StepGrows(t: Tables, w: Write)
    requires Invariant(t)
    ensures Grows(t, Step(t, w))
  {
    if Apply(t, w).Committed? {
      CommitExtends(t, w);
    }
  }

  lemma {:induction false} HistoryOnlyGrows(t: Tables, ws: seq<Write>)
    requires Invariant(t)
    ensures Grows(t, Run(t, ws))
    decreases |ws|
  {
    if ws != [] {
      StepKeepsInvariant(t, ws[0]);
      StepGrows(t, ws[0]);
      HistoryOnlyGrows(Step(t, ws[0]), ws[1..]);
    }
  }

  /** The record a write returned is what reading that revision returns ever after. */
  lemma ReturnedRecordStaysReadable(t: Tables, w: Write, ws: seq<Write>)
    requires Invariant(t) && Apply(t, w).Committed?
    ensures var r := Apply(t, w).record;
            GetRevision(Run(Apply(t, w).tables, ws), r.id, r.revision) == Found(r)
  {
    CommitExtends(t, w);
    StepKeepsInvariant(t, w);
    HistoryOnlyGrows(Apply(t, w).tables, ws);
  }

  /** An update stores exactly the given document, a restore exactly the document of the named revision,
      and the new revision is the current one. */
  lemma WritesStoreWhatTheySay(t: Tables, w: Write)
    requires Invariant(t) && Apply(t, w).Committed?
    ensures var (t', r) := (Apply(t, w).tables, Apply(t, w).record);
            && Current(t', r.id) == Found(r)
            && match w
               case Creating(id, d, a, now) => r == Record(id, 1, d, Create, a, None, now, now)
               case Updating(id, e, d, a, now) =>
                 id in t.blocks && r == Record(id, e + 1, d, Update, a, None, t.blocks[id].createdAt, now)
               case Restoring(id, e, s, a, now) =>
                 id in t.blocks && (id, s) in t.revisions &&
                 r == Record(id, e + 1, t.revisions[(id, s)].snapshot, Restore, a, Some(s), t.blocks[id].createdAt, now)
  {
    CommitExtends(t, w);
    StepKeepsInvariant(t, w);
    var t', r := Apply(t, w).tables, Apply(t, w).record;
    ReadingsAreSound(t', r.id, r.revision);
  }

  /** Intact tables are never reported corrupt. */
  lemma ReadingsAreSound(t: Tables, id: BlockId, k: int)
    requires Invariant(t)
    ensures GetRevision(t, id, k).Found? <==> id in t.blocks && 1 <= k <= t.blocks[id].currentRevision
    ensures !GetRevision(t, id, k).Corrupt? && !Current(t, id).Corrupt?
    ensures id in t.blocks ==> Current(t, id) == GetRevision(t, id, t.blocks[id].currentRevision)
  {
    if id in t.blocks {
      assert BlockOk(t, id);
      var c := t.blocks[id].currentRevision;
      assert (id, c) in t.revisions && RevisionOk(t, id, c);
      if (id, k) in t.revisions {
        assert RevisionOk(t, id, k);
      }
    }
  }

  // ---------------------------------------------------------------------------------------------
  // One commit per expected revision
  // ---------------------------------------------------------------------------------------------

  predicate Expects(w: Write, id: BlockId, expected: int)
  {
    !w.Creating? && w.id == id && w.expected == expected
  }

  function CountCommits(t: Tables, ws: seq<Write>, id: BlockId, expected: int): nat
    decreases |ws|
  {
    if ws == [] then 0
    else
      (if Expects(ws[0], id, expected) && Apply(t, ws[0]).Committed? then 1 else 0) +
      CountCommits(Step(t, ws[0]), ws[1..], id, expected)
  }

  lemma {:induction false} PassedRevisionNeverCommits(t: Tables, ws: seq<Write>, id: BlockId, expected: int)
    requires Invariant(t) && id in t.blocks && t.blocks[id].currentRevision > expected
    ensures CountCommits(t, ws, id, expected) == 0
    decreases |ws|
  {
    if ws != [] {
      StepKeepsInvariant(t, ws[0]);
      StepGrows(t, ws[0]);
      PassedRevisionNeverCommits(Step(t, ws[0]), ws[1..], id, expected);
    }
  }

  /** Of all updates and restores holding one expected revision, at most one ever commits. */
  lemma {:induction false} OneCommitPerExpectedRevision(t: Tables, ws: seq<Write>, id: BlockId, expected: int)
    requires Invariant(t)
    ensures CountCommits(t, ws, id, expected) <= 1
    decreases |ws|
  {
    if ws != [] {
      StepKeepsInvariant(t, ws[0]);
      if Expects(ws[0], id, expected) && Apply(t, ws[0]).Committed? {
        CommitExtends(t, ws[0]);
        PassedRevisionNeverCommits(Step(t, ws[0]), ws[1..], id, expected);
      } else {
        OneCommitPerExpectedRevision(Step(t, ws[0]), ws[1..], id, expected);
      }
    }
  }

  // ---------------------------------------------------------------------------------------------
  // Restores
  // ---------------------------------------------------------------------------------------------

  /** Follow restore links back to the revision that first held the document. */
  ghost function Origin(t: Tables, id: BlockId, k: int): (o: int)
    requires Invariant(t) && (id, k) in t.revisions
    ensures 1 <= o <= k && (id, o) in t.revisions
    ensures t.revisions[(id, o)].operation != Restore
    ensures t.revisions[(id, o)].snapshot == t.revisions[(id, k)].snapshot
    decreases k
  {
    assert BlockOk(t, id) && RevisionOk(t, id, k);
    var r := t.revisions[(id, k)];
    if r.operation == Restore then Origin(t, id, r.restoredFrom.value) else k
  }

  /** The origin of a revision, and the document found there, never change. */
  lemma {:induction false} OriginIsStable(t: Tables, t': Tables, id: BlockId, k: int)
    requires Invariant(t) && Invariant(t') && Grows(t, t') && (id, k) in t.revisions
    ensures Origin(t', id, k) == Origin(t, id, k)
    decreases k
  {
    assert BlockOk(t, id) && RevisionOk(t, id, k);
    var r := t.revisions[(id, k)];
    if r.operation == Restore {
      OriginIsStable(t, t', id, r.restoredFrom.value);
    }
  }

  // ---------------------------------------------------------------------------------------------
  // Agents
  // ---------------------------------------------------------------------------------------------

  /** Revision m is by someone other than an agent and leaves the document writable. */
  ghost predicate Unlocks(t: Tables, id: BlockId, m: int)
  {
    (id, m) in t.revisions && !IsAgent(t.revisions[(id, m)].actor) && !t.revisions[(id, m)].snapshot.readOnly
  }

  lemma {:induction false} WritableAgain(t: Tables, id: BlockId, j: int, k: int)
    requires Invariant(t) && (id, j) in t.revisions && (id, k) in t.revisions && j < k
    requires t.revisions[(id, j)].snapshot.readOnly && !t.revisions[(id, k)].snapshot.readOnly
    ensures exists m :: j < m <= k && Unlocks(t, id, m)
    decreases k - j
  {
    assert BlockOk(t, id) && RevisionOk(t, id, k) && (id, k - 1) in t.revisions;
    if t.revisions[(id, k - 1)].snapshot.readOnly {
      assert Unlocks(t, id, k);
    } else {
      WritableAgain(t, id, j, k - 1);
    }
  }

  /** An agent revises only agent-managed blocks, and after a read-only revision only once someone
      other than an agent has made the block writable again. */
  lemma AgentsAreShutOutWhileReadOnly(t: Tables, id: BlockId, j: int, k: int)
    requires Invariant(t) && (id, j) in t.revisions && (id, k) in t.revisions && j < k
    requires t.revisions[(id, j)].snapshot.readOnly && IsAgent(t.revisions[(id, k)].actor)
    ensures t.blocks[id].managedBy == AgentManaged
    ensures exists m :: j < m < k && Unlocks(t, id, m)
  {
    assert BlockOk(t, id) && RevisionOk(t, id, k) && (id, k - 1) in t.revisions;
    WritableAgain(t, id, j, k - 1);
  }

  // ---------------------------------------------------------------------------------------------
  // Exactly when a revision commits
  // ---------------------------------------------------------------------------------------------

  /** On intact tables the constraints and triggers refuse nothing that the checks let through, except a
      clock that stands before the block's last update. */
  lemma UpdateCommitsExactly(t: Tables, id: BlockId, expected: int, d: Document, a: Actor, now: int)
    requires Invariant(t)
    ensures UpdateBlock(t, id, expected, d, a, now).Committed? <==>
            && ValidDocument(d) && ValidActor(a)
            && id in t.blocks && t.blocks[id].currentRevision == expected < MAX_REVISION
            && d.layer == t.blocks[id].layer && d.managedBy == t.blocks[id].managedBy
            && (IsAgent(a) ==> d.managedBy == AgentManaged && !t.revisions[(id, expected)].snapshot.readOnly)
            && t.blocks[id].updatedAt <= now
  {
    if id in t.blocks {
      assert BlockOk(t, id);
      var c := t.blocks[id].currentRevision;
      assert (id, c) in t.revisions && RevisionOk(t, id, c) && (id, c + 1) !in t.revisions;
    }
  }

  lemma RestoreCommitsExactly(t: Tables, id: BlockId, expected: int, source: int, a: Actor, now: int)
    requires Invariant(t)
    ensures RestoreBlock(t, id, expected, source, a, now).Committed? <==>
            && ValidActor(a)
            && id in t.blocks && t.blocks[id].currentRevision == expected < MAX_REVISION
            && 1 <= source < expected
            && (IsAgent(a) ==> t.blocks[id].managedBy == AgentManaged && !t.revisions[(id, expected)].snapshot.readOnly)
            && t.blocks[id].updatedAt <= now
  {
    if id in t.blocks {
      assert BlockOk(t, id);
      var c := t.blocks[id].currentRevision;
      assert (id, c) in t.revisions && RevisionOk(t, id, c) && (id, c + 1) !in t.revisions;
      if 1 <= source < c {
        assert (id, source) in t.revisions && RevisionOk(t, id, source);
      }
    }
  }
}
