/** What each memory block transaction answers: when it commits, what the record then says, and why it is
    refused, with the actors and limits written out.
 */
module MemoryBlockAnswers {
  import opened MemoryBlockStore
  import opened MemoryBlockLaws
  import opened Wrappers

  /** Users, sessions, the system and tests write by their own authority; every other actor is an agent. */
  lemma AgentsAreTheOthers(a: Actor)
    ensures IsAgent(a) <==> a.actorType !in {User, Session, System, Test}
  {
  }

  /** Identity and human documents are managed by the user; an actor's ID has 1 to 256 characters. */
  predicate InputOk(d: Document, a: Actor)
  {
    (d.managedBy == AgentManaged ==> d.layer == Procedural) && NameOk(a)
  }

  predicate NameOk(a: Actor)
  {
    a.actorId == None || 1 <= |a.actorId.value| <= 256
  }

  predicate OwnAuthority(a: Actor)
  {
    a.actorType in {User, Session, System, Test}
  }

  lemma ChecksAreExact(d: Document, a: Actor)
    ensures ValidDocument(d) && ValidActor(a) <==> InputOk(d, a)
    ensures ValidActor(a) <==> NameOk(a)
    ensures IsAgent(a) <==> !OwnAuthority(a)
  {
  }

  ghost predicate OnlyAdded(t: Tables, t': Tables, id: BlockId, k: int)
  {
    && (forall other :: other != id ==> (other in t'.blocks <==> other in t.blocks))
    && (forall other :: other != id && other in t.blocks ==> t'.blocks[other] == t.blocks[other])
    && (forall key :: key != (id, k) ==> (key in t'.revisions <==> key in t.revisions))
    && (forall key :: key != (id, k) && key in t.revisions ==> t'.revisions[key] == t.revisions[key])
  }

  /** Creating a block, exactly: the new block has revision 1, stamped once. */
  lemma CreateIsExact(t: Tables, id: BlockId, d: Document, a: Actor, now: int)
    requires Invariant(t)
    ensures var o := CreateBlock(t, id, d, a, now);
            if !InputOk(d, a) then o == Failed(ValidationError)
            else if !OwnAuthority(a) && d.managedBy != AgentManaged then o == Failed(Forbidden)
            else if id in t.blocks then o == Failed(ConstraintViolation)
            else
              && o.Committed? && o.record == Record(id, 1, d, Create, a, None, now, now)
              && id in o.tables.blocks && o.tables.blocks[id] == BlockRow(d.layer, d.managedBy, 1, now, now)
              && (id, 1) in o.tables.revisions && o.tables.revisions[(id, 1)] == RevisionRow(Create, a, None, d, now)
              && OnlyAdded(t, o.tables, id, 1)
  {
    ChecksAreExact(d, a);
  }

  /** What stands in the way of revision `expected + 1` once block and document are known. */
  function RevisionRefusal(t: Tables, id: BlockId, expected: int, d: Document, a: Actor, now: int): Option<Error>
    requires id in t.blocks && (id, expected) in t.revisions
  {
    var b, current := t.blocks[id], t.revisions[(id, expected)].snapshot;
    if d.layer != b.layer || d.managedBy != b.managedBy then Some(ImmutableIdentity)
    else if !OwnAuthority(a) && b.managedBy != AgentManaged then Some(Forbidden)
    else if !OwnAuthority(a) && current.readOnly then Some(ReadOnly)
    else if expected == 2147483647 then Some(RangeError)
    else if now < b.updatedAt then Some(ConstraintViolation)
    else None
  }

  predicate InRange(n: int)
  {
    1 <= n <= 2147483647
  }

  ghost predicate Revised(t: Tables, o: Outcome, id: BlockId, k: int, r: RevisionRow)
    requires id in t.blocks
  {
    && o.Committed?
    && o.record == Record(id, k, r.snapshot, r.operation, r.actor, r.restoredFrom, t.blocks[id].createdAt, r.createdAt)
    && id in o.tables.blocks && o.tables.blocks[id] == t.blocks[id].(currentRevision := k, updatedAt := r.createdAt)
    && (id, k) in o.tables.revisions && o.tables.revisions[(id, k)] == r
    && OnlyAdded(t, o.tables, id, k)
  }

  lemma CurrentIsStored(t: Tables, id: BlockId)
    requires Invariant(t) && id in t.blocks
    ensures var c := t.blocks[id].currentRevision;
            && HasCurrent(t, id) && (id, c) in t.revisions && 1 <= c <= 2147483647 && (id, c + 1) !in t.revisions
            && Current(t, id).Found? && Current(t, id).record.document == t.revisions[(id, c)].snapshot
            && t.revisions[(id, c)].snapshot.layer == t.blocks[id].layer
            && t.revisions[(id, c)].snapshot.managedBy == t.blocks[id].managedBy
  {
    assert BlockOk(t, id);
    var c := t.blocks[id].currentRevision;
    assert (id, c) in t.revisions && RevisionOk(t, id, c);
  }

  lemma ReviseIsExact(t: Tables, id: BlockId, d: Document, r: RevisionRow)
    requires Invariant(t) && id in t.blocks && r.snapshot == d
    requires TriggersFit(t, id, r)
    ensures var c := t.blocks[id].currentRevision;
            (id, c) in t.revisions &&
            var o := Revise(t, id, c, t.revisions[(id, c)].snapshot, r);
            match RevisionRefusal(t, id, c, d, r.actor, r.createdAt)
            case Some(e) => o == Failed(e)
            case None => Revised(t, o, id, c + 1, r)
  {
    CurrentIsStored(t, id);
    ChecksAreExact(d, r.actor);
    TriggersAdmitExactly(t, id, t.blocks[id].currentRevision + 1, r);
  }

  /** An update, or a restore of an older revision's document. */
  ghost predicate TriggersFit(t: Tables, id: BlockId, r: RevisionRow)
    requires id in t.blocks
  {
    && NameOk(r.actor)
    && match r.operation
       case Create => false
       case Update => r.restoredFrom == None
       case Restore => r.restoredFrom.Some? && 1 <= r.restoredFrom.value < t.blocks[id].currentRevision &&
                       (id, r.restoredFrom.value) in t.revisions && r.snapshot == t.revisions[(id, r.restoredFrom.value)].snapshot
  }

  /** Updating a block, exactly; a conflict names both the expected and the actual revision. */
  lemma UpdateIsExact(t: Tables, id: BlockId, expected: int, d: Document, a: Actor, now: int)
    requires Invariant(t)
    ensures var o := UpdateBlock(t, id, expected, d, a, now);
            if !InRange(expected) then o == Failed(RangeError)
            else if !InputOk(d, a) then o == Failed(ValidationError)
            else if id !in t.blocks then o == Failed(NotFound)
            else if t.blocks[id].currentRevision != expected then o == Failed(Conflict(expected, t.blocks[id].currentRevision))
            else
              && (id, expected) in t.revisions
              && match RevisionRefusal(t, id, expected, d, a, now)
                 case Some(e) => o == Failed(e)
                 case None => Revised(t, o, id, expected + 1, RevisionRow(Update, a, None, d, now))
  {
    ChecksAreExact(d, a);
    if id in t.blocks {
      CurrentIsStored(t, id);
      if InputOk(d, a) {
        ReviseIsExact(t, id, d, RevisionRow(Update, a, None, d, now));
      }
    }
  }

  /** Restoring a revision, exactly: an earlier one than the current, whose document becomes current again. */
  lemma RestoreIsExact(t: Tables, id: BlockId, expected: int, source: int, a: Actor, now: int)
    requires Invariant(t)
    ensures var o := RestoreBlock(t, id, expected, source, a, now);
            if !InRange(expected) || !InRange(source) then o == Failed(RangeError)
            else if !NameOk(a) then o == Failed(ValidationError)
            else if id !in t.blocks then o == Failed(NotFound)
            else if t.blocks[id].currentRevision != expected then o == Failed(Conflict(expected, t.blocks[id].currentRevision))
            else if source >= expected then o == Failed(ValidationError)
            else
              && (id, expected) in t.revisions && (id, source) in t.revisions
              && var d := t.revisions[(id, source)].snapshot;
                 match RevisionRefusal(t, id, expected, d, a, now)
                 case Some(e) => o == Failed(e)
                 case None => Revised(t, o, id, expected + 1, RevisionRow(Restore, a, Some(source), d, now))
  {
    if id in t.blocks {
      CurrentIsStored(t, id);
      if NameOk(a) && t.blocks[id].currentRevision == expected && 1 <= source < expected {
        assert BlockOk(t, id) && (id, source) in t.revisions && RevisionOk(t, id, source);
        var d := t.revisions[(id, source)].snapshot;
        ChecksAreExact(d, a);
        ReviseIsExact(t, id, d, RevisionRow(Restore, a, Some(source), d, now));
      } else {
        ChecksAreExact(t.revisions[(id, t.blocks[id].currentRevision)].snapshot, a);
      }
    } else {
      ChecksAreExact(Document(Procedural, AgentManaged, false, ""), a);
    }
  }

  // ---------------------------------------------------------------------------------------------
  // Whatever is in the tables
  // ---------------------------------------------------------------------------------------------

  /** A revision that agrees with its block, and is linked exactly if it is a restore. */
  predicate RowSound(b: BlockRow, r: RevisionRow)
  {
    && (r.snapshot.managedBy == AgentManaged ==> r.snapshot.layer == Procedural)
    && r.snapshot.layer == b.layer && r.snapshot.managedBy == b.managedBy
    && (r.operation == Restore <==> r.restoredFrom.Some?)
  }

  /** A stored revision reads as all that its row and its block say, or as corrupt if they disagree. */
  lemma RevisionReadsExactly(t: Tables, id: BlockId, k: int)
    ensures var g := GetRevision(t, id, k);
            if !InRange(k) || id !in t.blocks || (id, k) !in t.revisions then g == Missing
            else
              var b, r := t.blocks[id], t.revisions[(id, k)];
              g == if RowSound(b, r)
                   then Found(Record(id, k, r.snapshot, r.operation, r.actor, r.restoredFrom, b.createdAt, r.createdAt))
                   else Corrupt
  {
  }

  /** And so does the current one, with the time of the block's last update. */
  lemma CurrentReadsExactly(t: Tables, id: BlockId)
    ensures var g := Current(t, id);
            if id !in t.blocks || (id, t.blocks[id].currentRevision) !in t.revisions then g == Missing
            else
              var b := t.blocks[id];
              var k, r := b.currentRevision, t.revisions[(id, b.currentRevision)];
              g == if RowSound(b, r)
                   then Found(Record(id, k, r.snapshot, r.operation, r.actor, r.restoredFrom, b.createdAt, b.updatedAt))
                   else Corrupt
  {
  }

  /** What damaged tables answer: an update or restore of a revision that disagrees with its block is corruption,
      a revision that is missing is not found, and a revision without a block bars its creation. */
  lemma DamageIsReported(t: Tables, id: BlockId, expected: int, source: int, d: Document, a: Actor, now: int)
    requires InRange(expected) && InRange(source) && source < expected && InputOk(d, a)
    requires id in t.blocks ==> t.blocks[id].currentRevision == expected
    ensures var update, restore := UpdateBlock(t, id, expected, d, a, now), RestoreBlock(t, id, expected, source, a, now);
            if id !in t.blocks || (id, expected) !in t.revisions then
              update == restore == Failed(NotFound)
            else
              var b := t.blocks[id];
              && (update == Failed(Corruption) <==> !RowSound(b, t.revisions[(id, expected)]))
              && (restore == Failed(NotFound) <==> (id, source) !in t.revisions)
              && ((id, source) in t.revisions ==>
                    (restore == Failed(Corruption) <==>
                     !RowSound(b, t.revisions[(id, expected)]) || !RowSound(b, t.revisions[(id, source)])))
    ensures id !in t.blocks && (id, 1) in t.revisions && (OwnAuthority(a) || d.managedBy == AgentManaged) ==>
            CreateBlock(t, id, d, a, now) == Failed(ConstraintViolation)
  {
    ChecksAreExact(d, a);
  }
}
