/** Stable memory blocks: each block is a chain of immutable revisions, moved forward one revision at
    a time by compare-and-swap on the current revision.
 */
module MemoryBlockStore {
  import opened Wrappers

  type BlockId = string

  datatype Layer = Identity | Human | Procedural
  datatype Manager = UserManaged | AgentManaged

  /** `body` holds every other property of the document. */
  datatype Document = Document(layer: Layer, managedBy: Manager, readOnly: bool, body: string)

  datatype ActorType = User | Session | ApiKey | Agent | Channel | Schedule | Daemon | Webhook | System | Test
  datatype Actor = Actor(actorType: ActorType, actorId: Option<string>)

  datatype Operation = Create | Update | Restore

  datatype BlockRow = BlockRow(layer: Layer, managedBy: Manager, currentRevision: int, createdAt: int, updatedAt: int)

  datatype RevisionRow = RevisionRow(
    operation: Operation, actor: Actor, restoredFrom: Option<int>, snapshot: Document, createdAt: int)

  /** Revisions are keyed by block and number, their primary key. */
  datatype Tables = Tables(blocks: map<BlockId, BlockRow>, revisions: map<(BlockId, int), RevisionRow>)

  datatype Record = Record(
    id: BlockId, revision: int, document: Document, operation: Operation, actor: Actor,
    restoredFrom: Option<int>, createdAt: int, updatedAt: int)

  datatype Error = RangeError | ValidationError | NotFound | Conflict(expected: int, actual: int) | ImmutableIdentity
                 | Forbidden | ReadOnly | Corruption | ConstraintViolation

  datatype Outcome = Committed(tables: Tables, record: Record) | Failed(error: Error)
  datatype Reading = Missing | Corrupt | Found(record: Record)

  const MAX_REVISION := 2147483647

  predicate PositiveInt32(n: int)
  {
    1 <= n <= MAX_REVISION
  }

  predicate IsAgent(a: Actor)
  {
    match a.actorType
    case ApiKey | Agent | Channel | Schedule | Daemon | Webhook => true
    case _ => false
  }

  /** Only procedural documents may be agent-managed. */
  predicate ValidDocument(d: Document)
  {
    d.layer == Procedural || d.managedBy == UserManaged
  }

  predicate ValidActor(a: Actor)
  {
    a.actorId.Some? ==> 1 <= |a.actorId.value| <= 256
  }

  // ---------------------------------------------------------------------------------------------
  // Reading
  // ---------------------------------------------------------------------------------------------

  function RecordFromRow(id: BlockId, revision: int, b: BlockRow, r: RevisionRow, updatedAt: int): Reading
  {
    if !ValidDocument(r.snapshot) || b.layer != r.snapshot.layer || b.managedBy != r.snapshot.managedBy ||
       (r.operation == Restore) != r.restoredFrom.Some? then Corrupt
    else Found(Record(id, revision, r.snapshot, r.operation, r.actor, r.restoredFrom, b.createdAt, updatedAt))
  }

  /** The join of a block with its current revision. */
  predicate HasCurrent(t: Tables, id: BlockId)
  {
    id in t.blocks && (id, t.blocks[id].currentRevision) in t.revisions
  }

  function Current(t: Tables, id: BlockId): Reading
  {
    if !HasCurrent(t, id) then Missing
    else
      var b := t.blocks[id];
      RecordFromRow(id, b.currentRevision, b, t.revisions[(id, b.currentRevision)], b.updatedAt)
  }

  function GetRevision(t: Tables, id: BlockId, revision: int): Reading
  {
    if !PositiveInt32(revision) || id !in t.blocks || (id, revision) !in t.revisions then Missing
    else
      var r := t.revisions[(id, revision)];
      RecordFromRow(id, revision, t.blocks[id], r, r.createdAt)
  }

  // ---------------------------------------------------------------------------------------------
  // Constraints and triggers of the tables
  // ---------------------------------------------------------------------------------------------

  predicate WellShaped(revision: int, r: RevisionRow)
  {
    match r.operation
    case Create => revision == 1 && r.restoredFrom == None
    case Update => revision > 1 && r.restoredFrom == None
    case Restore => revision > 1 && r.restoredFrom.Some? && PositiveInt32(r.restoredFrom.value) &&
                    r.restoredFrom.value < revision - 1
  }

  /** What an agent may write on top of the block's current revision. */
  predicate AgentMayWrite(t: Tables, id: BlockId, revision: int, r: RevisionRow)
  {
    IsAgent(r.actor) ==>
      && r.snapshot.managedBy == AgentManaged
      && (revision > 1 && HasCurrent(t, id) ==> !t.revisions[(id, t.blocks[id].currentRevision)].snapshot.readOnly)
  }

  predicate RestoreMatches(t: Tables, id: BlockId, r: RevisionRow)
  {
    r.operation == Restore ==>
      && r.restoredFrom.Some? && (id, r.restoredFrom.value) in t.revisions
      && t.revisions[(id, r.restoredFrom.value)].snapshot == r.snapshot
  }

  predicate Insertable(t: Tables, id: BlockId, revision: int, r: RevisionRow)
  {
    && id in t.blocks && (id, revision) !in t.revisions
    && PositiveInt32(revision) && WellShaped(revision, r) && ValidDocument(r.snapshot) && ValidActor(r.actor)
    && t.blocks[id].layer == r.snapshot.layer && t.blocks[id].managedBy == r.snapshot.managedBy
    && (if revision == 1 then t.blocks[id].currentRevision == 1 else revision == t.blocks[id].currentRevision + 1)
    && AgentMayWrite(t, id, revision, r)
    && RestoreMatches(t, id, r)
  }

  // ---------------------------------------------------------------------------------------------
  // Writing
  // ---------------------------------------------------------------------------------------------

  /** Insert a block with its first revision; `id` is freshly drawn and `now` is the wall clock. */
  function CreateBlock(t: Tables, id: BlockId, document: Document, actor: Actor, now: int): Outcome
  {
    if !ValidDocument(document) || !ValidActor(actor) then Failed(ValidationError)
    else if IsAgent(actor) && document.managedBy != AgentManaged then Failed(Forbidden)
    else if id in t.blocks then Failed(ConstraintViolation)
    else
      var withBlock := t.(blocks := t.blocks[id := BlockRow(document.layer, document.managedBy, 1, now, now)]);
      var row := RevisionRow(Create, actor, None, document, now);
      if !Insertable(withBlock, id, 1, row) then Failed(ConstraintViolation)
      else Committed(withBlock.(revisions := t.revisions[(id, 1) := row]),
                     Record(id, 1, document, Create, actor, None, now, now))
  }

  /** Insert revision expected + 1 and move the block to it; the update trigger refuses a clock that
      has moved backwards. */
  function MoveTo(t: Tables, id: BlockId, expected: int, r: RevisionRow): Outcome
    requires id in t.blocks
  {
    var b := t.blocks[id];
    var revision := expected + 1;
    if !PositiveInt32(revision) then Failed(RangeError)
    else if !Insertable(t, id, revision, r) || r.createdAt < b.updatedAt then Failed(ConstraintViolation)
    else Committed(
      Tables(t.blocks[id := b.(currentRevision := revision, updatedAt := r.createdAt)], t.revisions[(id, revision) := r]),
      Record(id, revision, r.snapshot, r.operation, r.actor, r.restoredFrom, b.createdAt, r.createdAt))
  }

  function Authorize(current: Document, actor: Actor): Option<Error>
  {
    if !IsAgent(actor) then None
    else if current.managedBy != AgentManaged then Some(Forbidden)
    else if current.readOnly then Some(ReadOnly)
    else None
  }

  /** Checks shared by update and restore once the next document is known. */
  function Revise(t: Tables, id: BlockId, expected: int, current: Document, r: RevisionRow): Outcome
    requires id in t.blocks
  {
    if current.layer != r.snapshot.layer || current.managedBy != r.snapshot.managedBy then Failed(ImmutableIdentity)
    else
      var refused := Authorize(current, r.actor);
      if refused.Some? then Failed(refused.value) else MoveTo(t, id, expected, r)
  }

  function UpdateBlock(t: Tables, id: BlockId, expected: int, document: Document, actor: Actor, now: int): Outcome
  {
    if !PositiveInt32(expected) then Failed(RangeError)
    else if !ValidDocument(document) || !ValidActor(actor) then Failed(ValidationError)
    else if !HasCurrent(t, id) then Failed(NotFound)
    else if t.blocks[id].currentRevision != expected then Failed(Conflict(expected, t.blocks[id].currentRevision))
    else
      var current := Current(t, id);
      if !current.Found? then Failed(Corruption)
      else Revise(t, id, expected, current.record.document, RevisionRow(Update, actor, None, document, now))
  }

  function RestoreBlock(t: Tables, id: BlockId, expected: int, source: int, actor: Actor, now: int): Outcome
  {
    if !PositiveInt32(expected) || !PositiveInt32(source) then Failed(RangeError)
    else if !ValidActor(actor) then Failed(ValidationError)
    else if !HasCurrent(t, id) then Failed(NotFound)
    else if t.blocks[id].currentRevision != expected then Failed(Conflict(expected, t.blocks[id].currentRevision))
    else if source >= expected then Failed(ValidationError)
    else if (id, source) !in t.revisions then Failed(NotFound)
    else
      var current, target := Current(t, id), GetRevision(t, id, source);
      if !current.Found? || !target.Found? then Failed(Corruption)
      else Revise(t, id, expected, current.record.document,
                  RevisionRow(Restore, actor, Some(source), target.record.document, now))
  }

  /** The store as the program runs it: each call is one transaction over the two tables. */
  class MemoryBlockDatabase {
    var blocks: map<BlockId, BlockRow>
    var revisions: map<(BlockId, int), RevisionRow>

    function State(): Tables
      reads this
    {
      Tables(blocks, revisions)
    }

    ghost predicate Reports(outcome: Outcome, before: Tables, error: Option<Error>, record: Option<Record>)
      reads this
    {
      match outcome
      case Committed(after, r) => error == None && record == Some(r) && State() == after
      case Failed(e) => error == Some(e) && record == None && State() == before
    }

    constructor ()
      ensures State() == Tables(map[], map[])
    {
      blocks, revisions := map[], map[];
    }

    method CreateMemoryBlock(id: BlockId, document: Document, actor: Actor, now: int)
      returns (error: Option<Error>, record: Option<Record>)
      modifies this
      ensures Reports(CreateBlock(old(State()), id, document, actor, now), old(State()), error, record)
    {
      if !ValidDocument(document) || !ValidActor(actor) {
        return Some(ValidationError), None;
      }
      if IsAgent(actor) && document.managedBy != AgentManaged {
        return Some(Forbidden), None;
      }
      if id in blocks {
        return Some(ConstraintViolation), None;
      }
      var blocksBefore := blocks;
      blocks := blocks[id := BlockRow(document.layer, document.managedBy, 1, now, now)];
      var ok := InsertRevision(id, 1, RevisionRow(Create, actor, None, document, now));
      if !ok {
        blocks := blocksBefore;
        return Some(ConstraintViolation), None;
      }
      return None, Some(Record(id, 1, document, Create, actor, None, now, now));
    }

    /** The keys and CHECK constraints of a revision row by itself. */
    static method CheckRow(revision: int, row: RevisionRow) returns (ok: bool)
      ensures ok <==> PositiveInt32(revision) && WellShaped(revision, row) && ValidDocument(row.snapshot) && ValidActor(row.actor)
    {
      if revision < 1 || revision > MAX_REVISION {
        return false;
      }
      if row.actor.actorId.Some? && (|row.actor.actorId.value| < 1 || |row.actor.actorId.value| > 256) {
        return false;
      }
      if row.restoredFrom.Some? && !PositiveInt32(row.restoredFrom.value) {
        return false;
      }
      if row.snapshot.layer != Procedural && row.snapshot.managedBy != UserManaged {
        return false;
      }
      var created := row.operation == Create && revision == 1 && row.restoredFrom.None?;
      var updated := row.operation == Update && revision > 1 && row.restoredFrom.None?;
      var restored := row.operation == Restore && revision > 1 && row.restoredFrom.Some? && row.restoredFrom.value < revision - 1;
      return created || updated || restored;
    }

    /** Keys, constraints and then the insert trigger, clause by clause. */
    method InsertRevision(id: BlockId, revision: int, row: RevisionRow) returns (ok: bool)
      modifies this`revisions
      ensures ok == old(Insertable(State(), id, revision, row))
      ensures revisions == if ok then old(revisions)[(id, revision) := row] else old(revisions)
    {
      var rowOk := CheckRow(revision, row);
      if (id, revision) in revisions || id !in blocks || !rowOk {
        return false;
      }
      var b := blocks[id];
      if b.layer != row.snapshot.layer || b.managedBy != row.snapshot.managedBy {
        return false;
      }
      if (revision == 1 && b.currentRevision != 1) || (revision > 1 && revision != b.currentRevision + 1) {
        return false;
      }
      if IsAgent(row.actor) && row.snapshot.managedBy != AgentManaged {
        return false;
      }
      if IsAgent(row.actor) && revision > 1 && (id, b.currentRevision) in revisions &&
         revisions[(id, b.currentRevision)].snapshot.readOnly {
        return false;
      }
      if row.operation == Restore &&
         ((id, row.restoredFrom.value) !in revisions || revisions[(id, row.restoredFrom.value)].snapshot != row.snapshot) {
        return false;
      }
      revisions := revisions[(id, revision) := row];
      return true;
    }

    method UpdateMemoryBlock(id: BlockId, expected: int, document: Document, actor: Actor, now: int)
      returns (error: Option<Error>, record: Option<Record>)
      modifies this
      ensures Reports(UpdateBlock(old(State()), id, expected, document, actor, now), old(State()), error, record)
    {
      if !PositiveInt32(expected) {
        return Some(RangeError), None;
      }
      if !ValidDocument(document) || !ValidActor(actor) {
        return Some(ValidationError), None;
      }
      if !HasCurrent(State(), id) {
        return Some(NotFound), None;
      }
      if blocks[id].currentRevision != expected {
        return Some(Conflict(expected, blocks[id].currentRevision)), None;
      }
      var current := Current(State(), id);
      if !current.Found? {
        return Some(Corruption), None;
      }
      error, record := Commit(id, expected, current.record.document, RevisionRow(Update, actor, None, document, now));
    }

    method RestoreMemoryBlock(id: BlockId, expected: int, source: int, actor: Actor, now: int)
      returns (error: Option<Error>, record: Option<Record>)
      modifies this
      ensures Reports(RestoreBlock(old(State()), id, expected, source, actor, now), old(State()), error, record)
    {
      if !PositiveInt32(expected) || !PositiveInt32(source) {
        return Some(RangeError), None;
      }
      if !ValidActor(actor) {
        return Some(ValidationError), None;
      }
      if !HasCurrent(State(), id) {
        return Some(NotFound), None;
      }
      if blocks[id].currentRevision != expected {
        return Some(Conflict(expected, blocks[id].currentRevision)), None;
      }
      if source >= expected {
        return Some(ValidationError), None;
      }
      if (id, source) !in revisions {
        return Some(NotFound), None;
      }
      var current := Current(State(), id);
      var target := GetRevision(State(), id, source);
      if !current.Found? || !target.Found? {
        return Some(Corruption), None;
      }
      error, record := Commit(id, expected, current.record.document,
                              RevisionRow(Restore, actor, Some(source), target.record.document, now));
    }

    /** The identity and authority checks, then the insert and the compare-and-swap. */
    method Commit(id: BlockId, expected: int, current: Document, row: RevisionRow)
      returns (error: Option<Error>, record: Option<Record>)
      requires id in blocks
      modifies this
      ensures Reports(Revise(old(State()), id, expected, current, row), old(State()), error, record)
    {
      if current.layer != row.snapshot.layer || current.managedBy != row.snapshot.managedBy {
        return Some(ImmutableIdentity), None;
      }
      var refused := Authorize(current, row.actor);
      if refused.Some? {
        return refused, None;
      }
      var revision := expected + 1;
      if !PositiveInt32(revision) {
        return Some(RangeError), None;
      }
      var b, revisionsBefore := blocks[id], revisions;
      var ok := InsertRevision(id, revision, row);
      if !ok || row.createdAt < b.updatedAt {
        revisions := revisionsBefore;
        return Some(ConstraintViolation), None;
      }
      blocks := blocks[id := b.(currentRevision := revision, updatedAt := row.createdAt)];
      return None, Some(Record(id, revision, row.snapshot, row.operation, row.actor, row.restoredFrom, b.createdAt, row.createdAt));
    }
  }
}
