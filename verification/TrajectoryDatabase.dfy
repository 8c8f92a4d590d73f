/** The trajectory store as the program runs it: transactions that update the three tables in place,
    each proved against the table functions of TrajectoryStore.
 */
module TrajectoryDatabase {
  import opened JsonText
  import opened TrajectoryStore
  import opened Wrappers

  predicate StepTaken(rows: seq<StepRow>, step: StepId)
  {
    exists i :: 0 <= i < |rows| && rows[i].id == step
  }

  predicate Taken(rows: seq<ArtifactRow>, id: TrajectoryId, artifact: string)
  {
    exists j :: 0 <= j < |rows| && rows[j].trajectoryId == id && rows[j].id == artifact
  }

  /** After the first `i` artifacts are in, inserting the next one fails exactly when it repeats a
      stored ID or an earlier one; then the whole list is not free. */
  lemma InsertFailsWhenTaken(
      rows: seq<ArtifactRow>, id: TrajectoryId, owner: Option<StepId>, items: seq<Artifact>, start: nat, i: nat)
    requires i < |items| && ArtifactIdsFree(rows, id, items[..i])
    ensures var grown := rows + ArtifactRows(id, owner, items, start)[..i];
            if Taken(grown, id, items[i].id) then !ArtifactIdsFree(rows, id, items)
            else ArtifactIdsFree(rows, id, items[..i + 1])
  {
    var more := ArtifactRows(id, owner, items, start);
    var grown := rows + more[..i];
    if Taken(grown, id, items[i].id) {
      var j :| 0 <= j < |grown| && grown[j].trajectoryId == id && grown[j].id == items[i].id;
      if j >= |rows| {
        assert grown[j] == more[j - |rows|];
      }
    } else {
      forall k | 0 <= k < i ensures items[k].id != items[i].id {
        assert grown[|rows| + k] == more[k];
      }
      forall k | 0 <= k < |rows| && rows[k].trajectoryId == id ensures rows[k].id != items[i].id {
        assert grown[k] == rows[k];
      }
    }
  }

  class Database {
    var trajectories: map<TrajectoryId, TrajectoryRow>
    var steps: seq<StepRow>
    var artifacts: seq<ArtifactRow>

    function State(): Tables
      reads this
    {
      Tables(trajectories, steps, artifacts)
    }

    /** A transaction commits the tables the function gives, or fails and leaves all three as they were. */
    ghost predicate Outcome(result: Result, before: Tables, error: Option<Error>)
      reads this
    {
      match result
      case Ok(after) => error == None && State() == after
      case Err(e) => error == Some(e) && State() == before
    }

    constructor ()
      ensures State() == Tables(map[], [], [])
    {
      trajectories, steps, artifacts := map[], [], [];
    }

    /** Insert the artifacts one by one; a repeated ID makes the insert fail, and the caller's
        transaction is rolled back. */
    method InsertArtifacts(id: TrajectoryId, owner: Option<StepId>, items: seq<Artifact>, start: nat) returns (ok: bool)
      modifies this`artifacts
      ensures ok == ArtifactIdsFree(old(artifacts), id, items)
      ensures ok ==> artifacts == old(artifacts) + ArtifactRows(id, owner, items, start)
    {
      ghost var rows := ArtifactRows(id, owner, items, start);
      var i := 0;
      while i < |items|
        invariant 0 <= i <= |items|
        invariant artifacts == old(artifacts) + rows[..i]
        invariant ArtifactIdsFree(old(artifacts), id, items[..i])
      {
        InsertFailsWhenTaken(old(artifacts), id, owner, items, start, i);
        if Taken(artifacts, id, items[i].id) {
          return false;
        }
        artifacts := artifacts + [ArtifactToRow(id, owner, start + i, items[i])];
        assert rows[..i + 1] == rows[..i] + [rows[i]];
        i := i + 1;
      }
      assert items[..i] == items && rows[..i] == rows;
      return true;
    }

    method CreateTrajectory(v: Trajectory) returns (error: Option<Error>)
      modifies this
      ensures Outcome(Create(old(State()), v), old(State()), error)
    {
      if !HeaderOk(v) || !ArtifactsOk(v.artifacts) {
        return Some(SchemaViolation);
      }
      if v.steps != [] {
        return Some(NotEmpty);
      }
      if v.id in trajectories {
        return Some(ConstraintViolation);
      }
      var rowsBefore, artifactsBefore := trajectories, artifacts;
      trajectories := trajectories[v.id := TrajectoryToRow(v, 0)];
      var ok := InsertArtifacts(v.id, None, v.artifacts, 0);
      if !ok {
        trajectories, artifacts := rowsBefore, artifactsBefore;
        return Some(ConstraintViolation);
      }
      return None;
    }

    /** Insert the step and its artifacts and advance the sequence, or fail and roll back. */
    method InsertStepRows(id: TrajectoryId, s: Step) returns (ok: bool)
      requires id in trajectories
      modifies this
      ensures ok == (!StepTaken(old(steps), s.id) && ArtifactIdsFree(old(artifacts), id, s.artifacts))
      ensures !ok ==> State() == old(State())
      ensures ok ==> steps == old(steps) + [StepToRow(s)]
      ensures ok ==> artifacts == old(artifacts) + ArtifactRows(id, Some(s.id), s.artifacts, 0)
      ensures ok ==> var row := old(trajectories)[id];
                     trajectories == old(trajectories)[id := row.(nextSequence := row.nextSequence + 1)]
    {
      if StepTaken(steps, s.id) {
        return false;
      }
      var stepsBefore, artifactsBefore := steps, artifacts;
      steps := steps + [StepToRow(s)];
      ok := InsertArtifacts(id, Some(s.id), s.artifacts, 0);
      if !ok {
        steps, artifacts := stepsBefore, artifactsBefore;
        return;
      }
      var row := trajectories[id];
      trajectories := trajectories[id := row.(nextSequence := row.nextSequence + 1)];
    }

    method AppendTrajectoryStep(id: TrajectoryId, s: Step) returns (error: Option<Error>)
      modifies this
      ensures Outcome(AppendStep(old(State()), id, s), old(State()), error)
    {
      if !StepFieldsOk(s.fields) || !ArtifactsOk(s.artifacts) {
        return Some(SchemaViolation);
      }
      if s.trajectoryId != id {
        return Some(WrongTrajectory);
      }
      if id !in trajectories {
        return Some(NotFound);
      }
      if Terminal(trajectories[id].status) {
        return Some(TerminalTrajectory);
      }
      if s.sequence != trajectories[id].nextSequence {
        return Some(WrongSequence);
      }
      if !ParentStored(State(), s) {
        return Some(BadParent);
      }
      var ok := InsertStepRows(id, s);
      return if ok then None else Some(ConstraintViolation);
    }

    method AppendTrajectoryArtifact(id: TrajectoryId, a: Artifact) returns (error: Option<Error>)
      modifies this
      ensures Outcome(AppendArtifact(old(State()), id, a), old(State()), error)
    {
      if !ArtifactsOk([a]) {
        return Some(SchemaViolation);
      }
      if id !in trajectories {
        return Some(NotFound);
      }
      if Terminal(trajectories[id].status) {
        return Some(TerminalTrajectory);
      }
      var before := artifacts;
      var ok := InsertArtifacts(id, None, [a], NextPosition(artifacts, id));
      if !ok {
        artifacts := before;
        return Some(ConstraintViolation);
      }
      return None;
    }

    method UpdateTrajectoryMetadata(id: TrajectoryId, u: Update) returns (error: Option<Error>)
      modifies this
      ensures Outcome(UpdateMetadata(old(State()), id, u), old(State()), error)
    {
      var keys := u.fields.Keys;
      while keys != {}
        invariant keys <= u.fields.Keys
        invariant (u.fields.Keys - keys) !! IMMUTABLE_FIELDS
        decreases keys
      {
        var k :| k in keys;
        if k in IMMUTABLE_FIELDS {
          return Some(ImmutableField);
        }
        keys := keys - {k};
      }
      assert u.fields.Keys - keys == u.fields.Keys;
      if id !in trajectories {
        return Some(NotFound);
      }
      if Terminal(trajectories[id].status) {
        return Some(TerminalTrajectory);
      }
      var candidate := Updated(Assemble(State(), id), u);
      if !UpdateOk(u) || !HeaderOk(candidate) {
        return Some(SchemaViolation);
      }
      trajectories := trajectories[id := TrajectoryToRow(candidate, trajectories[id].nextSequence)];
      return None;
    }

    method PruneTerminalTrajectories(cutoff: int) returns (counts: Pruned)
      modifies this
      ensures (counts, State()) == Prune(old(State()), cutoff)
    {
      var gone := PrunedIds(State(), cutoff);
      if gone == {} {
        NothingToPrune(steps, artifacts);
        assert trajectories - gone == trajectories;
        return Pruned(0, 0, 0);
      }
      counts := Pruned(|gone|, CountSteps(steps, gone), CountArtifacts(artifacts, gone));
      trajectories := trajectories - gone;
      steps, artifacts := KeptSteps(steps, gone), KeptArtifacts(artifacts, gone);
    }
  }

  lemma {:induction false} NothingToPrune(steps: seq<StepRow>, artifacts: seq<ArtifactRow>)
    ensures KeptSteps(steps, {}) == steps && CountSteps(steps, {}) == 0
    ensures KeptArtifacts(artifacts, {}) == artifacts && CountArtifacts(artifacts, {}) == 0
  {
    KeepAllSteps(steps);
    KeepAllArtifacts(artifacts);
  }

  lemma KeepAllSteps(rows: seq<StepRow>)
    ensures KeptSteps(rows, {}) == rows && CountSteps(rows, {}) == 0
  {
    if rows != [] {
      KeepAllSteps(rows[..|rows| - 1]);
    }
  }

  lemma KeepAllArtifacts(rows: seq<ArtifactRow>)
    ensures KeptArtifacts(rows, {}) == rows && CountArtifacts(rows, {}) == 0
  {
    if rows != [] {
      KeepAllArtifacts(rows[..|rows| - 1]);
    }
  }
}
