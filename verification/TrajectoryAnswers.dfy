/** What the trajectory schema and the update rules ask, field by field and status by status. Both the tables and
    the map of whole trajectories that they refine rest on these rules.
 */
module TrajectoryAnswers {
  import opened JsonText
  import opened TrajectoryStore
  import opened TrajectoryLaws
  import opened Wrappers

  predicate Open(s: Status)
  {
    s == Pending || s == Running || s == Waiting
  }

  lemma TerminalMeansClosed(s: Status)
    ensures Terminal(s) <==> !Open(s)
  {
  }

  predicate NeverNull(f: Fields, key: string)
  {
    key in f ==> f[key] != Null
  }

  predicate TextIs(f: Fields, key: string, text: string)
  {
    key in f && f[key] == Str(Units(text))
  }

  ghost predicate TextStarts(f: Fields, key: string, text: string)
  {
    key in f && exists rest: Text :: f[key] == Str(Units(text) + rest)
  }

  lemma PrefixIsStart(f: Fields, prefix: string)
    ensures KindStarts(f, prefix) <==> TextStarts(f, "kind", prefix)
  {
    if KindStarts(f, prefix) {
      var s := f["kind"].s;
      assert s == Units(prefix) + s[|prefix|..];
    }
  }

  /** An end and a start that are both readable stand in this order. */
  predicate InOrder(end: Option<int>, start: Option<int>)
  {
    match (end, start)
    case (Some(e), Some(s)) => s <= e
    case _ => true
  }

  /** What a step must carry for its status and its kind. */
  lemma StepSchemaIsExact(f: Fields)
    ensures StepFieldsOk(f) <==>
            && NeverNull(f, "customType") && NeverNull(f, "name") && NeverNull(f, "completedAt") && NeverNull(f, "durationMs")
            && (TextIs(f, "status", "completed") ==> "completedAt" in f)
            && (TextIs(f, "status", "failed") ==> "completedAt" in f && "error" in f)
            && (TextIs(f, "status", "skipped") ==> "completedAt" in f)
            && (TextIs(f, "status", "aborted") ==> "completedAt" in f)
            && (TextStarts(f, "kind", "tool.") ==> "toolCall" in f)
            && (TextStarts(f, "kind", "approval.") ==> "approval" in f)
            && (TextStarts(f, "kind", "model.") ==> "modelUsage" in f)
            && (TextIs(f, "kind", "custom") ==> "customType" in f)
            && InOrder(MillisOf(f, "completedAt"), MillisOf(f, "startedAt"))
  {
    PrefixIsStart(f, "tool.");
    PrefixIsStart(f, "approval.");
    PrefixIsStart(f, "model.");
  }

  /** What a trajectory must carry for its status. */
  lemma HeaderSchemaIsExact(v: Trajectory)
    ensures HeaderOk(v) <==>
            && NeverNull(v.fields, "title") && NeverNull(v.fields, "summary") && NeverNull(v.fields, "durationMs")
            && (v.completedAt == None ==> Open(v.status))
            && (v.status == Failed ==> "error" in v.fields)
            && InOrder(v.completedAt, MillisOf(v.fields, "startedAt"))
  {
    TerminalMeansClosed(v.status);
  }

  lemma ArtifactSchemaIsExact(a: Artifact)
    ensures ArtifactsOk([a]) <==>
            && NeverNull(a.fields, "name") && NeverNull(a.fields, "mediaType") && NeverNull(a.fields, "locator")
            && NeverNull(a.fields, "sizeBytes") && NeverNull(a.fields, "sha256")
  {
    assert ArtifactsOk([a]) <==> FieldsOk([a][0].fields, ARTIFACT_SCALARS);
  }

  lemma ArtifactsAreCheckedOneByOne(artifacts: seq<Artifact>)
    ensures ArtifactsOk(artifacts) <==> forall a :: a in artifacts ==> ArtifactsOk([a])
  {
    forall a | a in artifacts ensures ArtifactsOk([a]) <==> FieldsOk(a.fields, ARTIFACT_SCALARS) {
      assert ArtifactsOk([a]) <==> FieldsOk([a][0].fields, ARTIFACT_SCALARS);
    }
    if forall a :: a in artifacts ==> ArtifactsOk([a]) {
      forall i | 0 <= i < |artifacts| ensures FieldsOk(artifacts[i].fields, ARTIFACT_SCALARS) {
        assert artifacts[i] in artifacts;
      }
    }
  }

  /** Which updates are refused, and for what: an immutable field before anything is read, then a missing or a
      closed trajectory, then the schema. */
  lemma UpdateRefusesExactly(t: Tables, id: TrajectoryId, u: Update)
    requires Invariant(t)
    ensures var r := UpdateMetadata(t, id, u);
            if exists k :: k in u.fields && MayNotChange(k) then r == Err(ImmutableField)
            else if id !in t.trajectories then r == Err(NotFound)
            else if !Open(t.trajectories[id].status) then r == Err(TerminalTrajectory)
            else if u.status == Unset || (exists k :: k in u.fields && u.fields[k] == None && !MayBeUnset(k)) ||
                    !HeaderOk(Updated(View(t, id), u))
            then r == Err(SchemaViolation)
            else r.Ok?
  {
    if id in t.trajectories {
      AssembleIsView(t, id);
      TerminalMeansClosed(t.trajectories[id].status);
    }
    UpdateNamesAreExact(u);
  }

  predicate MayNotChange(k: string)
  {
    || k == "schemaVersion" || k == "id" || k == "origin" || k == "actor" || k == "startedAt" || k == "steps"
    || k == "artifacts"
  }

  predicate MayBeUnset(k: string)
  {
    || k == "title" || k == "summary" || k == "durationMs" || k == "input" || k == "output" || k == "error"
    || k == "modelUsage" || k == "labels" || k == "attributes"
  }

  lemma UpdateNamesAreExact(u: Update)
    ensures u.fields.Keys !! IMMUTABLE_FIELDS <==> forall k :: k in u.fields ==> !MayNotChange(k)
    ensures UpdateOk(u) <==> u.status != Unset && forall k :: k in u.fields && u.fields[k] == None ==> MayBeUnset(k)
  {
    if k :| k in u.fields && MayNotChange(k) {
      assert k in u.fields.Keys && k in IMMUTABLE_FIELDS;
    }
  }

  /** What an update leaves: status and completion time are kept, set, or the latter taken away; of the fields
      `UpdateIsFieldwise` speaks; steps and artifacts stay. */
  lemma UpdateKeepsTheRest(v: Trajectory, u: Update)
    ensures var w := Updated(v, u);
            && w.id == v.id && w.steps == v.steps && w.artifacts == v.artifacts
            && (u.status.Set? ==> w.status == u.status.value) && (!u.status.Set? ==> w.status == v.status)
            && (u.completedAt == Keep ==> w.completedAt == v.completedAt)
            && (u.completedAt == Unset ==> w.completedAt == None)
            && (u.completedAt.Set? ==> w.completedAt == Some(u.completedAt.value))
  {
  }

  /** Field by field, by name: fields with a default are reset to it, optional ones go. */
  lemma UnsetIsExact(v: Trajectory, u: Update, k: string)
    requires k in u.fields && u.fields[k] == None && MayBeUnset(k)
    ensures var g := Updated(v, u).fields;
            if k == "attributes" then k in g && g[k] == Obj([])
            else if k == "modelUsage" || k == "labels" then k in g && g[k] == Arr([])
            else k !in g
  {
  }

  /** Which appends are refused, and for what, in order. */
  lemma AppendStepRefusesExactly(t: Tables, id: TrajectoryId, s: Step)
    ensures var r := AppendStep(t, id, s);
            if !StepFieldsOk(s.fields) || !ArtifactsOk(s.artifacts) then r == Err(SchemaViolation)
            else if s.trajectoryId != id then r == Err(WrongTrajectory)
            else if id !in t.trajectories then r == Err(NotFound)
            else if !Open(t.trajectories[id].status) then r == Err(TerminalTrajectory)
            else if s.sequence != t.trajectories[id].nextSequence then r == Err(WrongSequence)
            else if NamesParent(s) && !EarlierStepStored(t, s) then r == Err(BadParent)
            else if StepIdStored(t, s.id) || !ArtifactIdsFree(t.artifacts, id, s.artifacts) then r == Err(ConstraintViolation)
            else r.Ok?
  {
    if id in t.trajectories {
      TerminalMeansClosed(t.trajectories[id].status);
    }
  }

  predicate NamesParent(s: Step)
  {
    s.parent != None && s.parent.value != None
  }

  ghost predicate EarlierStepStored(t: Tables, s: Step)
    requires NamesParent(s)
  {
    exists i :: 0 <= i < |t.steps| && t.steps[i].id == s.parent.value.value && t.steps[i].trajectoryId == s.trajectoryId &&
      t.steps[i].sequence < s.sequence
  }

  ghost predicate StepIdStored(t: Tables, id: StepId)
  {
    exists i :: 0 <= i < |t.steps| && t.steps[i].id == id
  }

  /** A pruning takes the closed trajectories that were completed before the cutoff. */
  lemma PrunesTheOldAndClosed(t: Tables, id: TrajectoryId, cutoff: int)
    ensures PrunableId(t, id, cutoff) <==>
            && id in t.trajectories && !Open(t.trajectories[id].status)
            && t.trajectories[id].completedAt != None && t.trajectories[id].completedAt.value < cutoff
  {
    if id in t.trajectories {
      TerminalMeansClosed(t.trajectories[id].status);
    }
  }
}
