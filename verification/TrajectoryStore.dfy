/** Normalized, append-only storage of trajectories: one row per trajectory, per step and per
    artifact. Reading the rows back gives the logical trajectory.
 */
module TrajectoryStore {
  import opened JsonText
  import Time = TrajectoryTime
  import opened Wrappers

  type TrajectoryId = string
  type StepId = string
  type Fields = map<string, Json>

  datatype Status = Pending | Running | Waiting | Completed | Failed | Aborted | RoundLimited

  predicate Terminal(s: Status)
  {
    s == Completed || s == Failed || s == Aborted || s == RoundLimited
  }

  // ---------------------------------------------------------------------------------------------
  // Logical values
  // ---------------------------------------------------------------------------------------------

  /** `fields` holds every property that has no member of its own here, known or extension. */
  datatype Artifact = Artifact(id: string, fields: Fields)

  /** `parent` is absent (`None`), null (`Some(None)`) or a step ID. */
  datatype Step = Step(
    id: StepId, trajectoryId: TrajectoryId, sequence: nat, parent: Option<Option<StepId>>,
    fields: Fields, artifacts: seq<Artifact>)

  datatype Trajectory = Trajectory(
    id: TrajectoryId, status: Status, completedAt: Option<int>, fields: Fields,
    steps: seq<Step>, artifacts: seq<Artifact>)

  /** Columns that store a missing or null property as NULL, and columns that store JSON. */
  const TRAJECTORY_SCALARS := {"title", "summary", "durationMs"}
  const TRAJECTORY_JSON := {"schemaVersion", "origin", "actor", "startedAt", "input", "output", "modelUsage",
                            "error", "labels", "attributes"}
  const STEP_SCALARS := {"customType", "name", "completedAt", "durationMs"}
  const STEP_JSON := {"kind", "status", "startedAt", "actor", "input", "output", "modelUsage", "toolCall",
                      "approval", "error", "attributes"}
  const ARTIFACT_SCALARS := {"name", "mediaType", "locator", "sizeBytes", "sha256"}
  const ARTIFACT_JSON := {"kind"}

  // ---------------------------------------------------------------------------------------------
  // Rows
  // ---------------------------------------------------------------------------------------------

  type Columns = map<string, Option<Json>>

  datatype TrajectoryRow = TrajectoryRow(
    status: Status, completedAt: Option<int>, columns: Columns, extensions: Fields, nextSequence: nat)

  datatype StepRow = StepRow(
    id: StepId, trajectoryId: TrajectoryId, sequence: nat, parent: Option<StepId>, columns: Columns, extensions: Fields)

  /** `owner` is the step that carries the artifact, `None` for the trajectory itself. */
  datatype ArtifactRow = ArtifactRow(
    trajectoryId: TrajectoryId, owner: Option<StepId>, position: nat, id: string, columns: Columns, extensions: Fields)

  /** Step and artifact tables list their rows in insertion order. */
  datatype Tables = Tables(trajectories: map<TrajectoryId, TrajectoryRow>, steps: seq<StepRow>, artifacts: seq<ArtifactRow>)

  function ToColumns(f: Fields, scalars: set<string>, json: set<string>): Columns
  {
    map k | k in scalars + json ::
      if k in f && !(k in scalars && f[k] == Null) then Some(f[k]) else None
  }

  /** The additive fields: everything that has no column. */
  function ExtensionsOf(f: Fields, known: set<string>): Fields
  {
    map k | k in f && k !in known :: f[k]
  }

  function FromColumns(columns: Columns, extensions: Fields): Fields
  {
    extensions + map k | k in columns && columns[k].Some? :: columns[k].value
  }

  function ArtifactToRow(tid: TrajectoryId, owner: Option<StepId>, position: nat, a: Artifact): ArtifactRow
  {
    ArtifactRow(tid, owner, position, a.id, ToColumns(a.fields, ARTIFACT_SCALARS, ARTIFACT_JSON),
                ExtensionsOf(a.fields, ARTIFACT_SCALARS + ARTIFACT_JSON))
  }

  function ArtifactFromRow(r: ArtifactRow): Artifact
  {
    Artifact(r.id, FromColumns(r.columns, r.extensions))
  }

  function StepToRow(s: Step): StepRow
  {
    StepRow(s.id, s.trajectoryId, s.sequence, if s.parent.Some? then s.parent.value else None,
            ToColumns(s.fields, STEP_SCALARS, STEP_JSON), ExtensionsOf(s.fields, STEP_SCALARS + STEP_JSON))
  }

  function StepFromRow(r: StepRow, artifacts: seq<Artifact>): Step
  {
    Step(r.id, r.trajectoryId, r.sequence, if r.parent.Some? then Some(r.parent) else None,
         FromColumns(r.columns, r.extensions), artifacts)
  }

  function TrajectoryToRow(t: Trajectory, nextSequence: nat): TrajectoryRow
  {
    TrajectoryRow(t.status, t.completedAt, ToColumns(t.fields, TRAJECTORY_SCALARS, TRAJECTORY_JSON),
                  ExtensionsOf(t.fields, TRAJECTORY_SCALARS + TRAJECTORY_JSON), nextSequence)
  }

  /** What the schemas guarantee of parsed fields: optional scalars are never null. */
  predicate FieldsOk(f: Fields, scalars: set<string>)
  {
    forall k :: k in f && k in scalars ==> f[k] != Null
  }

  /** The code units of a plain text. */
  function Units(s: string): Text
  {
    seq(|s|, i requires 0 <= i < |s| => if s[i] as int < 0x10000 then s[i] as int else 0xFFFD)
  }

  predicate Reads(f: Fields, key: string, text: string)
  {
    key in f && f[key] == Str(Units(text))
  }

  predicate KindStarts(f: Fields, prefix: string)
  {
    "kind" in f && f["kind"].Str? && Units(prefix) <= f["kind"].s
  }

  function MillisOf(f: Fields, key: string): Option<int>
  {
    if key in f && f[key].Str? && Time.ParseStamp(f[key].s).Some?
    then Some(Time.Millis(Time.ParseStamp(f[key].s).value)) else None
  }

  predicate NotBefore(end: Option<int>, start: Option<int>)
  {
    end.Some? && start.Some? ==> end.value >= start.value
  }

  predicate StepEnded(f: Fields)
  {
    Reads(f, "status", "completed") || Reads(f, "status", "failed") || Reads(f, "status", "skipped") || Reads(f, "status", "aborted")
  }

  /** The step schema: what a step's status and kind ask for, and times in order. */
  predicate StepFieldsOk(f: Fields)
  {
    && FieldsOk(f, STEP_SCALARS)
    && (StepEnded(f) ==> "completedAt" in f)
    && (Reads(f, "status", "failed") ==> "error" in f)
    && (KindStarts(f, "tool.") ==> "toolCall" in f)
    && (KindStarts(f, "approval.") ==> "approval" in f)
    && (KindStarts(f, "model.") ==> "modelUsage" in f)
    && (Reads(f, "kind", "custom") ==> "customType" in f)
    && NotBefore(MillisOf(f, "completedAt"), MillisOf(f, "startedAt"))
  }

  /** The schema of a trajectory by itself. */
  predicate HeaderFieldsOk(status: Status, completedAt: Option<int>, f: Fields)
  {
    && FieldsOk(f, TRAJECTORY_SCALARS)
    && (Terminal(status) ==> completedAt.Some?)
    && (status == Failed ==> "error" in f)
    && NotBefore(completedAt, MillisOf(f, "startedAt"))
  }

  /** Columns and extensions lose nothing. */
  lemma FieldsRoundTrip(f: Fields, scalars: set<string>, json: set<string>)
    requires FieldsOk(f, scalars)
    ensures FromColumns(ToColumns(f, scalars, json), ExtensionsOf(f, scalars + json)) == f
  {
    var r := FromColumns(ToColumns(f, scalars, json), ExtensionsOf(f, scalars + json));
    forall k
      ensures k in r <==> k in f
      ensures k in f ==> r[k] == f[k]
    {
    }
    assert r.Keys == f.Keys;
  }

  // ---------------------------------------------------------------------------------------------
  // Reading
  // ---------------------------------------------------------------------------------------------

  function StepsOf(rows: seq<StepRow>, id: TrajectoryId): seq<StepRow>
  {
    if rows == [] then []
    else
      var n := |rows| - 1;
      StepsOf(rows[..n], id) + if rows[n].trajectoryId == id then [rows[n]] else []
  }

  predicate OwnedBy(r: ArtifactRow, id: TrajectoryId, owner: Option<StepId>)
  {
    r.trajectoryId == id && r.owner == owner
  }

  function ArtifactsOf(rows: seq<ArtifactRow>, id: TrajectoryId, owner: Option<StepId>): seq<ArtifactRow>
  {
    if rows == [] then []
    else
      var n := |rows| - 1;
      ArtifactsOf(rows[..n], id, owner) + if OwnedBy(rows[n], id, owner) then [rows[n]] else []
  }

  /** ORDER BY sequence and ORDER BY position. */
  function InsertStep(r: StepRow, s: seq<StepRow>): seq<StepRow>
  {
    if s == [] || r.sequence <= s[0].sequence then [r] + s else [s[0]] + InsertStep(r, s[1..])
  }

  function SortSteps(s: seq<StepRow>): seq<StepRow>
  {
    if s == [] then [] else InsertStep(s[0], SortSteps(s[1..]))
  }

  function InsertArtifact(r: ArtifactRow, s: seq<ArtifactRow>): seq<ArtifactRow>
  {
    if s == [] || r.position <= s[0].position then [r] + s else [s[0]] + InsertArtifact(r, s[1..])
  }

  function SortArtifacts(s: seq<ArtifactRow>): seq<ArtifactRow>
  {
    if s == [] then [] else InsertArtifact(s[0], SortArtifacts(s[1..]))
  }

  function ReadArtifacts(rows: seq<ArtifactRow>): (r: seq<Artifact>)
    ensures |r| == |rows| && forall i :: 0 <= i < |rows| ==> r[i] == ArtifactFromRow(rows[i])
  {
    if rows == [] then [] else [ArtifactFromRow(rows[0])] + ReadArtifacts(rows[1..])
  }

  function ArtifactsAt(t: Tables, id: TrajectoryId, owner: Option<StepId>): seq<Artifact>
  {
    ReadArtifacts(SortArtifacts(ArtifactsOf(t.artifacts, id, owner)))
  }

  function ReadSteps(t: Tables, rows: seq<StepRow>): (r: seq<Step>)
    ensures |r| == |rows|
    ensures forall i :: 0 <= i < |rows| ==>
      r[i] == StepFromRow(rows[i], ArtifactsAt(t, rows[i].trajectoryId, Some(rows[i].id)))
  {
    if rows == [] then []
    else [StepFromRow(rows[0], ArtifactsAt(t, rows[0].trajectoryId, Some(rows[0].id)))] + ReadSteps(t, rows[1..])
  }

  predicate HeaderOk(t: Trajectory)
  {
    HeaderFieldsOk(t.status, t.completedAt, t.fields)
  }

  /** The canonical schema over a whole trajectory. */
  ghost predicate SchemaOk(t: Trajectory)
  {
    && HeaderOk(t)
    && (forall i :: 0 <= i < |t.steps| ==> StepFieldsOk(t.steps[i].fields) && t.steps[i].trajectoryId == t.id)
    && (forall i, j :: 0 <= i < j < |t.steps| ==>
         t.steps[i].sequence < t.steps[j].sequence && t.steps[i].id != t.steps[j].id)
    && (forall i :: 0 <= i < |t.steps| ==> ParentBefore(t.steps, i))
  }

  ghost predicate ParentBefore(steps: seq<Step>, i: nat)
    requires i < |steps|
  {
    steps[i].parent.Some? && steps[i].parent.value.Some? ==>
      exists j :: 0 <= j < i && steps[j].id == steps[i].parent.value.value
  }

  function Assemble(t: Tables, id: TrajectoryId): Trajectory
    requires id in t.trajectories
  {
    var row := t.trajectories[id];
    Trajectory(id, row.status, row.completedAt, FromColumns(row.columns, row.extensions),
               ReadSteps(t, SortSteps(StepsOf(t.steps, id))), ArtifactsAt(t, id, None))
  }

  datatype Reading = Missing | Corrupt | Found(value: Trajectory)

  /** Reconstruct and validate; inconsistent rows are reported, never returned. */
  ghost function Reconstruct(t: Tables, id: TrajectoryId): Reading
  {
    if id !in t.trajectories then Missing
    else
      var v := Assemble(t, id);
      if !SchemaOk(v) || t.trajectories[id].nextSequence != |v.steps| ||
         (exists i :: 0 <= i < |v.steps| && v.steps[i].sequence != i) then Corrupt
      else Found(v)
  }

  // ---------------------------------------------------------------------------------------------
  // Writing
  // ---------------------------------------------------------------------------------------------

  datatype Error = NotFound | TerminalTrajectory | WrongTrajectory | WrongSequence | BadParent | NotEmpty
                 | ImmutableField | SchemaViolation | ConstraintViolation

  datatype Result = Ok(tables: Tables) | Err(error: Error)

  function ArtifactRows(id: TrajectoryId, owner: Option<StepId>, artifacts: seq<Artifact>, start: nat): (r: seq<ArtifactRow>)
    ensures |r| == |artifacts|
    ensures forall i :: 0 <= i < |artifacts| ==> r[i] == ArtifactToRow(id, owner, start + i, artifacts[i])
  {
    seq(|artifacts|, i requires 0 <= i < |artifacts| => ArtifactToRow(id, owner, start + i, artifacts[i]))
  }

  /** PRIMARY KEY(trajectory_id, artifact_id). */
  predicate ArtifactIdsFree(rows: seq<ArtifactRow>, id: TrajectoryId, artifacts: seq<Artifact>)
  {
    && (forall i, j :: 0 <= i < j < |artifacts| ==> artifacts[i].id != artifacts[j].id)
    && (forall i, j :: 0 <= i < |artifacts| && 0 <= j < |rows| && rows[j].trajectoryId == id ==>
         rows[j].id != artifacts[i].id)
  }

  predicate ArtifactsOk(artifacts: seq<Artifact>)
  {
    forall i :: 0 <= i < |artifacts| ==> FieldsOk(artifacts[i].fields, ARTIFACT_SCALARS)
  }

  function Create(t: Tables, v: Trajectory): Result
  {
    if !HeaderOk(v) || !ArtifactsOk(v.artifacts) then Err(SchemaViolation)
    else if v.steps != [] then Err(NotEmpty)
    else if v.id in t.trajectories || !ArtifactIdsFree(t.artifacts, v.id, v.artifacts) then Err(ConstraintViolation)
    else
      Ok(WithTrajectory(t, v))
  }

  function WithTrajectory(t: Tables, v: Trajectory): Tables
  {
    Tables(t.trajectories[v.id := TrajectoryToRow(v, 0)], t.steps,
           t.artifacts + ArtifactRows(v.id, None, v.artifacts, 0))
  }

  predicate ParentStored(t: Tables, s: Step)
  {
    s.parent.Some? && s.parent.value.Some? ==>
      exists i :: 0 <= i < |t.steps| && t.steps[i].id == s.parent.value.value &&
                  t.steps[i].trajectoryId == s.trajectoryId && t.steps[i].sequence < s.sequence
  }

  function AppendStep(t: Tables, id: TrajectoryId, s: Step): Result
  {
    if !StepFieldsOk(s.fields) || !ArtifactsOk(s.artifacts) then Err(SchemaViolation)
    else if s.trajectoryId != id then Err(WrongTrajectory)
    else if id !in t.trajectories then Err(NotFound)
    else if Terminal(t.trajectories[id].status) then Err(TerminalTrajectory)
    else if s.sequence != t.trajectories[id].nextSequence then Err(WrongSequence)
    else if !ParentStored(t, s) then Err(BadParent)
    else if (exists i :: 0 <= i < |t.steps| && t.steps[i].id == s.id) || !ArtifactIdsFree(t.artifacts, id, s.artifacts)
    then Err(ConstraintViolation)
    else Ok(WithStep(t, id, s))
  }

  function WithStep(t: Tables, id: TrajectoryId, s: Step): Tables
    requires id in t.trajectories
  {
    var row := t.trajectories[id];
    Tables(t.trajectories[id := row.(nextSequence := row.nextSequence + 1)], t.steps + [StepToRow(s)],
           t.artifacts + ArtifactRows(id, Some(s.id), s.artifacts, 0))
  }

  /** COALESCE(MAX(position), -1) + 1 over the trajectory's own artifacts. */
  function NextPosition(rows: seq<ArtifactRow>, id: TrajectoryId): nat
  {
    if rows == [] then 0
    else
      var n := |rows| - 1;
      var before := NextPosition(rows[..n], id);
      if OwnedBy(rows[n], id, None) && rows[n].position + 1 > before then rows[n].position + 1 else before
  }

  function AppendArtifact(t: Tables, id: TrajectoryId, a: Artifact): Result
  {
    if !ArtifactsOk([a]) then Err(SchemaViolation)
    else if id !in t.trajectories then Err(NotFound)
    else if Terminal(t.trajectories[id].status) then Err(TerminalTrajectory)
    else if !ArtifactIdsFree(t.artifacts, id, [a]) then Err(ConstraintViolation)
    else Ok(WithArtifact(t, id, a, NextPosition(t.artifacts, id)))
  }

  function WithArtifact(t: Tables, id: TrajectoryId, a: Artifact, position: nat): Tables
  {
    t.(artifacts := t.artifacts + ArtifactRows(id, None, [a], position))
  }

  const IMMUTABLE_FIELDS := {"schemaVersion", "id", "origin", "actor", "startedAt", "steps", "artifacts"}

  /** A property of an update is absent, present with the value undefined, or given. */
  datatype Change<T> = Keep | Unset | Set(value: T)

  /** A metadata update; a field mapped to `None` is present and undefined. */
  datatype Update = Update(status: Change<Status>, completedAt: Change<int>, fields: map<string, Option<Json>>)

  /** Fields that the schema lets be missing, and fields that it then fills in. */
  const OPTIONAL_FIELDS := {"title", "summary", "durationMs", "input", "output", "error"}
  const DEFAULTED_FIELDS := {"modelUsage", "labels", "attributes"}

  function DefaultOf(k: string): Option<Json>
  {
    if k == "attributes" then Some(Obj([]))
    else if k in DEFAULTED_FIELDS then Some(Arr([]))
    else None
  }

  /** What parsing makes of a field that the update mentions. */
  function Parsed(k: string, given: Option<Json>): Option<Json>
  {
    if given.Some? then given else DefaultOf(k)
  }

  /** The status may not be undefined, nor may an extension field. */
  predicate UpdateOk(u: Update)
  {
    u.status != Unset && forall k :: k in u.fields && u.fields[k] == None ==> k in OPTIONAL_FIELDS + DEFAULTED_FIELDS
  }

  function MergedFields(f: Fields, u: map<string, Option<Json>>): Fields
  {
    map k | k in f.Keys + u.Keys && (k in u ==> Parsed(k, u[k]).Some?) :: if k in u then Parsed(k, u[k]).value else f[k]
  }

  function Updated(v: Trajectory, u: Update): Trajectory
  {
    v.(status := if u.status.Set? then u.status.value else v.status,
       completedAt := match u.completedAt case Keep => v.completedAt case Unset => None case Set(at) => Some(at),
       fields := MergedFields(v.fields, u.fields))
  }

  function UpdateMetadata(t: Tables, id: TrajectoryId, u: Update): Result
  {
    if u.fields.Keys !! IMMUTABLE_FIELDS then
      if id !in t.trajectories then Err(NotFound)
      else if Terminal(t.trajectories[id].status) then Err(TerminalTrajectory)
      else
        var v := Updated(Assemble(t, id), u);
        if !UpdateOk(u) || !HeaderOk(v) then Err(SchemaViolation)
        else Ok(t.(trajectories := t.trajectories[id := TrajectoryToRow(v, t.trajectories[id].nextSequence)]))
    else Err(ImmutableField)
  }

  predicate Prunable(r: TrajectoryRow, cutoff: int)
  {
    Terminal(r.status) && r.completedAt.Some? && r.completedAt.value < cutoff
  }

  predicate PrunableId(t: Tables, id: TrajectoryId, cutoff: int)
  {
    id in t.trajectories && Prunable(t.trajectories[id], cutoff)
  }

  function KeptSteps(rows: seq<StepRow>, gone: set<TrajectoryId>): seq<StepRow>
  {
    if rows == [] then []
    else
      var n := |rows| - 1;
      KeptSteps(rows[..n], gone) + if rows[n].trajectoryId in gone then [] else [rows[n]]
  }

  function KeptArtifacts(rows: seq<ArtifactRow>, gone: set<TrajectoryId>): seq<ArtifactRow>
  {
    if rows == [] then []
    else
      var n := |rows| - 1;
      KeptArtifacts(rows[..n], gone) + if rows[n].trajectoryId in gone then [] else [rows[n]]
  }

  function PrunedIds(t: Tables, cutoff: int): set<TrajectoryId>
  {
    set id | id in t.trajectories && Prunable(t.trajectories[id], cutoff)
  }

  function CountSteps(rows: seq<StepRow>, gone: set<TrajectoryId>): nat
  {
    if rows == [] then 0
    else CountSteps(rows[1..], gone) + if rows[0].trajectoryId in gone then 1 else 0
  }

  function CountArtifacts(rows: seq<ArtifactRow>, gone: set<TrajectoryId>): nat
  {
    if rows == [] then 0
    else CountArtifacts(rows[1..], gone) + if rows[0].trajectoryId in gone then 1 else 0
  }

  datatype Pruned = Pruned(trajectories: nat, steps: nat, artifacts: nat)

  /** Delete terminal trajectories completed before the cutoff; the foreign keys cascade. */
  function Prune(t: Tables, cutoff: int): (Pruned, Tables)
  {
    var gone := PrunedIds(t, cutoff);
    (Pruned(|gone|, CountSteps(t.steps, gone), CountArtifacts(t.artifacts, gone)),
     Tables(t.trajectories - gone, KeptSteps(t.steps, gone), KeptArtifacts(t.artifacts, gone)))
  }
}
