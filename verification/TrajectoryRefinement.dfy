/** The normalized store refines a map from IDs to whole trajectories: the same writes are accepted
    and rejected with the same errors, and reading the tables back always gives the map.
 */
module TrajectoryRefinement {
  import opened JsonText
  import opened TrajectoryStore
  import opened TrajectoryLaws
  import opened Wrappers

  // ---------------------------------------------------------------------------------------------
  // The simple store
  // ---------------------------------------------------------------------------------------------

  type Logical = map<TrajectoryId, Trajectory>

  datatype LogicalResult = Stored(store: Logical) | Refused(error: Error)

  datatype Write =
    | Creating(v: Trajectory)
    | AppendingStep(id: TrajectoryId, s: Step)
    | AppendingArtifact(id: TrajectoryId, a: Artifact)
    | Updating(id: TrajectoryId, u: Update)
    | Pruning(cutoff: int)

  predicate HasStep(v: Trajectory, id: StepId)
  {
    exists i :: 0 <= i < |v.steps| && v.steps[i].id == id
  }

  predicate ListsArtifact(artifacts: seq<Artifact>, id: string)
  {
    exists i :: 0 <= i < |artifacts| && artifacts[i].id == id
  }

  /** The artifact is one of the trajectory's own or one of a step's. */
  predicate HasArtifact(v: Trajectory, id: string)
  {
    ListsArtifact(v.artifacts, id) || exists k :: 0 <= k < |v.steps| && ListsArtifact(v.steps[k].artifacts, id)
  }

  predicate DistinctArtifacts(artifacts: seq<Artifact>)
  {
    forall i, j :: 0 <= i < j < |artifacts| ==> artifacts[i].id != artifacts[j].id
  }

  /** No artifact ID is repeated within a trajectory. */
  predicate NewArtifacts(v: Trajectory, artifacts: seq<Artifact>)
  {
    DistinctArtifacts(artifacts) && forall i :: 0 <= i < |artifacts| ==> !HasArtifact(v, artifacts[i].id)
  }

  predicate PrunableTrajectory(v: Trajectory, cutoff: int)
  {
    Terminal(v.status) && v.completedAt.Some? && v.completedAt.value < cutoff
  }

  function PrunableIds(m: Logical, cutoff: int): set<TrajectoryId>
  {
    set i | i in m && PrunableTrajectory(m[i], cutoff)
  }

  predicate ParentKnown(v: Trajectory, s: Step)
  {
    s.parent.Some? && s.parent.value.Some? ==> HasStep(v, s.parent.value.value)
  }

  function LogicalAppendStep(m: Logical, id: TrajectoryId, s: Step): LogicalResult
  {
    if !StepFieldsOk(s.fields) || !ArtifactsOk(s.artifacts) then Refused(SchemaViolation)
    else if s.trajectoryId != id then Refused(WrongTrajectory)
    else if id !in m then Refused(NotFound)
    else if Terminal(m[id].status) then Refused(TerminalTrajectory)
    else if s.sequence != |m[id].steps| then Refused(WrongSequence)
    else if !ParentKnown(m[id], s) then Refused(BadParent)
    else if (exists i :: i in m && HasStep(m[i], s.id)) || !NewArtifacts(m[id], s.artifacts) then Refused(ConstraintViolation)
    else Stored(m[id := m[id].(steps := m[id].steps + [TrajectoryLaws.Stored(s)])])
  }

  function LogicalApply(m: Logical, w: Write): LogicalResult
  {
    match w
    case Creating(v) =>
      if !HeaderOk(v) || !ArtifactsOk(v.artifacts) then Refused(SchemaViolation)
      else if v.steps != [] then Refused(NotEmpty)
      else if v.id in m || !DistinctArtifacts(v.artifacts) then Refused(ConstraintViolation)
      else Stored(m[v.id := v])
    case AppendingStep(id, s) => LogicalAppendStep(m, id, s)
    case AppendingArtifact(id, a) =>
      if !ArtifactsOk([a]) then Refused(SchemaViolation)
      else if id !in m then Refused(NotFound)
      else if Terminal(m[id].status) then Refused(TerminalTrajectory)
      else if HasArtifact(m[id], a.id) then Refused(ConstraintViolation)
      else Stored(m[id := m[id].(artifacts := m[id].artifacts + [a])])
    case Updating(id, u) =>
      if !(u.fields.Keys !! IMMUTABLE_FIELDS) then Refused(ImmutableField)
      else if id !in m then Refused(NotFound)
      else if Terminal(m[id].status) then Refused(TerminalTrajectory)
      else if !UpdateOk(u) || !HeaderOk(Updated(m[id], u)) then Refused(SchemaViolation)
      else Stored(m[id := Updated(m[id], u)])
    case Pruning(cutoff) =>
      Stored(m - PrunableIds(m, cutoff))
  }

  /** A refused write leaves the store as it was. */
  function LogicalRun(m: Logical, ws: seq<Write>): Logical
  {
    if ws == [] then m
    else
      var before := LogicalRun(m, ws[..|ws| - 1]);
      var r := LogicalApply(before, ws[|ws| - 1]);
      if r.Stored? then r.store else before
  }

  // ---------------------------------------------------------------------------------------------
  // The normalized store
  // ---------------------------------------------------------------------------------------------

  function Apply(t: Tables, w: Write): Result
  {
    match w
    case Creating(v) => Create(t, v)
    case AppendingStep(id, s) => AppendStep(t, id, s)
    case AppendingArtifact(id, a) => AppendArtifact(t, id, a)
    case Updating(id, u) => UpdateMetadata(t, id, u)
    case Pruning(cutoff) => Ok(Prune(t, cutoff).1)
  }

  function Run(t: Tables, ws: seq<Write>): Tables
  {
    if ws == [] then t
    else
      var before := Run(t, ws[..|ws| - 1]);
      var r := Apply(before, ws[|ws| - 1]);
      if r.Ok? then r.tables else before
  }

  function Abs(t: Tables): Logical
  {
    map id | id in t.trajectories :: View(t, id)
  }

  // ---------------------------------------------------------------------------------------------
  // The tables answer the same questions
  // ---------------------------------------------------------------------------------------------

  lemma StepKnown(t: Tables, id: TrajectoryId, step: StepId)
    requires id in t.trajectories
    ensures HasStep(View(t, id), step) <==> StepExists(t, id, step)
  {
    var ss := StepsOf(t.steps, id);
    if HasStep(View(t, id), step) {
      var i :| 0 <= i < |ss| && ViewSteps(t, id)[i].id == step;
      StepsOfHas(t.steps, id, ss[i]);
    }
    if StepExists(t, id, step) {
      var s :| s in t.steps && s.trajectoryId == id && s.id == step;
      StepsOfHas(t.steps, id, s);
      var i :| 0 <= i < |ss| && ss[i] == s;
      assert View(t, id).steps[i].id == step;
    }
  }

  /** Two table scans over steps, as the guards of an append make them. */
  lemma ParentKnownIsStored(t: Tables, id: TrajectoryId, s: Step)
    requires id in t.trajectories && TrajectoryIntact(t, id)
    requires s.trajectoryId == id && s.sequence == t.trajectories[id].nextSequence
    ensures ParentKnown(View(t, id), s) <==> ParentStored(t, s)
  {
    if s.parent.Some? && s.parent.value.Some? {
      var p := s.parent.value.value;
      StepKnown(t, id, p);
      if StepExists(t, id, p) {
        var r :| r in t.steps && r.trajectoryId == id && r.id == p;
        StepsOfHas(t.steps, id, r);
        var k :| 0 <= k < |t.steps| && t.steps[k] == r;
        var i :| 0 <= i < |StepsOf(t.steps, id)| && StepsOf(t.steps, id)[i] == r;
        assert t.steps[k].sequence == i;
      }
    }
  }

  lemma StepIdTaken(t: Tables, step: StepId)
    requires OwnersExist(t)
    ensures (exists i :: i in Abs(t) && HasStep(Abs(t)[i], step)) <==>
            (exists k :: 0 <= k < |t.steps| && t.steps[k].id == step)
  {
    if k :| 0 <= k < |t.steps| && t.steps[k].id == step {
      assert t.steps[k] in t.steps;
      assert StepExists(t, t.steps[k].trajectoryId, step);
      StepKnown(t, t.steps[k].trajectoryId, step);
      assert HasStep(Abs(t)[t.steps[k].trajectoryId], step);
    }
    if i :| i in Abs(t) && HasStep(Abs(t)[i], step) {
      StepKnown(t, i, step);
      var s :| s in t.steps && s.trajectoryId == i && s.id == step;
    }
  }

  ghost predicate ArtifactRowExists(t: Tables, id: TrajectoryId, artifact: string)
  {
    exists r :: r in t.artifacts && r.trajectoryId == id && r.id == artifact
  }

  lemma OwnedArtifactListed(t: Tables, id: TrajectoryId, owner: Option<StepId>, artifact: string)
    ensures ListsArtifact(ViewArtifacts(t, id, owner), artifact) <==>
            exists r :: r in t.artifacts && OwnedBy(r, id, owner) && r.id == artifact
  {
    var rows := ArtifactsOf(t.artifacts, id, owner);
    if r :| r in t.artifacts && OwnedBy(r, id, owner) && r.id == artifact {
      ArtifactsOfHas(t.artifacts, id, owner, r);
      var i :| 0 <= i < |rows| && rows[i] == r;
      assert ViewArtifacts(t, id, owner)[i].id == artifact;
    }
    if ListsArtifact(ViewArtifacts(t, id, owner), artifact) {
      var i :| 0 <= i < |rows| && ViewArtifacts(t, id, owner)[i].id == artifact;
      ArtifactsOfHas(t.artifacts, id, owner, rows[i]);
    }
  }

  lemma ListedArtifactHasRow(t: Tables, id: TrajectoryId, artifact: string)
    requires id in t.trajectories && HasArtifact(View(t, id), artifact)
    ensures ArtifactRowExists(t, id, artifact)
  {
    if ListsArtifact(ViewArtifacts(t, id, None), artifact) {
      OwnedArtifactListed(t, id, None, artifact);
    } else {
      var k :| 0 <= k < |ViewSteps(t, id)| && ListsArtifact(ViewSteps(t, id)[k].artifacts, artifact);
      var row := StepsOf(t.steps, id)[k];
      StepsOfHas(t.steps, id, row);
      OwnedArtifactListed(t, id, Some(row.id), artifact);
    }
  }

  lemma ArtifactRowIsListed(t: Tables, id: TrajectoryId, r: ArtifactRow)
    requires id in t.trajectories && OwnersExist(t) && r in t.artifacts && r.trajectoryId == id
    ensures HasArtifact(View(t, id), r.id)
  {
    assert OwnedBy(r, id, r.owner);
    OwnedArtifactListed(t, id, r.owner, r.id);
    if r.owner.Some? {
      StepKnown(t, id, r.owner.value);
      var k :| 0 <= k < |View(t, id).steps| && View(t, id).steps[k].id == r.owner.value;
      StepsOfHas(t.steps, id, StepsOf(t.steps, id)[k]);
      assert ListsArtifact(View(t, id).steps[k].artifacts, r.id);
    }
  }

  lemma ArtifactTaken(t: Tables, id: TrajectoryId, artifact: string)
    requires id in t.trajectories && OwnersExist(t)
    ensures HasArtifact(View(t, id), artifact) <==> ArtifactRowExists(t, id, artifact)
  {
    if HasArtifact(View(t, id), artifact) {
      ListedArtifactHasRow(t, id, artifact);
    }
    if ArtifactRowExists(t, id, artifact) {
      var r :| r in t.artifacts && r.trajectoryId == id && r.id == artifact;
      ArtifactRowIsListed(t, id, r);
    }
  }

  lemma NewArtifactsAreFree(t: Tables, id: TrajectoryId, artifacts: seq<Artifact>)
    requires id in t.trajectories && OwnersExist(t)
    ensures NewArtifacts(View(t, id), artifacts) <==> ArtifactIdsFree(t.artifacts, id, artifacts)
  {
    forall i | 0 <= i < |artifacts|
      ensures HasArtifact(View(t, id), artifacts[i].id) <==> ArtifactRowExists(t, id, artifacts[i].id)
    {
      ArtifactTaken(t, id, artifacts[i].id);
    }
    if NewArtifacts(View(t, id), artifacts) {
      forall i, j | 0 <= i < |artifacts| && 0 <= j < |t.artifacts| && t.artifacts[j].trajectoryId == id
        ensures t.artifacts[j].id != artifacts[i].id
      {
        assert t.artifacts[j] in t.artifacts;
        assert !ArtifactRowExists(t, id, artifacts[i].id);
      }
    }
  }

  lemma UnknownArtifactsAreFree(t: Tables, id: TrajectoryId, artifacts: seq<Artifact>)
    requires id !in t.trajectories && OwnersExist(t)
    ensures DistinctArtifacts(artifacts) <==> ArtifactIdsFree(t.artifacts, id, artifacts)
  {
    assert forall j :: 0 <= j < |t.artifacts| ==> t.artifacts[j] in t.artifacts;
  }

  // ---------------------------------------------------------------------------------------------
  // Refinement
  // ---------------------------------------------------------------------------------------------

  /** What a write does to the tables and to the map is the same. */
  ghost predicate Agrees(t: Tables, w: Write)
  {
    var r, l := Apply(t, w), LogicalApply(Abs(t), w);
    if r.Ok? then Invariant(r.tables) && l == LogicalResult.Stored(Abs(r.tables)) else l == Refused(r.error)
  }

  lemma MapUpdated<K, V>(m: map<K, V>, m': map<K, V>, key: K, value: V)
    requires m'.Keys == m.Keys + {key} && m'[key] == value
    requires forall i :: i in m && i != key ==> m'[i] == m[i]
    ensures m' == m[key := value]
  {
  }

  lemma AbsAt(t: Tables, id: TrajectoryId)
    requires id in t.trajectories
    ensures id in Abs(t) && Abs(t)[id] == View(t, id)
  {
  }

  /** Reading one ID's new value and every other ID's old one is updating the map. */
  lemma AbsUpdated(t: Tables, t': Tables, id: TrajectoryId, v: Trajectory)
    requires t'.trajectories.Keys == t.trajectories.Keys + {id}
    requires View(t', id) == v && forall i :: i in t.trajectories && i != id ==> View(t', i) == View(t, i)
    ensures Abs(t') == Abs(t)[id := v]
  {
    forall i | i in Abs(t) && i != id ensures Abs(t')[i] == Abs(t)[i] {
      AbsAt(t, i);
      AbsAt(t', i);
    }
    MapUpdated(Abs(t), Abs(t'), id, v);
  }

  /** The step from one table state to the next, as the map sees it. */
  lemma AbsChanged(t: Tables, t': Tables, id: TrajectoryId, v: Trajectory)
    requires id in t.trajectories && t'.trajectories.Keys == t.trajectories.Keys
    requires View(t', id) == v && forall i :: i in t.trajectories && i != id ==> View(t', i) == View(t, i)
    ensures id in Abs(t) && Abs(t)[id] == View(t, id) && Abs(t') == Abs(t)[id := v]
  {
    AbsAt(t, id);
    AbsUpdated(t, t', id, v);
  }

  lemma CreateAgrees(t: Tables, v: Trajectory)
    requires Invariant(t)
    ensures Agrees(t, Creating(v))
  {
    if v.id !in t.trajectories {
      UnknownArtifactsAreFree(t, v.id, v.artifacts);
    }
    CreateAnswers(t, Abs(t), v);
    if Create(t, v).Ok? {
      CreateRefines(t, v);
      AbsUpdated(t, Create(t, v).tables, v.id, v);
    }
  }

  lemma CreateAnswers(t: Tables, m: Logical, v: Trajectory)
    requires m.Keys == t.trajectories.Keys
    requires v.id !in m ==> (DistinctArtifacts(v.artifacts) <==> ArtifactIdsFree(t.artifacts, v.id, v.artifacts))
    ensures Create(t, v).Err? ==> LogicalApply(m, Creating(v)) == Refused(Create(t, v).error)
    ensures Create(t, v).Ok? ==> LogicalApply(m, Creating(v)) == LogicalResult.Stored(m[v.id := v])
  {
  }

  /** The map's entry for the trajectory answers each guard of an append as the tables do. */
  ghost predicate SameGuards(t: Tables, m: Logical, id: TrajectoryId, s: Step)
    requires id in m && id in t.trajectories
  {
    && m[id].status == t.trajectories[id].status
    && |m[id].steps| == t.trajectories[id].nextSequence
    && (s.sequence == t.trajectories[id].nextSequence ==> (ParentKnown(m[id], s) <==> ParentStored(t, s)))
    && (NewArtifacts(m[id], s.artifacts) <==> ArtifactIdsFree(t.artifacts, id, s.artifacts))
    && ((exists i :: i in m && HasStep(m[i], s.id)) <==> (exists k :: 0 <= k < |t.steps| && t.steps[k].id == s.id))
  }

  lemma StepGuardsAgree(t: Tables, id: TrajectoryId, s: Step)
    requires Invariant(t) && id in t.trajectories && s.trajectoryId == id
    ensures SameGuards(t, Abs(t), id, s)
  {
    assert TrajectoryIntact(t, id);
    if s.sequence == t.trajectories[id].nextSequence {
      ParentKnownIsStored(t, id, s);
    }
    NewArtifactsAreFree(t, id, s.artifacts);
    StepIdTaken(t, s.id);
  }

  lemma StepAnswers(t: Tables, m: Logical, id: TrajectoryId, s: Step)
    requires m.Keys == t.trajectories.Keys
    requires id in m && s.trajectoryId == id ==> SameGuards(t, m, id, s)
    ensures AppendStep(t, id, s).Err? ==> LogicalAppendStep(m, id, s) == Refused(AppendStep(t, id, s).error)
    ensures AppendStep(t, id, s).Ok? ==> (id in m &&
            LogicalAppendStep(m, id, s) == LogicalResult.Stored(m[id := m[id].(steps := m[id].steps + [TrajectoryLaws.Stored(s)])]))
  {
  }

  lemma AppendStepAbs(t: Tables, id: TrajectoryId, s: Step)
    requires Invariant(t) && AppendStep(t, id, s).Ok?
    ensures var t' := AppendStep(t, id, s).tables;
            && Invariant(t') && id in Abs(t)
            && Abs(t') == Abs(t)[id := Abs(t)[id].(steps := Abs(t)[id].steps + [TrajectoryLaws.Stored(s)])]
  {
    AppendStepRefines(t, id, s);
    var v := View(t, id);
    AbsChanged(t, AppendStep(t, id, s).tables, id, v.(steps := v.steps + [TrajectoryLaws.Stored(s)]));
  }

  lemma AppendStepAgrees(t: Tables, id: TrajectoryId, s: Step)
    requires Invariant(t)
    ensures Agrees(t, AppendingStep(id, s))
  {
    if id in t.trajectories && s.trajectoryId == id {
      StepGuardsAgree(t, id, s);
    }
    StepAnswers(t, Abs(t), id, s);
    if AppendStep(t, id, s).Ok? {
      AppendStepAbs(t, id, s);
    }
  }

  lemma ArtifactAnswers(t: Tables, m: Logical, id: TrajectoryId, a: Artifact)
    requires m.Keys == t.trajectories.Keys
    requires id in m ==> m[id].status == t.trajectories[id].status
    requires id in m ==> (NewArtifacts(m[id], [a]) <==> ArtifactIdsFree(t.artifacts, id, [a]))
    ensures AppendArtifact(t, id, a).Err? ==>
            LogicalApply(m, AppendingArtifact(id, a)) == Refused(AppendArtifact(t, id, a).error)
    ensures AppendArtifact(t, id, a).Ok? ==> (id in m &&
            LogicalApply(m, AppendingArtifact(id, a)) == LogicalResult.Stored(m[id := m[id].(artifacts := m[id].artifacts + [a])]))
  {
    if id in m {
      assert [a][0] == a;
      assert NewArtifacts(m[id], [a]) <==> !HasArtifact(m[id], a.id);
    }
  }

  lemma AppendArtifactAbs(t: Tables, id: TrajectoryId, a: Artifact)
    requires Invariant(t) && AppendArtifact(t, id, a).Ok?
    ensures var t' := AppendArtifact(t, id, a).tables;
            && Invariant(t') && id in Abs(t)
            && Abs(t') == Abs(t)[id := Abs(t)[id].(artifacts := Abs(t)[id].artifacts + [a])]
  {
    AppendArtifactRefines(t, id, a);
    var v := View(t, id);
    AbsChanged(t, AppendArtifact(t, id, a).tables, id, v.(artifacts := v.artifacts + [a]));
  }

  lemma AppendArtifactAgrees(t: Tables, id: TrajectoryId, a: Artifact)
    requires Invariant(t)
    ensures Agrees(t, AppendingArtifact(id, a))
  {
    if id in t.trajectories {
      NewArtifactsAreFree(t, id, [a]);
    }
    ArtifactAnswers(t, Abs(t), id, a);
    if AppendArtifact(t, id, a).Ok? {
      AppendArtifactAbs(t, id, a);
    }
  }

  lemma UpdateAnswers(t: Tables, m: Logical, id: TrajectoryId, u: Update)
    requires m.Keys == t.trajectories.Keys
    requires id in m ==> m[id].status == t.trajectories[id].status && m[id] == Assemble(t, id)
    ensures UpdateMetadata(t, id, u).Err? ==>
            LogicalApply(m, Updating(id, u)) == Refused(UpdateMetadata(t, id, u).error)
    ensures UpdateMetadata(t, id, u).Ok? ==> (id in m &&
            LogicalApply(m, Updating(id, u)) == LogicalResult.Stored(m[id := Updated(m[id], u)]))
  {
  }

  lemma UpdateAbs(t: Tables, id: TrajectoryId, u: Update)
    requires Invariant(t) && UpdateMetadata(t, id, u).Ok?
    ensures var t' := UpdateMetadata(t, id, u).tables;
            Invariant(t') && id in Abs(t) && Abs(t') == Abs(t)[id := Updated(Abs(t)[id], u)]
  {
    UpdateRefines(t, id, u);
    AbsChanged(t, UpdateMetadata(t, id, u).tables, id, Updated(View(t, id), u));
  }

  lemma UpdateAgrees(t: Tables, id: TrajectoryId, u: Update)
    requires Invariant(t)
    ensures Agrees(t, Updating(id, u))
  {
    if id in t.trajectories {
      AssembleIsView(t, id);
    }
    UpdateAnswers(t, Abs(t), id, u);
    if UpdateMetadata(t, id, u).Ok? {
      UpdateAbs(t, id, u);
    }
  }

  lemma MapReduced<K, V>(m: map<K, V>, m': map<K, V>, gone: set<K>)
    requires m'.Keys == m.Keys - gone && forall i :: i in m' ==> m'[i] == m[i]
    ensures m' == m - gone
  {
  }

  lemma AbsPrunableIds(t: Tables, cutoff: int)
    ensures PrunableIds(Abs(t), cutoff) == PrunedIds(t, cutoff)
  {
    forall i ensures i in PrunableIds(Abs(t), cutoff) <==> i in PrunedIds(t, cutoff) {
      if i in t.trajectories {
        AbsAt(t, i);
      }
    }
  }

  lemma AbsPruned(t: Tables, t': Tables, gone: set<TrajectoryId>)
    requires t'.trajectories.Keys == t.trajectories.Keys - gone
    requires forall i :: i in t'.trajectories ==> View(t', i) == View(t, i)
    ensures Abs(t') == Abs(t) - gone
  {
    forall i | i in Abs(t') ensures Abs(t')[i] == Abs(t)[i] {
      AbsAt(t, i);
      AbsAt(t', i);
    }
    MapReduced(Abs(t), Abs(t'), gone);
  }

  lemma PruneAgrees(t: Tables, cutoff: int)
    requires Invariant(t)
    ensures Agrees(t, Pruning(cutoff))
  {
    PruneRefines(t, cutoff);
    AbsPrunableIds(t, cutoff);
    AbsPruned(t, Prune(t, cutoff).1, PrunedIds(t, cutoff));
  }

  /** Every write is accepted or refused, with the same error, exactly as on whole trajectories, and
      an accepted write changes what can be read in exactly the same way. */
  lemma WriteRefines(t: Tables, w: Write)
    requires Invariant(t)
    ensures Agrees(t, w)
  {
    match w
    case Creating(v) => CreateAgrees(t, v);
    case AppendingStep(id, s) => AppendStepAgrees(t, id, s);
    case AppendingArtifact(id, a) => AppendArtifactAgrees(t, id, a);
    case Updating(id, u) => UpdateAgrees(t, id, u);
    case Pruning(cutoff) => PruneAgrees(t, cutoff);
  }

  /** After any run of writes, reading the tables gives what the simple store holds. */
  lemma {:induction false} RunRefines(t: Tables, ws: seq<Write>)
    requires Invariant(t)
    ensures Invariant(Run(t, ws)) && Abs(Run(t, ws)) == LogicalRun(Abs(t), ws)
    decreases |ws|
  {
    if ws != [] {
      RunRefines(t, ws[..|ws| - 1]);
      WriteRefines(Run(t, ws[..|ws| - 1]), ws[|ws| - 1]);
    }
  }

  /** Starting from an empty database, reading any ID gives the simple store's value and never
      reports corruption. */
  lemma ReadingsNeverCorrupt(ws: seq<Write>, id: TrajectoryId)
    ensures var m := LogicalRun(map[], ws);
            Reconstruct(Run(Empty, ws), id) == if id in m then Found(m[id]) else Missing
  {
    assert Abs(Empty) == map[];
    assert forall i, o :: ArtifactsOf(Empty.artifacts, i, o) == [];
    RunRefines(Empty, ws);
    ReconstructIsView(Run(Empty, ws), id);
  }

  // ---------------------------------------------------------------------------------------------
  // Append-only until terminal, then frozen until pruned
  // ---------------------------------------------------------------------------------------------

  /** One run moves a trajectory only forward: its steps and artifacts are kept as a prefix, and a
      terminal one does not change at all. */
  predicate Extends(v: Trajectory, v': Trajectory)
  {
    && v.steps <= v'.steps && v.artifacts <= v'.artifacts
    && (forall k :: k in v.fields.Keys * IMMUTABLE_FIELDS ==> k in v'.fields && v'.fields[k] == v.fields[k])
    && (Terminal(v.status) ==> v' == v)
  }

  /** Write number i prunes the trajectory as it is stored at that moment. */
  predicate PrunedAt(t: Tables, ws: seq<Write>, i: nat, id: TrajectoryId)
  {
    i < |ws| && ws[i].Pruning? && PrunableId(Run(t, ws[..i]), id, ws[i].cutoff)
  }

  /** Write number i creates the ID, and is accepted. */
  predicate CreatedAt(t: Tables, ws: seq<Write>, i: nat, id: TrajectoryId)
  {
    i < |ws| && ws[i].Creating? && ws[i].v.id == id && Apply(Run(t, ws[..i]), ws[i]).Ok?
  }

  lemma WriteExtends(m: Logical, w: Write, id: TrajectoryId)
    requires id in m && LogicalApply(m, w).Stored?
    ensures id in LogicalApply(m, w).store ==> Extends(m[id], LogicalApply(m, w).store[id])
    ensures id !in LogicalApply(m, w).store <==> w.Pruning? && PrunableTrajectory(m[id], w.cutoff)
  {
  }

  /** The same of one write on the tables, accepted or not. */
  lemma StepExtends(t: Tables, w: Write, id: TrajectoryId)
    requires Invariant(t) && id in t.trajectories
    ensures var t' := if Apply(t, w).Ok? then Apply(t, w).tables else t;
            && Invariant(t')
            && (id !in t'.trajectories <==> w.Pruning? && PrunableId(t, id, w.cutoff))
            && (id in t'.trajectories ==> Extends(View(t, id), View(t', id)))
  {
    WriteRefines(t, w);
    AbsAt(t, id);
    if Apply(t, w).Ok? {
      var t' := Apply(t, w).tables;
      WriteExtends(Abs(t), w, id);
      if id in t'.trajectories {
        AbsAt(t', id);
      }
    }
  }

  lemma OnlyCreatesAdd(m: Logical, w: Write, id: TrajectoryId)
    requires id !in m && LogicalApply(m, w).Stored?
    ensures id in LogicalApply(m, w).store <==> w.Creating? && w.v.id == id
  {
  }

  lemma AbsKeys(t: Tables)
    ensures Abs(t).Keys == t.trajectories.Keys
  {
  }

  lemma StepCreates(t: Tables, w: Write, id: TrajectoryId)
    requires Agrees(t, w) && id !in t.trajectories && Apply(t, w).Ok?
    ensures id in Apply(t, w).tables.trajectories <==> w.Creating? && w.v.id == id
  {
    var t' := Apply(t, w).tables;
    AbsKeys(t);
    AbsKeys(t');
    OnlyCreatesAdd(Abs(t), w, id);
  }

  lemma ExtendsIsTransitive(a: Trajectory, b: Trajectory, c: Trajectory)
    requires Extends(a, b) && Extends(b, c)
    ensures Extends(a, c)
  {
  }

  lemma PrunedInPrefix(t: Tables, ws: seq<Write>, n: nat, i: nat, id: TrajectoryId)
    requires n <= |ws| && i < n
    ensures PrunedAt(t, ws[..n], i, id) == PrunedAt(t, ws, i, id)
    ensures CreatedAt(t, ws[..n], i, id) == CreatedAt(t, ws, i, id)
  {
    assert ws[..n][..i] == ws[..i] && ws[..n][i] == ws[i];
  }

  lemma {:induction false} StoredUntilPruned(t: Tables, ws: seq<Write>, id: TrajectoryId)
    requires Invariant(t) && id in t.trajectories && forall i: nat :: !PrunedAt(t, ws, i, id)
    ensures id in Run(t, ws).trajectories && Extends(View(t, id), View(Run(t, ws), id))
    decreases |ws|
  {
    if ws != [] {
      var n := |ws| - 1;
      var before := Run(t, ws[..n]);
      forall i: nat ensures !PrunedAt(t, ws[..n], i, id) {
        if i < n {
          PrunedInPrefix(t, ws, n, i, id);
        }
      }
      StoredUntilPruned(t, ws[..n], id);
      RunRefines(t, ws[..n]);
      StepExtends(before, ws[n], id);
      assert !PrunedAt(t, ws, n, id);
      ExtendsIsTransitive(View(t, id), View(before, id), View(Run(t, ws), id));
    }
  }

  /** A stored trajectory only grows, and a terminal one reads back unchanged, whatever else is written,
      until a pruning whose cutoff it has reached removes it; nothing else makes it missing. */
  lemma TerminalFrozenUntilPruned(t: Tables, ws: seq<Write>, id: TrajectoryId)
    requires Invariant(t) && id in t.trajectories
    ensures var r := Reconstruct(Run(t, ws), id);
            && !r.Corrupt?
            && (r.Missing? ==> exists i: nat :: PrunedAt(t, ws, i, id))
            && ((forall i: nat :: !PrunedAt(t, ws, i, id)) ==>
                 && r.Found? && Extends(View(t, id), r.value)
                 && (Terminal(View(t, id).status) ==> r == Found(View(t, id))))
  {
    RunRefines(t, ws);
    ReconstructIsView(Run(t, ws), id);
    if forall i: nat :: !PrunedAt(t, ws, i, id) {
      StoredUntilPruned(t, ws, id);
    }
  }

  /** Pruning removes for good: the trajectory is missing right after it, and stays missing over every run
      in which no create of its ID is accepted. */
  lemma PrunedForGood(t: Tables, cutoff: int, pruned: Tables, id: TrajectoryId, ws: seq<Write>)
    requires Invariant(t) && PrunableId(t, id, cutoff) && pruned == Prune(t, cutoff).1
    requires forall i: nat :: !CreatedAt(pruned, ws, i, id)
    ensures Reconstruct(pruned, id) == Missing && Reconstruct(Run(pruned, ws), id) == Missing
  {
    PrunedIsMissing(t, cutoff, id);
    MissingReadsMissing(pruned, id);
    MissingStaysMissing(pruned, ws, id);
    MissingReadsMissing(Run(pruned, ws), id);
  }

  lemma PrunedIsMissing(t: Tables, cutoff: int, id: TrajectoryId)
    requires Invariant(t) && PrunableId(t, id, cutoff)
    ensures Invariant(Prune(t, cutoff).1) && id !in Prune(t, cutoff).1.trajectories
  {
    PruneRefines(t, cutoff);
  }

  lemma MissingReadsMissing(t: Tables, id: TrajectoryId)
    requires id !in t.trajectories
    ensures Reconstruct(t, id) == Missing
  {
  }

  lemma {:induction false} MissingStaysMissing(t: Tables, ws: seq<Write>, id: TrajectoryId)
    requires Invariant(t) && id !in t.trajectories && forall i: nat :: !CreatedAt(t, ws, i, id)
    ensures id !in Run(t, ws).trajectories
    decreases |ws|
  {
    if ws != [] {
      var n := |ws| - 1;
      forall i: nat ensures !CreatedAt(t, ws[..n], i, id) {
        if i < n {
          PrunedInPrefix(t, ws, n, i, id);
        }
      }
      MissingStaysMissing(t, ws[..n], id);
      RunRefines(t, ws[..n]);
      assert !CreatedAt(t, ws, n, id);
      if Apply(Run(t, ws[..n]), ws[n]).Ok? {
        WriteRefines(Run(t, ws[..n]), ws[n]);
        StepCreates(Run(t, ws[..n]), ws[n], id);
      }
    }
  }
}
