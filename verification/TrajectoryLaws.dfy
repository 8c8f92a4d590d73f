/** The normalized tables refine logical trajectories: after every accepted write, reading gives
    the value that the write describes, and nothing else changes.
 */
module TrajectoryLaws {
  import opened JsonText
  import opened TrajectoryStore
  import opened Wrappers

  // ---------------------------------------------------------------------------------------------
  // Filters over growing and shrinking tables
  // ---------------------------------------------------------------------------------------------

  lemma StepsOfAppend(rows: seq<StepRow>, r: StepRow, id: TrajectoryId)
    ensures StepsOf(rows + [r], id) == StepsOf(rows, id) + if r.trajectoryId == id then [r] else []
  {
    assert (rows + [r])[..|rows|] == rows;
  }

  lemma {:induction false} StepsOfHas(rows: seq<StepRow>, id: TrajectoryId, r: StepRow)
    ensures r in StepsOf(rows, id) <==> r in rows && r.trajectoryId == id
    decreases |rows|
  {
    if rows != [] {
      var n := |rows| - 1;
      StepsOfHas(rows[..n], id, r);
      assert rows == rows[..n] + [rows[n]];
    }
  }

  lemma {:induction false} StepsOfKept(rows: seq<StepRow>, gone: set<TrajectoryId>, id: TrajectoryId)
    ensures StepsOf(KeptSteps(rows, gone), id) == if id in gone then [] else StepsOf(rows, id)
    decreases |rows|
  {
    if rows != [] {
      var n := |rows| - 1;
      StepsOfKept(rows[..n], gone, id);
      if rows[n].trajectoryId !in gone {
        StepsOfAppend(KeptSteps(rows[..n], gone), rows[n], id);
      } else {
        assert KeptSteps(rows, gone) == KeptSteps(rows[..n], gone);
      }
    }
  }

  lemma ArtifactsOfAppendOne(rows: seq<ArtifactRow>, r: ArtifactRow, id: TrajectoryId, owner: Option<StepId>)
    ensures ArtifactsOf(rows + [r], id, owner) == ArtifactsOf(rows, id, owner) + if OwnedBy(r, id, owner) then [r] else []
  {
    assert (rows + [r])[..|rows|] == rows;
  }

  lemma {:induction false} ArtifactsOfAppend(
      rows: seq<ArtifactRow>, more: seq<ArtifactRow>, tid: TrajectoryId, maker: Option<StepId>,
      id: TrajectoryId, owner: Option<StepId>)
    requires forall i :: 0 <= i < |more| ==> OwnedBy(more[i], tid, maker)
    ensures ArtifactsOf(rows + more, id, owner) ==
            ArtifactsOf(rows, id, owner) + if id == tid && owner == maker then more else []
    decreases |more|
  {
    if more == [] {
      assert rows + more == rows;
    } else {
      var n := |more| - 1;
      assert rows + more == (rows + more[..n]) + [more[n]];
      ArtifactsOfAppend(rows, more[..n], tid, maker, id, owner);
      ArtifactsOfAppendOne(rows + more[..n], more[n], id, owner);
      assert OwnedBy(more[n], tid, maker) && more == more[..n] + [more[n]];
    }
  }

  lemma {:induction false} ArtifactsOfHas(rows: seq<ArtifactRow>, id: TrajectoryId, owner: Option<StepId>, r: ArtifactRow)
    ensures r in ArtifactsOf(rows, id, owner) <==> r in rows && OwnedBy(r, id, owner)
    decreases |rows|
  {
    if rows != [] {
      var n := |rows| - 1;
      ArtifactsOfHas(rows[..n], id, owner, r);
      assert rows == rows[..n] + [rows[n]];
    }
  }

  lemma {:induction false} ArtifactsOfKept(rows: seq<ArtifactRow>, gone: set<TrajectoryId>, id: TrajectoryId, owner: Option<StepId>)
    ensures ArtifactsOf(KeptArtifacts(rows, gone), id, owner) == if id in gone then [] else ArtifactsOf(rows, id, owner)
    decreases |rows|
  {
    if rows != [] {
      var n := |rows| - 1;
      ArtifactsOfKept(rows[..n], gone, id, owner);
      if rows[n].trajectoryId !in gone {
        ArtifactsOfAppendOne(KeptArtifacts(rows[..n], gone), rows[n], id, owner);
      } else {
        assert KeptArtifacts(rows, gone) == KeptArtifacts(rows[..n], gone);
      }
    }
  }

  // ---------------------------------------------------------------------------------------------
  // The invariant
  // ---------------------------------------------------------------------------------------------

  /** Sequences are 0..n-1, IDs are distinct and every parent is an earlier step of the same trajectory. */
  ghost predicate StepsIntact(ss: seq<StepRow>)
  {
    && (forall i :: 0 <= i < |ss| ==> ss[i].sequence == i && StepFieldsOk(FromColumns(ss[i].columns, ss[i].extensions)))
    && (forall i, j :: 0 <= i < j < |ss| ==> ss[i].id != ss[j].id)
    && (forall i :: 0 <= i < |ss| ==> ParentEarlier(ss, i))
  }

  ghost predicate ParentEarlier(ss: seq<StepRow>, i: nat)
    requires i < |ss|
  {
    ss[i].parent.Some? ==> exists j :: 0 <= j < i && ss[j].id == ss[i].parent.value
  }

  ghost predicate PositionsIntact(rows: seq<ArtifactRow>)
  {
    forall i :: 0 <= i < |rows| ==> rows[i].position == i
  }

  ghost predicate HeaderIntact(row: TrajectoryRow)
  {
    HeaderFieldsOk(row.status, row.completedAt, FromColumns(row.columns, row.extensions))
  }

  ghost predicate TrajectoryIntact(t: Tables, id: TrajectoryId)
    requires id in t.trajectories
  {
    && HeaderIntact(t.trajectories[id])
    && StepsIntact(StepsOf(t.steps, id))
    && t.trajectories[id].nextSequence == |StepsOf(t.steps, id)|
  }

  /** Foreign keys: every row's owner exists. */
  ghost predicate OwnersExist(t: Tables)
  {
    && (forall r :: r in t.steps ==> r.trajectoryId in t.trajectories)
    && (forall r :: r in t.artifacts ==>
         r.trajectoryId in t.trajectories && (r.owner.Some? ==> StepExists(t, r.trajectoryId, r.owner.value)))
  }

  ghost predicate StepExists(t: Tables, id: TrajectoryId, step: StepId)
  {
    exists s :: s in t.steps && s.trajectoryId == id && s.id == step
  }

  ghost predicate Invariant(t: Tables)
  {
    && (forall id :: id in t.trajectories ==> TrajectoryIntact(t, id))
    && (forall id, owner :: PositionsIntact(ArtifactsOf(t.artifacts, id, owner)))
    && OwnersExist(t)
  }

  const Empty := Tables(map[], [], [])

  // ---------------------------------------------------------------------------------------------
  // Reading intact tables
  // ---------------------------------------------------------------------------------------------

  /** The rows in table order, which for intact tables is also sequence and position order. */
  function ViewArtifacts(t: Tables, id: TrajectoryId, owner: Option<StepId>): seq<Artifact>
  {
    ReadArtifacts(ArtifactsOf(t.artifacts, id, owner))
  }

  function ViewSteps(t: Tables, id: TrajectoryId): (r: seq<Step>)
    ensures |r| == |StepsOf(t.steps, id)|
    ensures forall i :: 0 <= i < |r| ==>
      var row := StepsOf(t.steps, id)[i]; r[i] == StepFromRow(row, ViewArtifacts(t, row.trajectoryId, Some(row.id)))
  {
    var rows := StepsOf(t.steps, id);
    seq(|rows|, i requires 0 <= i < |rows| => StepFromRow(rows[i], ViewArtifacts(t, rows[i].trajectoryId, Some(rows[i].id))))
  }

  function View(t: Tables, id: TrajectoryId): Trajectory
    requires id in t.trajectories
  {
    var row := t.trajectories[id];
    Trajectory(id, row.status, row.completedAt, FromColumns(row.columns, row.extensions),
               ViewSteps(t, id), ViewArtifacts(t, id, None))
  }

  lemma {:induction false} SortedStepsStay(ss: seq<StepRow>)
    requires forall i, j :: 0 <= i < j < |ss| ==> ss[i].sequence < ss[j].sequence
    ensures SortSteps(ss) == ss
    decreases |ss|
  {
    if ss != [] {
      assert forall i :: 0 <= i < |ss[1..]| ==> ss[1..][i] == ss[i + 1];
      SortedStepsStay(ss[1..]);
      assert ss == [ss[0]] + ss[1..];
    }
  }

  lemma {:induction false} SortedArtifactsStay(rows: seq<ArtifactRow>)
    requires forall i, j :: 0 <= i < j < |rows| ==> rows[i].position < rows[j].position
    ensures SortArtifacts(rows) == rows
    decreases |rows|
  {
    if rows != [] {
      assert forall i :: 0 <= i < |rows[1..]| ==> rows[1..][i] == rows[i + 1];
      SortedArtifactsStay(rows[1..]);
      assert rows == [rows[0]] + rows[1..];
    }
  }

  lemma AssembleIsView(t: Tables, id: TrajectoryId)
    requires Invariant(t) && id in t.trajectories
    ensures Assemble(t, id) == View(t, id)
  {
    var ss := StepsOf(t.steps, id);
    assert TrajectoryIntact(t, id);
    SortedStepsStay(ss);
    forall i, owner: Option<StepId>
      ensures ArtifactsAt(t, i, owner) == ViewArtifacts(t, i, owner)
    {
      assert PositionsIntact(ArtifactsOf(t.artifacts, i, owner));
      SortedArtifactsStay(ArtifactsOf(t.artifacts, i, owner));
    }
    assert ReadSteps(t, ss) == ViewSteps(t, id);
  }

  lemma ViewParentBefore(t: Tables, id: TrajectoryId, i: nat)
    requires i < |StepsOf(t.steps, id)| && ParentEarlier(StepsOf(t.steps, id), i)
    ensures ViewSteps(t, id)[i].trajectoryId == id && ParentBefore(ViewSteps(t, id), i)
  {
    var ss := StepsOf(t.steps, id);
    StepsOfHas(t.steps, id, ss[i]);
    if ss[i].parent.Some? {
      var j :| 0 <= j < i && ss[j].id == ss[i].parent.value;
      assert ViewSteps(t, id)[j].id == ss[j].id;
    }
  }

  lemma ViewSatisfiesSchema(t: Tables, id: TrajectoryId)
    requires id in t.trajectories && TrajectoryIntact(t, id)
    ensures SchemaOk(View(t, id))
  {
    var ss := StepsOf(t.steps, id);
    forall i | 0 <= i < |ss|
      ensures ViewSteps(t, id)[i].trajectoryId == id && ParentBefore(ViewSteps(t, id), i)
    {
      ViewParentBefore(t, id, i);
    }
  }

  /** Intact tables are never reported corrupt: reading returns their view, with steps numbered
      0..n-1 and every parent before its child. */
  lemma ReconstructIsView(t: Tables, id: TrajectoryId)
    requires Invariant(t)
    ensures Reconstruct(t, id) == if id in t.trajectories then Found(View(t, id)) else Missing
  {
    if id in t.trajectories {
      AssembleIsView(t, id);
      assert TrajectoryIntact(t, id);
      ViewSatisfiesSchema(t, id);
    }
  }

  // ---------------------------------------------------------------------------------------------
  // Writes refine their logical meaning
  // ---------------------------------------------------------------------------------------------

  lemma ReadBackArtifacts(id: TrajectoryId, owner: Option<StepId>, artifacts: seq<Artifact>, start: nat)
    requires ArtifactsOk(artifacts)
    ensures ReadArtifacts(ArtifactRows(id, owner, artifacts, start)) == artifacts
  {
    forall i | 0 <= i < |artifacts|
      ensures ArtifactFromRow(ArtifactToRow(id, owner, start + i, artifacts[i])) == artifacts[i]
    {
      FieldsRoundTrip(artifacts[i].fields, ARTIFACT_SCALARS, ARTIFACT_JSON);
    }
  }

  lemma UnknownHasNoSteps(t: Tables, id: TrajectoryId)
    requires OwnersExist(t) && id !in t.trajectories
    ensures StepsOf(t.steps, id) == []
  {
    var ss := StepsOf(t.steps, id);
    if ss != [] {
      StepsOfHas(t.steps, id, ss[0]);
    }
  }

  lemma UnknownHasNoArtifacts(t: Tables, id: TrajectoryId, owner: Option<StepId>)
    requires OwnersExist(t)
    requires id !in t.trajectories || (owner.Some? && !StepExists(t, id, owner.value))
    ensures ArtifactsOf(t.artifacts, id, owner) == []
  {
    var rows := ArtifactsOf(t.artifacts, id, owner);
    if rows != [] {
      ArtifactsOfHas(t.artifacts, id, owner, rows[0]);
    }
  }

  lemma {:induction false} NextPositionCounts(rows: seq<ArtifactRow>, id: TrajectoryId)
    requires PositionsIntact(ArtifactsOf(rows, id, None))
    ensures NextPosition(rows, id) == |ArtifactsOf(rows, id, None)|
    decreases |rows|
  {
    if rows != [] {
      var n := |rows| - 1;
      var before, all := ArtifactsOf(rows[..n], id, None), ArtifactsOf(rows, id, None);
      assert forall i :: 0 <= i < |before| ==> all[i] == before[i];
      NextPositionCounts(rows[..n], id);
      if OwnedBy(rows[n], id, None) {
        assert all[|before|] == rows[n];
      }
    }
  }

  /** A view depends only on the header row and on the rows that belong to the trajectory. */
  lemma SameRowsSameView(t: Tables, t': Tables, id: TrajectoryId)
    requires id in t.trajectories && id in t'.trajectories
    requires t'.trajectories[id].(nextSequence := 0) == t.trajectories[id].(nextSequence := 0)
    requires StepsOf(t'.steps, id) == StepsOf(t.steps, id)
    requires forall owner :: ArtifactsOf(t'.artifacts, id, owner) == ArtifactsOf(t.artifacts, id, owner)
    ensures View(t', id) == View(t, id)
  {
    var ss := StepsOf(t.steps, id);
    forall i | 0 <= i < |ss| ensures ViewSteps(t', id)[i] == ViewSteps(t, id)[i] {
      StepsOfHas(t.steps, id, ss[i]);
    }
  }

  lemma OwnersSurvive(t: Tables, t': Tables, more: seq<ArtifactRow>, id: TrajectoryId, owner: Option<StepId>)
    requires OwnersExist(t) && t.trajectories.Keys <= t'.trajectories.Keys
    requires t'.artifacts == t.artifacts + more && forall i :: 0 <= i < |more| ==> OwnedBy(more[i], id, owner)
    requires id in t'.trajectories && (owner.Some? ==> StepExists(t', id, owner.value))
    requires forall s :: s in t.steps ==> s in t'.steps
    requires forall s :: s in t'.steps ==> s in t.steps || s.trajectoryId in t'.trajectories
    ensures OwnersExist(t')
  {
    forall r | r in t'.artifacts
      ensures r.trajectoryId in t'.trajectories && (r.owner.Some? ==> StepExists(t', r.trajectoryId, r.owner.value))
    {
      if r in t.artifacts {
        if r.owner.Some? {
          assert StepExists(t, r.trajectoryId, r.owner.value);
          var s :| s in t.steps && s.trajectoryId == r.trajectoryId && s.id == r.owner.value;
          assert s in t'.steps;
        }
      } else {
        assert r in more;
      }
    }
  }

  /** A step as reading returns it: a null parent is an absent one. */
  function Stored(s: Step): Step
  {
    s.(parent := if s.parent.Some? && s.parent.value.Some? then s.parent else None)
  }

  /** What an accepted step satisfies. */
  ghost predicate StepFits(t: Tables, id: TrajectoryId, s: Step)
  {
    && id in t.trajectories && s.trajectoryId == id && s.sequence == t.trajectories[id].nextSequence
    && StepFieldsOk(s.fields) && ArtifactsOk(s.artifacts) && ParentStored(t, s)
    && (forall r :: r in t.steps ==> r.id != s.id)
  }

  lemma AcceptedStepFits(t: Tables, id: TrajectoryId, s: Step)
    requires AppendStep(t, id, s).Ok?
    ensures StepFits(t, id, s) && AppendStep(t, id, s).tables == WithStep(t, id, s)
  {
  }

  lemma NewParentIsEarlier(t: Tables, id: TrajectoryId, s: Step)
    requires StepFits(t, id, s) && StepsIntact(StepsOf(t.steps, id))
    requires t.trajectories[id].nextSequence == |StepsOf(t.steps, id)|
    ensures ParentEarlier(StepsOf(t.steps, id) + [StepToRow(s)], |StepsOf(t.steps, id)|)
  {
    var ss := StepsOf(t.steps, id);
    var all := ss + [StepToRow(s)];
    if s.parent.Some? && s.parent.value.Some? {
      var k :| 0 <= k < |t.steps| && t.steps[k].id == s.parent.value.value &&
               t.steps[k].trajectoryId == s.trajectoryId && t.steps[k].sequence < s.sequence;
      StepsOfHas(t.steps, id, t.steps[k]);
      var j :| 0 <= j < |ss| && ss[j] == t.steps[k];
      assert all[j].id == s.parent.value.value;
    }
  }

  lemma OldParentStaysEarlier(ss: seq<StepRow>, r: StepRow, i: nat)
    requires i < |ss| && ParentEarlier(ss, i)
    ensures ParentEarlier(ss + [r], i)
  {
    if ss[i].parent.Some? {
      var j :| 0 <= j < i && ss[j].id == ss[i].parent.value;
      assert (ss + [r])[j].id == (ss + [r])[i].parent.value;
    }
  }

  lemma NewStepStaysIntact(t: Tables, id: TrajectoryId, s: Step)
    requires StepFits(t, id, s) && StepsIntact(StepsOf(t.steps, id))
    requires t.trajectories[id].nextSequence == |StepsOf(t.steps, id)|
    ensures StepsIntact(StepsOf(t.steps, id) + [StepToRow(s)])
  {
    var ss := StepsOf(t.steps, id);
    var all := ss + [StepToRow(s)];
    FieldsRoundTrip(s.fields, STEP_SCALARS, STEP_JSON);
    NewParentIsEarlier(t, id, s);
    forall i | 0 <= i < |ss| ensures ss[i].id != s.id && ParentEarlier(all, i) {
      StepsOfHas(t.steps, id, ss[i]);
      OldParentStaysEarlier(ss, StepToRow(s), i);
    }
  }

  /** Which rows an append of artifacts gives to each owner. */
  lemma GrownArtifacts(
      rows: seq<ArtifactRow>, id: TrajectoryId, owner: Option<StepId>, artifacts: seq<Artifact>, start: nat)
    requires forall i, o :: PositionsIntact(ArtifactsOf(rows, i, o))
    requires start == |ArtifactsOf(rows, id, owner)|
    ensures var more := ArtifactRows(id, owner, artifacts, start);
            && (forall i, o :: ArtifactsOf(rows + more, i, o) ==
                  ArtifactsOf(rows, i, o) + if i == id && o == owner then more else [])
            && (forall i, o :: PositionsIntact(ArtifactsOf(rows + more, i, o)))
  {
    var more := ArtifactRows(id, owner, artifacts, start);
    forall i, o: Option<StepId>
      ensures ArtifactsOf(rows + more, i, o) == ArtifactsOf(rows, i, o) + if i == id && o == owner then more else []
      ensures PositionsIntact(ArtifactsOf(rows + more, i, o))
    {
      ArtifactsOfAppend(rows, more, id, owner, i, o);
      assert PositionsIntact(ArtifactsOf(rows, i, o));
    }
  }

  lemma WithStepSteps(t: Tables, id: TrajectoryId, s: Step, i: TrajectoryId)
    requires StepFits(t, id, s)
    ensures StepsOf(WithStep(t, id, s).steps, i) == StepsOf(t.steps, i) + if i == id then [StepToRow(s)] else []
  {
    StepsOfAppend(t.steps, StepToRow(s), i);
  }

  lemma WithStepOwners(t: Tables, id: TrajectoryId, s: Step)
    requires StepFits(t, id, s) && OwnersExist(t)
    ensures OwnersExist(WithStep(t, id, s))
  {
    var t' := WithStep(t, id, s);
    assert t'.steps[|t.steps|] == StepToRow(s);
    assert StepToRow(s) in t'.steps;
    OwnersSurvive(t, t', ArtifactRows(id, Some(s.id), s.artifacts, 0), id, Some(s.id));
  }

  lemma WithStepArtifacts(t: Tables, id: TrajectoryId, s: Step)
    requires Invariant(t) && StepFits(t, id, s)
    ensures var rows := WithStep(t, id, s).artifacts;
            && (forall i, o :: PositionsIntact(ArtifactsOf(rows, i, o)))
            && (forall i, o :: ArtifactsOf(rows, i, o) ==
                  if i == id && o == Some(s.id) then ArtifactRows(id, Some(s.id), s.artifacts, 0)
                  else ArtifactsOf(t.artifacts, i, o))
  {
    UnknownHasNoArtifacts(t, id, Some(s.id));
    GrownArtifacts(t.artifacts, id, Some(s.id), s.artifacts, 0);
  }

  lemma WithStepIntact(t: Tables, id: TrajectoryId, s: Step, i: TrajectoryId)
    requires StepFits(t, id, s) && i in t.trajectories && TrajectoryIntact(t, i)
    ensures TrajectoryIntact(WithStep(t, id, s), i)
  {
    WithStepSteps(t, id, s, i);
    if i == id {
      NewStepStaysIntact(t, id, s);
    } else {
      assert StepsOf(WithStep(t, id, s).steps, i) == StepsOf(t.steps, i);
    }
  }

  lemma WithStepKeepsInvariant(t: Tables, id: TrajectoryId, s: Step)
    requires Invariant(t) && StepFits(t, id, s)
    ensures Invariant(WithStep(t, id, s))
  {
    WithStepOwners(t, id, s);
    WithStepArtifacts(t, id, s);
    forall i | i in t.trajectories ensures TrajectoryIntact(WithStep(t, id, s), i) {
      WithStepIntact(t, id, s, i);
    }
  }

  lemma WithStepArtifactsAt(t: Tables, id: TrajectoryId, s: Step, owner: Option<StepId>)
    requires owner != Some(s.id)
    requires id in t.trajectories
    ensures ViewArtifacts(WithStep(t, id, s), id, owner) == ViewArtifacts(t, id, owner)
  {
    ArtifactsOfAppend(t.artifacts, ArtifactRows(id, Some(s.id), s.artifacts, 0), id, Some(s.id), id, owner);
  }

  lemma NewStepReadsBack(t: Tables, id: TrajectoryId, s: Step)
    requires OwnersExist(t) && StepFits(t, id, s)
    ensures StepFromRow(StepToRow(s), ViewArtifacts(WithStep(t, id, s), id, Some(s.id))) == Stored(s)
  {
    var rows := ArtifactRows(id, Some(s.id), s.artifacts, 0);
    UnknownHasNoArtifacts(t, id, Some(s.id));
    ArtifactsOfAppend(t.artifacts, rows, id, Some(s.id), id, Some(s.id));
    assert [] + rows == rows;
    ReadBackArtifacts(id, Some(s.id), s.artifacts, 0);
    FieldsRoundTrip(s.fields, STEP_SCALARS, STEP_JSON);
  }

  lemma OldStepReadsBack(t: Tables, id: TrajectoryId, s: Step, k: nat)
    requires StepFits(t, id, s) && k < |StepsOf(t.steps, id)|
    requires StepsOf(WithStep(t, id, s).steps, id) == StepsOf(t.steps, id) + [StepToRow(s)]
    ensures ViewSteps(WithStep(t, id, s), id)[k] == ViewSteps(t, id)[k]
  {
    var row := StepsOf(t.steps, id)[k];
    StepsOfHas(t.steps, id, row);
    WithStepArtifactsAt(t, id, s, Some(row.id));
  }

  lemma WithStepViewSteps(t: Tables, id: TrajectoryId, s: Step)
    requires OwnersExist(t) && StepFits(t, id, s)
    ensures ViewSteps(WithStep(t, id, s), id) == ViewSteps(t, id) + [Stored(s)]
  {
    var t' := WithStep(t, id, s);
    WithStepSteps(t, id, s, id);
    NewStepReadsBack(t, id, s);
    var ss := StepsOf(t.steps, id);
    forall k | 0 <= k < |ss| ensures ViewSteps(t', id)[k] == ViewSteps(t, id)[k] {
      OldStepReadsBack(t, id, s, k);
    }
    assert StepsOf(t'.steps, id)[|ss|] == StepToRow(s);
  }

  lemma WithStepView(t: Tables, id: TrajectoryId, s: Step)
    requires OwnersExist(t) && StepFits(t, id, s)
    ensures View(WithStep(t, id, s), id) == View(t, id).(steps := View(t, id).steps + [Stored(s)])
  {
    WithStepViewSteps(t, id, s);
    WithStepArtifactsAt(t, id, s, None);
  }

  lemma WithStepOthers(t: Tables, id: TrajectoryId, s: Step, i: TrajectoryId)
    requires Invariant(t) && StepFits(t, id, s) && i in t.trajectories && i != id
    ensures View(WithStep(t, id, s), i) == View(t, i)
  {
    WithStepSteps(t, id, s, i);
    WithStepArtifacts(t, id, s);
    SameRowsSameView(t, WithStep(t, id, s), i);
  }

  /** Appending a step appends exactly that step, with its artifacts, to the logical trajectory. */
  lemma AppendStepRefines(t: Tables, id: TrajectoryId, s: Step)
    requires Invariant(t) && AppendStep(t, id, s).Ok?
    ensures var t' := AppendStep(t, id, s).tables;
            && Invariant(t') && id in t.trajectories && t'.trajectories.Keys == t.trajectories.Keys
            && View(t', id) == View(t, id).(steps := View(t, id).steps + [Stored(s)])
            && forall i :: i in t.trajectories && i != id ==> View(t', i) == View(t, i)
  {
    AcceptedStepFits(t, id, s);
    WithStepKeepsInvariant(t, id, s);
    WithStepView(t, id, s);
    forall i | i in t.trajectories && i != id ensures View(WithStep(t, id, s), i) == View(t, i) {
      WithStepOthers(t, id, s, i);
    }
  }

  // Creating a trajectory

  ghost predicate NewFits(t: Tables, v: Trajectory)
  {
    v.id !in t.trajectories && HeaderOk(v) && ArtifactsOk(v.artifacts) && v.steps == []
  }

  lemma AcceptedTrajectoryFits(t: Tables, v: Trajectory)
    requires Create(t, v).Ok?
    ensures NewFits(t, v) && Create(t, v).tables == WithTrajectory(t, v)
  {
  }

  lemma WithTrajectoryArtifacts(t: Tables, v: Trajectory)
    requires Invariant(t) && NewFits(t, v)
    ensures var rows := WithTrajectory(t, v).artifacts;
            && (forall i, o :: PositionsIntact(ArtifactsOf(rows, i, o)))
            && (forall i, o :: ArtifactsOf(rows, i, o) ==
                  if i == v.id && o == None then ArtifactRows(v.id, None, v.artifacts, 0)
                  else ArtifactsOf(t.artifacts, i, o))
  {
    UnknownHasNoArtifacts(t, v.id, None);
    GrownArtifacts(t.artifacts, v.id, None, v.artifacts, 0);
  }

  lemma WithTrajectoryKeepsInvariant(t: Tables, v: Trajectory)
    requires Invariant(t) && NewFits(t, v)
    ensures Invariant(WithTrajectory(t, v))
  {
    var t' := WithTrajectory(t, v);
    FieldsRoundTrip(v.fields, TRAJECTORY_SCALARS, TRAJECTORY_JSON);
    UnknownHasNoSteps(t, v.id);
    WithTrajectoryArtifacts(t, v);
    OwnersSurvive(t, t', ArtifactRows(v.id, None, v.artifacts, 0), v.id, None);
    forall i | i in t'.trajectories ensures TrajectoryIntact(t', i) {
      if i != v.id {
        assert TrajectoryIntact(t, i);
      }
    }
  }

  lemma WithTrajectoryView(t: Tables, v: Trajectory)
    requires Invariant(t) && NewFits(t, v)
    ensures View(WithTrajectory(t, v), v.id) == v
  {
    FieldsRoundTrip(v.fields, TRAJECTORY_SCALARS, TRAJECTORY_JSON);
    ReadBackArtifacts(v.id, None, v.artifacts, 0);
    UnknownHasNoSteps(t, v.id);
    WithTrajectoryArtifacts(t, v);
  }

  /** Creating a trajectory stores it so that reading returns it unchanged. */
  lemma CreateRefines(t: Tables, v: Trajectory)
    requires Invariant(t) && Create(t, v).Ok?
    ensures var t' := Create(t, v).tables;
            && Invariant(t') && t'.trajectories.Keys == t.trajectories.Keys + {v.id} && View(t', v.id) == v
            && forall i :: i in t.trajectories ==> i != v.id && View(t', i) == View(t, i)
  {
    AcceptedTrajectoryFits(t, v);
    WithTrajectoryKeepsInvariant(t, v);
    WithTrajectoryView(t, v);
    forall i | i in t.trajectories ensures i != v.id && View(WithTrajectory(t, v), i) == View(t, i) {
      WithTrajectoryArtifacts(t, v);
      SameRowsSameView(t, WithTrajectory(t, v), i);
    }
  }

  // Appending a top-level artifact

  lemma {:induction false} ReadArtifactsAppend(rows: seq<ArtifactRow>, more: seq<ArtifactRow>)
    ensures ReadArtifacts(rows + more) == ReadArtifacts(rows) + ReadArtifacts(more)
  {
  }

  lemma WithArtifactKeepsInvariant(t: Tables, id: TrajectoryId, a: Artifact)
    requires Invariant(t) && id in t.trajectories
    ensures Invariant(WithArtifact(t, id, a, NextPosition(t.artifacts, id)))
  {
    var n := |ArtifactsOf(t.artifacts, id, None)|;
    assert PositionsIntact(ArtifactsOf(t.artifacts, id, None));
    NextPositionCounts(t.artifacts, id);
    GrownArtifacts(t.artifacts, id, None, [a], n);
    var t' := WithArtifact(t, id, a, n);
    OwnersSurvive(t, t', ArtifactRows(id, None, [a], n), id, None);
    forall i | i in t'.trajectories ensures TrajectoryIntact(t', i) {
      assert TrajectoryIntact(t, i);
    }
  }

  lemma WithArtifactAt(t: Tables, id: TrajectoryId, a: Artifact, n: nat, i: TrajectoryId, owner: Option<StepId>)
    requires i != id || owner.Some?
    ensures ArtifactsOf(WithArtifact(t, id, a, n).artifacts, i, owner) == ArtifactsOf(t.artifacts, i, owner)
  {
    ArtifactsOfAppend(t.artifacts, ArtifactRows(id, None, [a], n), id, None, i, owner);
  }

  lemma WithArtifactView(t: Tables, id: TrajectoryId, a: Artifact, n: nat)
    requires id in t.trajectories && ArtifactsOk([a])
    ensures View(WithArtifact(t, id, a, n), id) == View(t, id).(artifacts := View(t, id).artifacts + [a])
  {
    var t', more := WithArtifact(t, id, a, n), ArtifactRows(id, None, [a], n);
    ArtifactsOfAppend(t.artifacts, more, id, None, id, None);
    ReadBackArtifacts(id, None, [a], n);
    ReadArtifactsAppend(ArtifactsOf(t.artifacts, id, None), more);
    var ss := StepsOf(t.steps, id);
    forall k | 0 <= k < |ss| ensures ViewSteps(t', id)[k] == ViewSteps(t, id)[k] {
      WithArtifactAt(t, id, a, n, ss[k].trajectoryId, Some(ss[k].id));
    }
    assert ViewSteps(t', id) == ViewSteps(t, id);
  }

  lemma WithArtifactOthers(t: Tables, id: TrajectoryId, a: Artifact, n: nat, i: TrajectoryId)
    requires i in t.trajectories && i != id
    ensures View(WithArtifact(t, id, a, n), i) == View(t, i)
  {
    forall o: Option<StepId> ensures ArtifactsOf(WithArtifact(t, id, a, n).artifacts, i, o) == ArtifactsOf(t.artifacts, i, o) {
      WithArtifactAt(t, id, a, n, i, o);
    }
    SameRowsSameView(t, WithArtifact(t, id, a, n), i);
  }

  /** Appending a top-level artifact appends exactly it and touches no step. */
  lemma AppendArtifactRefines(t: Tables, id: TrajectoryId, a: Artifact)
    requires Invariant(t) && AppendArtifact(t, id, a).Ok?
    ensures var t' := AppendArtifact(t, id, a).tables;
            && Invariant(t') && id in t.trajectories && t'.trajectories.Keys == t.trajectories.Keys
            && View(t', id) == View(t, id).(artifacts := View(t, id).artifacts + [a])
            && forall i :: i in t.trajectories && i != id ==> View(t', i) == View(t, i)
  {
    WithArtifactKeepsInvariant(t, id, a);
    var n := NextPosition(t.artifacts, id);
    WithArtifactView(t, id, a, n);
    forall i | i in t.trajectories && i != id ensures View(WithArtifact(t, id, a, n), i) == View(t, i) {
      WithArtifactOthers(t, id, a, n, i);
    }
  }

  // Metadata updates and pruning

  function WithHeader(t: Tables, id: TrajectoryId, v: Trajectory): Tables
    requires id in t.trajectories
  {
    t.(trajectories := t.trajectories[id := TrajectoryToRow(v, t.trajectories[id].nextSequence)])
  }

  lemma WithHeaderKeepsInvariant(t: Tables, id: TrajectoryId, v: Trajectory)
    requires Invariant(t) && id in t.trajectories && HeaderOk(v)
    ensures Invariant(WithHeader(t, id, v))
  {
    var t' := WithHeader(t, id, v);
    FieldsRoundTrip(v.fields, TRAJECTORY_SCALARS, TRAJECTORY_JSON);
    forall i | i in t'.trajectories ensures TrajectoryIntact(t', i) {
      assert TrajectoryIntact(t, i);
    }
  }

  lemma WithHeaderView(t: Tables, id: TrajectoryId, v: Trajectory)
    requires id in t.trajectories && HeaderOk(v)
    ensures View(WithHeader(t, id, v), id) ==
            View(t, id).(status := v.status, completedAt := v.completedAt, fields := v.fields)
  {
    FieldsRoundTrip(v.fields, TRAJECTORY_SCALARS, TRAJECTORY_JSON);
    assert ViewSteps(WithHeader(t, id, v), id) == ViewSteps(t, id);
  }

  /** Field by field: a given value replaces, an undefined optional field goes, an undefined defaulted one
      is reset, and a field that is not mentioned stays. */
  lemma UpdateIsFieldwise(v: Trajectory, u: Update, k: string)
    requires UpdateOk(u)
    ensures var f, g := v.fields, Updated(v, u).fields;
            && (k !in u.fields ==> (k in g <==> k in f) && (k in f ==> g[k] == f[k]))
            && (k in u.fields && u.fields[k].Some? ==> k in g && g[k] == u.fields[k].value)
            && (k in u.fields && u.fields[k] == None ==>
                 && (k in OPTIONAL_FIELDS ==> k !in g)
                 && (k == "attributes" ==> k in g && g[k] == Obj([]))
                 && (k == "labels" || k == "modelUsage" ==> k in g && g[k] == Arr([])))
  {
  }

  /** A metadata update changes only status, completion time and the fields it mentions. */
  lemma UpdateRefines(t: Tables, id: TrajectoryId, u: Update)
    requires Invariant(t) && UpdateMetadata(t, id, u).Ok?
    ensures var t' := UpdateMetadata(t, id, u).tables;
            && Invariant(t') && id in t.trajectories && t'.trajectories.Keys == t.trajectories.Keys
            && View(t', id) == Updated(View(t, id), u)
            && forall i :: i in t.trajectories && i != id ==> View(t', i) == View(t, i)
  {
    AssembleIsView(t, id);
    var v := Updated(View(t, id), u);
    WithHeaderKeepsInvariant(t, id, v);
    WithHeaderView(t, id, v);
    forall i | i in t.trajectories && i != id ensures View(WithHeader(t, id, v), i) == View(t, i) {
      SameRowsSameView(t, WithHeader(t, id, v), i);
    }
  }

  lemma {:induction false} KeptStepsCount(rows: seq<StepRow>, gone: set<TrajectoryId>)
    ensures |KeptSteps(rows, gone)| + CountSteps(rows, gone) == |rows|
    decreases |rows|
  {
    if rows != [] {
      var n := |rows| - 1;
      KeptStepsCount(rows[..n], gone);
      CountStepsAppend(rows[..n], rows[n], gone);
      assert rows == rows[..n] + [rows[n]];
    }
  }

  lemma {:induction false} CountStepsAppend(rows: seq<StepRow>, r: StepRow, gone: set<TrajectoryId>)
    ensures CountSteps(rows + [r], gone) == CountSteps(rows, gone) + if r.trajectoryId in gone then 1 else 0
    decreases |rows|
  {
    if rows == [] {
      assert rows + [r] == [r];
    } else {
      assert (rows + [r])[1..] == rows[1..] + [r];
      CountStepsAppend(rows[1..], r, gone);
    }
  }

  lemma {:induction false} KeptArtifactsCount(rows: seq<ArtifactRow>, gone: set<TrajectoryId>)
    ensures |KeptArtifacts(rows, gone)| + CountArtifacts(rows, gone) == |rows|
    decreases |rows|
  {
    if rows != [] {
      var n := |rows| - 1;
      KeptArtifactsCount(rows[..n], gone);
      CountArtifactsAppend(rows[..n], rows[n], gone);
      assert rows == rows[..n] + [rows[n]];
    }
  }

  lemma {:induction false} CountArtifactsAppend(rows: seq<ArtifactRow>, r: ArtifactRow, gone: set<TrajectoryId>)
    ensures CountArtifacts(rows + [r], gone) == CountArtifacts(rows, gone) + if r.trajectoryId in gone then 1 else 0
    decreases |rows|
  {
    if rows == [] {
      assert rows + [r] == [r];
    } else {
      assert (rows + [r])[1..] == rows[1..] + [r];
      CountArtifactsAppend(rows[1..], r, gone);
    }
  }

  lemma {:induction false} KeptStepsHas(rows: seq<StepRow>, gone: set<TrajectoryId>, r: StepRow)
    ensures r in KeptSteps(rows, gone) <==> r in rows && r.trajectoryId !in gone
    decreases |rows|
  {
    if rows != [] {
      var n := |rows| - 1;
      KeptStepsHas(rows[..n], gone, r);
      assert rows == rows[..n] + [rows[n]];
    }
  }

  lemma {:induction false} KeptArtifactsHas(rows: seq<ArtifactRow>, gone: set<TrajectoryId>, r: ArtifactRow)
    ensures r in KeptArtifacts(rows, gone) <==> r in rows && r.trajectoryId !in gone
    decreases |rows|
  {
    if rows != [] {
      var n := |rows| - 1;
      KeptArtifactsHas(rows[..n], gone, r);
      assert rows == rows[..n] + [rows[n]];
    }
  }

  /** The reported counts are exactly the rows that pruning removes from each table. */
  lemma PruneCountsRemovedRows(t: Tables, cutoff: int)
    ensures var (p, t') := Prune(t, cutoff);
            && p.trajectories == |t.trajectories| - |t'.trajectories|
            && p.steps == |t.steps| - |t'.steps|
            && p.artifacts == |t.artifacts| - |t'.artifacts|
  {
    var gone := PrunedIds(t, cutoff);
    KeptStepsCount(t.steps, gone);
    KeptArtifactsCount(t.artifacts, gone);
    assert (t.trajectories - gone).Keys == t.trajectories.Keys - gone;
    assert gone <= t.trajectories.Keys;
    assert |(t.trajectories - gone).Keys| == |t.trajectories.Keys| - |gone|;
  }

  lemma PruneKeepsOwners(t: Tables, gone: set<TrajectoryId>)
    requires OwnersExist(t)
    ensures OwnersExist(Tables(t.trajectories - gone, KeptSteps(t.steps, gone), KeptArtifacts(t.artifacts, gone)))
  {
    var t' := Tables(t.trajectories - gone, KeptSteps(t.steps, gone), KeptArtifacts(t.artifacts, gone));
    forall s | s in t'.steps ensures s.trajectoryId in t'.trajectories {
      KeptStepsHas(t.steps, gone, s);
    }
    forall r | r in t'.artifacts
      ensures r.trajectoryId in t'.trajectories && (r.owner.Some? ==> StepExists(t', r.trajectoryId, r.owner.value))
    {
      KeptArtifactsHas(t.artifacts, gone, r);
      if r.owner.Some? {
        assert StepExists(t, r.trajectoryId, r.owner.value);
        var s :| s in t.steps && s.trajectoryId == r.trajectoryId && s.id == r.owner.value;
        KeptStepsHas(t.steps, gone, s);
      }
    }
  }

  /** Pruning removes exactly the terminal trajectories before the cutoff and leaves no orphan row. */
  lemma PruneRefines(t: Tables, cutoff: int)
    requires Invariant(t)
    ensures var t' := Prune(t, cutoff).1;
            && Invariant(t')
            && (forall i :: i in t'.trajectories <==> i in t.trajectories && !PrunableId(t, i, cutoff))
            && (forall i :: i in t'.trajectories ==> View(t', i) == View(t, i))
  {
    var gone, t' := PrunedIds(t, cutoff), Prune(t, cutoff).1;
    PruneKeepsOwners(t, gone);
    forall i, o: Option<StepId>
      ensures PositionsIntact(ArtifactsOf(t'.artifacts, i, o))
      ensures i !in gone ==> ArtifactsOf(t'.artifacts, i, o) == ArtifactsOf(t.artifacts, i, o)
    {
      ArtifactsOfKept(t.artifacts, gone, i, o);
      assert PositionsIntact(ArtifactsOf(t.artifacts, i, o));
    }
    forall i | i in t'.trajectories ensures TrajectoryIntact(t', i) && View(t', i) == View(t, i) {
      assert TrajectoryIntact(t, i);
      StepsOfKept(t.steps, gone, i);
      SameRowsSameView(t, t', i);
    }
  }
}
