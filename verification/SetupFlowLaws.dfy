/** What every transaction on a setup flow keeps: time order, field coherence, linear revisions,
    the frozen terminal state and, without explicit step changes, the shape of the journal.
 */
module SetupFlowLaws {
  import opened SetupFlow
  import opened Wrappers

  datatype Mutation =
    | DoInitialize(expected: nat, plan: seq<Blueprint>, checkedAt: int, wall: int)
    | DoAdvance(expected: nat, checkedAt: int, wall: int)
    | DoTransition(expected: nat, transition: Transition, wall: int)
    | DoSetCandidates(expected: nat, ids: seq<string>, known: set<string>, checkedAt: int, wall: int)
    | DoClearCandidates(expected: nat, checkedAt: int, wall: int)
    | DoExpireOne(expected: nat, at: int, wall: int)

  /** Arguments that are checked before any row is read. */
  predicate ArgumentsOk(m: Mutation)
  {
    && 1 <= m.expected <= MAX_REVISION
    && match m
       case DoInitialize(_, plan, _, _) => BlueprintsOk(plan)
       case DoSetCandidates(_, ids, _, _, _) => CandidateListOk(ids)
       case _ => true
  }

  function Mutate(r: Record, m: Mutation): Result<Record>
  {
    match m
    case DoInitialize(e, plan, c, w) => Initialize(r, e, plan, c, w)
    case DoAdvance(e, c, w) => Advance(r, e, c, w)
    case DoTransition(e, t, w) => TransitionFlow(r, e, t, w)
    case DoSetCandidates(e, ids, known, c, w) => SetCandidates(r, e, ids, known, c, w)
    case DoClearCandidates(e, c, w) => ClearCandidates(r, e, c, w)
    case DoExpireOne(e, at, w) => ExpireOne(r, e, at, w)
  }

  // ---------------------------------------------------------------------------------------------
  // The invariant of a flow and its journal
  // ---------------------------------------------------------------------------------------------

  /** The times of a step lie in order, none after `latest`; a pending step was never tried. */
  ghost predicate StepInTime(s: Step, latest: int)
  {
    && StepRowOk(s) && s.updatedAt <= latest
    && (s.status == Pending ==> s.attempts == 0)
    && (s.startedAt.Some? ==> s.startedAt.value <= latest)
    && (s.completedAt.Some? ==> s.startedAt.Some? && s.startedAt.value <= s.completedAt.value <= latest)
  }

  ghost predicate OneActive(steps: Journal)
  {
    forall i, j :: 0 <= i < j < |steps| ==> steps[i].status != Active || steps[j].status != Active
  }

  ghost predicate NoActive(steps: Journal)
  {
    forall i :: 0 <= i < |steps| ==> steps[i].status != Active
  }

  ghost predicate JournalOk(steps: Journal, latest: int)
  {
    && (forall i :: 0 <= i < |steps| ==> StepInTime(steps[i], latest))
    && OneActive(steps)
  }

  ghost predicate FlowInvariant(r: Record)
  {
    && FlowRowOk(r.flow)
    && (r.flow.completedAt.Some? ==> r.flow.completedAt.value <= r.flow.updatedAt)
    && JournalOk(r.steps, r.flow.updatedAt)
    && (Terminal(r.flow.status) ==> NoActive(r.steps))
    && Distinct(r.flow.candidates)
  }

  /** How a step row may change over time: identity stays, nothing returns to pending. */
  ghost predicate StepEvolves(s: Step, t: Step)
  {
    && t.id == s.id && t.kind == s.kind && t.createdAt == s.createdAt
    && s.attempts <= t.attempts && s.updatedAt <= t.updatedAt
    && (s.status != Pending ==> t.status != Pending)
    && (s.status == Completed ==> t == s)
  }

  ghost predicate JournalEvolves(steps: Journal, later: Journal)
  {
    steps == [] || (|later| == |steps| && forall i :: 0 <= i < |steps| ==> StepEvolves(steps[i], later[i]))
  }

  /** One committed mutation: revision by exactly one, never from a terminal status. */
  ghost predicate Evolves(r: Record, q: Record)
  {
    && !Terminal(r.flow.status) && q.flow.revision == r.flow.revision + 1
    && q.flow.identity == r.flow.identity && q.flow.createdAt == r.flow.createdAt && q.flow.expiresAt == r.flow.expiresAt
    && r.flow.updatedAt <= q.flow.updatedAt
    && (r.flow.authStatus != Unknown ==> q.flow.authStatus != Unknown)
    && JournalEvolves(r.steps, q.steps)
  }

  lemma UpdateStepKeepsJournal(steps: Journal, i: nat, status: StepStatus, code: Option<string>, before: int, now: int)
    requires i < |steps| && JournalOk(steps, before) && before <= now
    requires UpdateStep(steps, i, status, code, now).Ok?
    ensures var u := UpdateStep(steps, i, status, code, now).value;
            && JournalOk(u, now) && |u| == |steps|
            && (forall j :: 0 <= j < |steps| ==> StepEvolves(steps[j], u[j]))
            && (forall j :: 0 <= j < |steps| && j != i ==> u[j] == steps[j])
            && u[i].status == status
  {
    var u := UpdateStep(steps, i, status, code, now).value;
    forall j | 0 <= j < |steps|
      ensures StepInTime(u[j], now) && StepEvolves(steps[j], u[j])
    {
      assert StepInTime(steps[j], before);
    }
    if status == Active && status != steps[i].status {
      assert !OtherActive(steps, i);
      assert forall j :: 0 <= j < |steps| && j != i ==> steps[j].status != Active;
    }
  }

  lemma ClosingLeavesNoneActive(steps: Journal, before: int, now: int)
    requires JournalOk(steps, before) && before <= now
    ensures var a := FirstWith(steps, Active, 0);
            var closed := if a < |steps| then UpdateStep(steps, a, Completed, None, now) else Ok(steps);
            closed.Ok? ==>
              && |closed.value| == |steps| && JournalOk(closed.value, now) && NoActive(closed.value)
              && (forall j :: 0 <= j < |steps| ==> StepEvolves(steps[j], closed.value[j]))
              && (forall j :: 0 <= j < |steps| && j != a ==> closed.value[j] == steps[j])
  {
    var a := FirstWith(steps, Active, 0);
    if a < |steps| && UpdateStep(steps, a, Completed, None, now).Ok? {
      UpdateStepKeepsJournal(steps, a, Completed, None, before, now);
    } else {
      forall j | 0 <= j < |steps| ensures StepInTime(steps[j], now) && StepEvolves(steps[j], steps[j]) {
        assert StepInTime(steps[j], before);
      }
    }
  }

  /** The journal that a successful advance leaves behind. */
  lemma AdvanceStepsKeepJournal(steps: Journal, position: nat, before: int, now: int)
    requires JournalOk(steps, before) && before <= now && AdvanceSteps(steps, position, now).Ok?
    ensures var (j, status, _) := AdvanceSteps(steps, position, now).value;
            && JournalOk(j, now) && |j| == |steps|
            && (forall i :: 0 <= i < |steps| ==> StepEvolves(steps[i], j[i]))
            && (status == FlowCompleted ==> NoActive(j))
  {
    var a := FirstWith(steps, Active, 0);
    var closed := if a < |steps| then UpdateStep(steps, a, Completed, None, now) else Ok(steps);
    ClosingLeavesNoneActive(steps, before, now);
    var next := FirstWith(steps, Pending, if a < |steps| then a + 1 else 0);
    if next < |steps| {
      UpdateStepKeepsJournal(closed.value, next, Active, None, now, now);
    }
  }

  lemma AdvanceJournal(r: Record, expected: nat, checkedAt: int, wall: int)
    requires FlowInvariant(r) && Advance(r, expected, checkedAt, wall).Ok?
    ensures var q := Advance(r, expected, checkedAt, wall).value;
            && JournalOk(q.steps, q.flow.updatedAt) && |q.steps| == |r.steps|
            && (forall j :: 0 <= j < |r.steps| ==> StepEvolves(r.steps[j], q.steps[j]))
            && (q.flow.status == FlowCompleted ==> NoActive(q.steps))
  {
    AdvanceStepsKeepJournal(r.steps, r.flow.currentStep, r.flow.updatedAt, Later(wall, r.flow.updatedAt));
  }

  lemma AdvanceKeepsInvariant(r: Record, expected: nat, checkedAt: int, wall: int)
    requires FlowInvariant(r) && Advance(r, expected, checkedAt, wall).Ok?
    ensures FlowInvariant(Advance(r, expected, checkedAt, wall).value)
    ensures Evolves(r, Advance(r, expected, checkedAt, wall).value)
  {
    AdvanceJournal(r, expected, checkedAt, wall);
  }

  lemma StepChangeKeepsJournal(r: Record, change: Option<StepChange>, now: int)
    requires FlowInvariant(r) && r.flow.updatedAt <= now && ApplyStepChange(r, change, now).Ok?
    ensures var j := ApplyStepChange(r, change, now).value.0;
            JournalOk(j, now) && |j| == |r.steps| && forall i :: 0 <= i < |j| ==> StepEvolves(r.steps[i], j[i])
  {
    if change.Some? {
      var c := change.value;
      UpdateStepKeepsJournal(r.steps, FindStep(r.steps, c.id, 0), c.status, c.failureCode, r.flow.updatedAt, now);
    }
  }

  lemma SettleKeepsJournal(steps: Journal, status: FlowStatus, code: Option<string>, now: int)
    requires JournalOk(steps, now) && SettleActiveStep(steps, status, code, now).Ok?
    ensures var j := SettleActiveStep(steps, status, code, now).value;
            && JournalOk(j, now) && |j| == |steps| && (forall i :: 0 <= i < |j| ==> StepEvolves(steps[i], j[i]))
            && (Terminal(status) ==> NoActive(j))
  {
    var a := FirstWith(steps, Active, 0);
    if a < |steps| && Terminal(status) {
      UpdateStepKeepsJournal(steps, a, Failed,
        if status == FlowCancelled then Some("flow_cancelled")
        else if status == FlowExpired then Some("flow_expired") else Coalesce(code, "flow_failed"), now, now);
    }
  }

  lemma TransitionKeepsInvariant(r: Record, expected: nat, t: Transition, wall: int)
    requires FlowInvariant(r) && TransitionFlow(r, expected, t, wall).Ok?
    ensures FlowInvariant(TransitionFlow(r, expected, t, wall).value)
    ensures Evolves(r, TransitionFlow(r, expected, t, wall).value)
  {
    var f := r.flow;
    var status := if t.status == None then f.status else t.status.value;
    var now := Later(wall, f.updatedAt);
    var code := if t.failureCode == None then f.failureCode else t.failureCode.value;
    StepChangeKeepsJournal(r, t.step, now);
    SettleKeepsJournal(ApplyStepChange(r, t.step, now).value.0, status, code, now);
  }

  lemma InitializeKeepsInvariant(r: Record, expected: nat, plan: seq<Blueprint>, checkedAt: int, wall: int)
    requires FlowInvariant(r) && Initialize(r, expected, plan, checkedAt, wall).Ok?
    ensures FlowInvariant(Initialize(r, expected, plan, checkedAt, wall).value)
    ensures Evolves(r, Initialize(r, expected, plan, checkedAt, wall).value)
  {
  }

  lemma CandidatesKeepInvariant(r: Record, m: Mutation)
    requires FlowInvariant(r) && (m.DoSetCandidates? || m.DoClearCandidates?) && Mutate(r, m).Ok?
    ensures FlowInvariant(Mutate(r, m).value) && Evolves(r, Mutate(r, m).value)
  {
    forall i | 0 <= i < |r.steps| ensures StepInTime(r.steps[i], Mutate(r, m).value.flow.updatedAt) {
      assert StepInTime(r.steps[i], r.flow.updatedAt);
    }
  }

  /** Every committed mutator keeps the invariant and evolves the flow by one revision. */
  lemma MutationKeepsInvariant(r: Record, m: Mutation)
    requires FlowInvariant(r) && Mutate(r, m).Ok?
    ensures FlowInvariant(Mutate(r, m).value) && Evolves(r, Mutate(r, m).value)
  {
    match m
    case DoInitialize(e, plan, c, w) => InitializeKeepsInvariant(r, e, plan, c, w);
    case DoAdvance(e, c, w) => AdvanceKeepsInvariant(r, e, c, w);
    case DoTransition(e, t, w) => TransitionKeepsInvariant(r, e, t, w);
    case DoExpireOne(e, _, w) => TransitionKeepsInvariant(r, e, NoChange.(status := Some(FlowExpired)), w);
    case _ => CandidatesKeepInvariant(r, m);
  }

  lemma ExpiryKeepsInvariant(r: Record, cutoff: int)
    requires FlowInvariant(r) && ExpireDue(r, cutoff).Ok?
    ensures FlowInvariant(ExpireDue(r, cutoff).value) && Evolves(r, ExpireDue(r, cutoff).value)
  {
    var now := Later(cutoff, r.flow.updatedAt);
    var q := ExpireDue(r, cutoff).value;
    forall i | 0 <= i < |r.steps|
      ensures StepInTime(q.steps[i], now) && StepEvolves(r.steps[i], q.steps[i]) && q.steps[i].status != Active
    {
      assert StepInTime(r.steps[i], r.flow.updatedAt);
    }
  }

  // ---------------------------------------------------------------------------------------------
  // Field coherence
  // ---------------------------------------------------------------------------------------------

  /** A digest that survives a transition was either supplied with it or belongs to an unchanged target. */
  lemma DigestFollowsTarget(r: Record, expected: nat, t: Transition, wall: int)
    requires FlowInvariant(r) && TransitionFlow(r, expected, t, wall).Ok?
    ensures var g := TransitionFlow(r, expected, t, wall).value.flow;
            && (g.targetDigest.Some? ==>
                 g.target.Some? &&
                 (t.targetDigest == Some(g.targetDigest) || (g.targetDigest == r.flow.targetDigest && g.target == r.flow.target)))
            && (g.target != r.flow.target && t.targetDigest == None ==> g.targetDigest == None)
            && (g.createAdditional ==> g.target == None)
            && (g.oauthCreateAdditional ==> g.oauthCredential == None)
  {
  }

  /** `after` is what a transition asked for, or what was there before if it did not ask. */
  predicate AsAsked<T(==)>(asked: Option<T>, before: T, after: T)
  {
    if asked.Some? then after == asked.value else after == before
  }

  /** A transition sets exactly the fields it names; an unnamed digest or create-additional flag is kept
      only with its target. Nothing else of the flow changes but revision, times and position. */
  lemma TransitionIsFieldwise(r: Record, expected: nat, t: Transition, wall: int)
    requires TransitionFlow(r, expected, t, wall).Ok?
    ensures var f, g := r.flow, TransitionFlow(r, expected, t, wall).value.flow;
            && AsAsked(t.status, f.status, g.status) && AsAsked(t.authStatus, f.authStatus, g.authStatus)
            && AsAsked(t.failureCode, f.failureCode, g.failureCode) && AsAsked(t.target, f.target, g.target)
            && AsAsked(t.oauthCredential, f.oauthCredential, g.oauthCredential)
            && AsAsked(t.oauthCreateAdditional, f.oauthCreateAdditional, g.oauthCreateAdditional)
            && (g.target.Some? && g.target == f.target ==> AsAsked(t.targetDigest, f.targetDigest, g.targetDigest))
            && (g.target == None ==> AsAsked(t.createAdditional, f.createAdditional, g.createAdditional))
            && g.candidates == f.candidates && g.identity == f.identity
            && g.createdAt == f.createdAt && g.expiresAt == f.expiresAt
            && expected == f.revision && g.revision == f.revision + 1
            && g.updatedAt >= f.updatedAt && g.updatedAt >= wall && (g.updatedAt == f.updatedAt || g.updatedAt == wall)
            && g.completedAt == (if Terminal(g.status) then Some(g.updatedAt) else None)
  {
  }

  /** What a transition does to a step: nothing, unless it is the named step or the flow ends with this
      step active; then the named status applies and an active step fails. */
  lemma TransitionStepwise(r: Record, expected: nat, t: Transition, wall: int, i: nat)
    requires FlowInvariant(r) && TransitionFlow(r, expected, t, wall).Ok? && i < |r.steps|
    ensures var q := TransitionFlow(r, expected, t, wall).value;
            && |q.steps| == |r.steps| && q.steps[i].id == r.steps[i].id
            && (Terminal(q.flow.status) ==> q.steps[i].status != Active)
            && (t.step == None && !(Terminal(q.flow.status) && r.steps[i].status == Active) ==> q.steps[i] == r.steps[i])
            && (t.step == None && Terminal(q.flow.status) && r.steps[i].status == Active ==>
                 q.steps[i].status == Failed && q.flow.status != FlowCompleted && q.steps[i].completedAt == Some(q.flow.updatedAt))
            && (t.step.Some? && i == FindStep(r.steps, t.step.value.id, 0) && !Terminal(q.flow.status) ==>
                 q.steps[i].status == t.step.value.status)
            && (t.step.Some? && i != FindStep(r.steps, t.step.value.id, 0) && !Terminal(q.flow.status) ==>
                 q.steps[i] == r.steps[i])
  {
  }

  /** When candidates are replaced, and what is then different: the candidates, the revision and the time
      of the update, and nothing else. */
  lemma CandidatesAreReplacedExactly(r: Record, expected: nat, ids: seq<string>, known: set<string>, checkedAt: int, wall: int)
    requires FlowInvariant(r)
    ensures SetCandidates(r, expected, ids, known, checkedAt, wall).Ok? <==>
            && CandidateListOk(ids) && (forall i :: 0 <= i < |ids| ==> ids[i] in known)
            && expected == r.flow.revision < MAX_REVISION && !Terminal(r.flow.status) && checkedAt < r.flow.expiresAt
    ensures SetCandidates(r, expected, ids, known, checkedAt, wall).Ok? ==>
            var q := SetCandidates(r, expected, ids, known, checkedAt, wall).value;
            && q.steps == r.steps && q.flow.candidates == ids && q.flow.revision == r.flow.revision + 1
            && q.flow.updatedAt >= r.flow.updatedAt && q.flow.updatedAt >= wall
            && q.flow.(candidates := [], revision := 0, updatedAt := 0) == r.flow.(candidates := [], revision := 0, updatedAt := 0)
  {
  }

  /** Clearing needs no credential to exist any more: it is refused only for the flow's own sake. */
  lemma CandidatesAreClearedExactly(r: Record, expected: nat, checkedAt: int, wall: int)
    requires FlowInvariant(r)
    ensures ClearCandidates(r, expected, checkedAt, wall).Ok? <==>
            expected == r.flow.revision < MAX_REVISION && !Terminal(r.flow.status) && checkedAt < r.flow.expiresAt
    ensures ClearCandidates(r, expected, checkedAt, wall).Ok? ==>
            var q := ClearCandidates(r, expected, checkedAt, wall).value;
            && q.steps == r.steps && q.flow.candidates == [] && q.flow.revision == r.flow.revision + 1
            && q.flow.updatedAt >= r.flow.updatedAt && q.flow.updatedAt >= wall
            && q.flow.(candidates := [], revision := 0, updatedAt := 0) == r.flow.(candidates := [], revision := 0, updatedAt := 0)
  {
  }

  // ---------------------------------------------------------------------------------------------
  // The shape of the journal
  // ---------------------------------------------------------------------------------------------

  /** A mutation that names no step. */
  predicate Plain(m: Mutation)
  {
    m.DoTransition? ==> m.transition.step == None
  }

  /** Live after `k` advances: k - 1 completed steps, one active step, the rest pending. */
  ghost predicate InStage(r: Record, k: nat)
  {
    && !Terminal(r.flow.status) && k <= |r.steps|
    && r.flow.currentStep == (if k == 0 then 0 else k - 1)
    && forall i :: 0 <= i < |r.steps| ==>
         r.steps[i].status == if i + 1 < k then Completed else if i + 1 == k then Active else Pending
  }

  /** Ended in stage `k`: the active step, if there was one, completed or failed. */
  ghost predicate EndedIn(r: Record, k: nat)
  {
    && Terminal(r.flow.status) && k <= |r.steps|
    && (forall i :: 0 <= i < |r.steps| ==>
         if i + 1 < k then r.steps[i].status == Completed
         else if i + 1 == k then r.steps[i].status == Completed || r.steps[i].status == Failed
         else r.steps[i].status == Pending)
  }

  ghost predicate AllCompleted(steps: Journal)
  {
    forall i :: 0 <= i < |steps| ==> steps[i].status == Completed
  }

  /** completed* active? pending* while live, completed* failed? pending* once terminal. */
  ghost predicate Shape(r: Record)
  {
    (exists k :: InStage(r, k)) || (exists k :: EndedIn(r, k))
  }

  lemma FirstsInStage(r: Record, k: nat)
    requires InStage(r, k)
    ensures FirstWith(r.steps, Active, 0) == if k == 0 then |r.steps| else k - 1
    ensures FirstWith(r.steps, Pending, k) == k
  {
    if k > 0 {
      assert r.steps[k - 1].status == Active;
    }
  }

  /** The status of a flow while a step of the kind is active. */
  predicate Awaits(status: FlowStatus, kind: StepKind)
  {
    && (kind == OAuth <==> status == AwaitingOAuth)
    && (kind == Diagnostic <==> status == Discovering)
    && (kind == Instruction || kind == CredentialInput <==> status == AwaitingInput)
  }

  /** Advancing in stage `k` opens stage k + 1, or completes the flow from the last stage. */
  lemma AdvanceOpensNextStage(r: Record, k: nat, expected: nat, checkedAt: int, wall: int)
    requires FlowInvariant(r) && InStage(r, k) && Advance(r, expected, checkedAt, wall).Ok?
    ensures var q := Advance(r, expected, checkedAt, wall).value;
            && |q.steps| == |r.steps| && q.flow.failureCode == None
            && if k < |r.steps| then InStage(q, k + 1) && q.flow.completedAt == None && Awaits(q.flow.status, r.steps[k].kind)
               else q.flow.status == FlowCompleted && AllCompleted(q.steps) && EndedIn(q, k)
  {
    FirstsInStage(r, k);
    var now := Later(wall, r.flow.updatedAt);
    if k > 0 {
      UpdateStepKeepsJournal(r.steps, k - 1, Completed, None, r.flow.updatedAt, now);
    }
    var closed := if k > 0 then UpdateStep(r.steps, k - 1, Completed, None, now) else Ok(r.steps);
    ClosingLeavesNoneActive(r.steps, r.flow.updatedAt, now);
    if k < |r.steps| {
      UpdateStepKeepsJournal(closed.value, k, Active, None, now, now);
    }
  }

  lemma PlainTransitionKeepsStage(r: Record, k: nat, expected: nat, t: Transition, wall: int)
    requires FlowInvariant(r) && InStage(r, k) && t.step == None && TransitionFlow(r, expected, t, wall).Ok?
    ensures var q := TransitionFlow(r, expected, t, wall).value;
            && |q.steps| == |r.steps|
            && (if Terminal(q.flow.status) then EndedIn(q, k) else InStage(q, k))
            && (Terminal(q.flow.status) && |q.steps| > 0 ==> !AllCompleted(q.steps))
  {
    FirstsInStage(r, k);
    var q := TransitionFlow(r, expected, t, wall).value;
    if Terminal(q.flow.status) && |q.steps| > 0 {
      assert q.steps[if k == 0 then 0 else k - 1].status != Completed;
    }
  }

  lemma PlainKeepsStage(r: Record, k: nat, m: Mutation)
    requires FlowInvariant(r) && InStage(r, k) && Plain(m) && Mutate(r, m).Ok? && !m.DoAdvance?
    ensures var q := Mutate(r, m).value;
            && (m.DoInitialize? || |q.steps| == |r.steps|)
            && (if Terminal(q.flow.status) then EndedIn(q, k) else InStage(q, k))
            && (Terminal(q.flow.status) && |q.steps| > 0 ==> !AllCompleted(q.steps))
  {
    match m
    case DoTransition(e, t, w) => PlainTransitionKeepsStage(r, k, e, t, w);
    case DoExpireOne(e, _, w) => PlainTransitionKeepsStage(r, k, e, NoChange.(status := Some(FlowExpired)), w);
    case _ =>
  }

  lemma ExpiryKeepsShape(r: Record, k: nat, cutoff: int)
    requires FlowInvariant(r) && InStage(r, k) && ExpireDue(r, cutoff).Ok?
    ensures var q := ExpireDue(r, cutoff).value;
            && EndedIn(q, k) && |q.steps| == |r.steps| && q.flow.status == FlowExpired
            && (|q.steps| > 0 ==> !AllCompleted(q.steps))
  {
    var q := ExpireDue(r, cutoff).value;
    if |q.steps| > 0 {
      assert q.steps[if k == 0 then 0 else k - 1].status != Completed;
    }
  }

  // ---------------------------------------------------------------------------------------------
  // What the number of successful advances tells
  // ---------------------------------------------------------------------------------------------

  /** After `n` successful advances a live flow is in stage n; a terminal one ended in that stage, or after
      its last one. The steps of a non-empty journal are all completed exactly after one advance more
      than there are steps, and nothing but completion comes so late. */
  ghost predicate StageTold(r: Record, n: nat)
  {
    && n <= |r.steps| + 1
    && (!Terminal(r.flow.status) ==> InStage(r, n))
    && (Terminal(r.flow.status) ==> EndedIn(r, if n <= |r.steps| then n else |r.steps|))
    && (|r.steps| > 0 ==> (AllCompleted(r.steps) <==> n == |r.steps| + 1))
    && (r.flow.status != FlowCompleted ==> n <= |r.steps|)
  }

  lemma LiveIsNotCompleted(r: Record, k: nat)
    requires InStage(r, k) && |r.steps| > 0
    ensures !AllCompleted(r.steps)
  {
    assert r.steps[if k == 0 then 0 else k - 1].status != Completed;
  }

  lemma ToldStageHasShape(r: Record, n: nat)
    requires StageTold(r, n)
    ensures Shape(r)
  {
  }

  /** A mutation without an explicit step change keeps the tally, an advance adds one to it. */
  lemma PlainKeepsTally(r: Record, m: Mutation, n: nat)
    requires FlowInvariant(r) && StageTold(r, n) && Plain(m) && Mutate(r, m).Ok?
    ensures StageTold(Mutate(r, m).value, n + if m.DoAdvance? then 1 else 0)
  {
    MutationKeepsInvariant(r, m);
    var q := Mutate(r, m).value;
    if m.DoAdvance? {
      AdvanceOpensNextStage(r, n, m.expected, m.checkedAt, m.wall);
    } else {
      PlainKeepsStage(r, n, m);
    }
    if !Terminal(q.flow.status) && |q.steps| > 0 {
      LiveIsNotCompleted(q, n + if m.DoAdvance? then 1 else 0);
    }
  }

  lemma LiveShapeIsTold(r: Record) returns (k: nat)
    requires Shape(r) && !Terminal(r.flow.status)
    ensures StageTold(r, k)
  {
    k :| InStage(r, k);
    if |r.steps| > 0 {
      LiveIsNotCompleted(r, k);
    }
  }

  lemma ExpiryKeepsTally(r: Record, cutoff: int, n: nat)
    requires FlowInvariant(r) && StageTold(r, n) && Due(r.flow, cutoff) && ExpireDue(r, cutoff).Ok?
    ensures StageTold(ExpireDue(r, cutoff).value, n)
  {
    ExpiryKeepsShape(r, n, cutoff);
  }

  lemma ClosingSucceeds(r: Record, k: nat, now: int)
    requires FlowInvariant(r) && InStage(r, k) && k > 0 && r.flow.updatedAt <= now
    ensures UpdateStep(r.steps, k - 1, Completed, None, now).Ok?
  {
    assert StepInTime(r.steps[k - 1], r.flow.updatedAt);
  }

  lemma OpeningSucceeds(steps: Journal, k: nat, now: int)
    requires JournalOk(steps, now) && NoActive(steps) && k < |steps| && steps[k].status == Pending
    ensures UpdateStep(steps, k, Active, None, now).Ok?
  {
    assert StepInTime(steps[k], now);
  }

  lemma MovingSucceeds(r: Record, k: nat, now: int)
    requires FlowInvariant(r) && InStage(r, k) && r.flow.updatedAt <= now
    ensures AdvanceSteps(r.steps, r.flow.currentStep, now).Ok?
    ensures var (_, status, position) := AdvanceSteps(r.steps, r.flow.currentStep, now).value;
            && (status == FlowCompleted || (!Terminal(status) && k < |r.steps| && position == k))
            && (status == FlowCompleted ==> position == r.flow.currentStep)
  {
    FirstsInStage(r, k);
    var closed := if k > 0 then UpdateStep(r.steps, k - 1, Completed, None, now) else Ok(r.steps);
    if k > 0 {
      ClosingSucceeds(r, k, now);
    }
    ClosingLeavesNoneActive(r.steps, r.flow.updatedAt, now);
    if k < |r.steps| {
      OpeningSucceeds(closed.value, k, now);
    }
  }

  /** Before expiry and below the revision limit an advance is never refused. */
  lemma AdvanceSucceeds(r: Record, k: nat, checkedAt: int, wall: int)
    requires FlowInvariant(r) && InStage(r, k) && |r.steps| <= MAX_STEPS
    requires checkedAt < r.flow.expiresAt && r.flow.revision < MAX_REVISION
    ensures Advance(r, r.flow.revision, checkedAt, wall).Ok?
  {
    MovingSucceeds(r, k, Later(wall, r.flow.updatedAt));
  }

  function AdvanceAll(r: Record, clocks: seq<(int, int)>): Result<Record>
    decreases |clocks|
  {
    if clocks == [] then Ok(r)
    else
      var a := Advance(r, r.flow.revision, clocks[0].0, clocks[0].1);
      if a.Err? then a else AdvanceAll(a.value, clocks[1..])
  }

  /** From stage `k` exactly |steps| + 1 - k advances complete the flow, whatever the clocks say
      before expiry; any shorter sequence leaves it live. */
  lemma {:induction false} CompletesAfterAllStages(r: Record, k: nat, clocks: seq<(int, int)>)
    requires FlowInvariant(r) && InStage(r, k) && |r.steps| <= MAX_STEPS
    requires |clocks| <= |r.steps| + 1 - k && r.flow.revision + |clocks| <= MAX_REVISION
    requires forall i :: 0 <= i < |clocks| ==> clocks[i].0 < r.flow.expiresAt
    ensures AdvanceAll(r, clocks).Ok?
    ensures var q := AdvanceAll(r, clocks).value;
            if |clocks| == |r.steps| + 1 - k then q.flow.status == FlowCompleted && AllCompleted(q.steps)
            else InStage(q, k + |clocks|)
    decreases |clocks|
  {
    if clocks != [] {
      var (c, w) := clocks[0];
      AdvanceSucceeds(r, k, c, w);
      var a := Advance(r, r.flow.revision, c, w).value;
      AdvanceKeepsInvariant(r, r.flow.revision, c, w);
      AdvanceOpensNextStage(r, k, r.flow.revision, c, w);
      if k < |r.steps| {
        CompletesAfterAllStages(a, k + 1, clocks[1..]);
      } else {
        assert clocks[1..] == [];
      }
    }
  }
}
