/** One integration setup flow and its step journal: rows, table constraints and the transitions
    that the store applies to them. Timestamps are milliseconds; wall clocks may jump either way.
 */
module SetupFlow {
  import opened Wrappers

  datatype Error = NotFound | RevisionConflict | FlowHasExpired | IllegalTransition | BadArgument | ConstraintViolation

  datatype Result<+T> = Ok(value: T) | Err(error: Error)

  datatype FlowStatus =
    | AwaitingInput | AwaitingOAuth | AwaitingConfirmation | Discovering
    | FlowCompleted | FlowFailed | FlowCancelled | FlowExpired

  datatype AuthStatus = Unknown | AuthActive | AuthExpired | Revoked | ReauthenticationRequired | AuthFailed

  datatype StepKind = Instruction | CredentialInput | OAuth | Diagnostic

  datatype StepStatus = Pending | Active | Completed | Failed

  const MAX_REVISION := 2147483647
  const MAX_ATTEMPTS := 1000000
  const MAX_STEPS := 256
  const MAX_CANDIDATES := 256
  const DEFAULT_FLOW_TTL_MS := 1800000

  datatype Identity = Identity(
    integrationId: string, manifestVersion: string, manifestCredentialId: Option<string>,
    credentialType: string, mode: string, startRequestSha256: Option<string>)

  datatype Flow = Flow(
    identity: Identity, status: FlowStatus, authStatus: AuthStatus, currentStep: nat, revision: nat,
    failureCode: Option<string>, candidates: seq<string>,
    target: Option<string>, targetDigest: Option<string>, createAdditional: bool,
    oauthCredential: Option<string>, oauthCreateAdditional: bool,
    createdAt: int, updatedAt: int, expiresAt: int, completedAt: Option<int>)

  datatype Step = Step(
    id: string, kind: StepKind, status: StepStatus, attempts: nat, failureCode: Option<string>,
    startedAt: Option<int>, completedAt: Option<int>, createdAt: int, updatedAt: int)

  /** The step rows of one flow in position order. */
  type Journal = seq<Step>

  datatype Record = Record(flow: Flow, steps: Journal)

  predicate Terminal(s: FlowStatus)
  {
    s == FlowCompleted || s == FlowFailed || s == FlowCancelled || s == FlowExpired
  }

  // ---------------------------------------------------------------------------------------------
  // Textual checks
  // ---------------------------------------------------------------------------------------------

  predicate Lower(c: char) { 'a' <= c <= 'z' }

  predicate Digit(c: char) { '0' <= c <= '9' }

  predicate Separator(c: char) { c == '.' || c == '_' || c == '-' }

  /** Lower-case segments joined by single dots, dashes or underscores: step IDs and failure codes. */
  predicate IsSlug(s: string)
  {
    && 1 <= |s| <= 128 && Lower(s[0]) && !Separator(s[|s| - 1])
    && (forall i :: 0 <= i < |s| ==> Lower(s[i]) || Digit(s[i]) || Separator(s[i]))
    && (forall i :: 0 < i < |s| ==> !Separator(s[i - 1]) || !Separator(s[i]))
  }

  predicate IsIdentifier(s: string)
  {
    && 1 <= |s| <= 128
    && (Lower(s[0]) || Digit(s[0]) || 'A' <= s[0] <= 'Z')
    && (forall i :: 0 <= i < |s| ==>
         Lower(s[i]) || Digit(s[i]) || 'A' <= s[i] <= 'Z' || Separator(s[i]) || s[i] == ':')
  }

  predicate IsDigest(s: string)
  {
    |s| == 64 && forall i :: 0 <= i < |s| ==> Digit(s[i]) || 'a' <= s[i] <= 'f'
  }

  // ---------------------------------------------------------------------------------------------
  // Table constraints
  // ---------------------------------------------------------------------------------------------

  /** CHECK constraints of a step row. */
  predicate StepRowOk(s: Step)
  {
    && s.attempts <= MAX_ATTEMPTS
    && s.updatedAt >= s.createdAt
    && (s.startedAt.Some? ==> s.startedAt.value >= s.createdAt)
    && (s.completedAt.Some? ==> s.completedAt.value >= s.createdAt)
    && match s.status
       case Pending => s.startedAt.None? && s.completedAt.None? && s.failureCode.None?
       case Active => s.startedAt.Some? && s.completedAt.None? && s.failureCode.None?
       case Completed => s.startedAt.Some? && s.completedAt.Some? && s.failureCode.None?
       case Failed => s.startedAt.Some? && s.completedAt.Some?
  }

  predicate StepMayBecome(from: StepStatus, to: StepStatus)
  {
    || from == to
    || (from == Pending && (to == Active || to == Failed))
    || (from == Active && (to == Completed || to == Failed))
    || (from == Failed && to == Active)
  }

  predicate OtherActive(steps: Journal, i: nat)
  {
    exists j :: 0 <= j < |steps| && j != i && steps[j].status == Active
  }

  /** The update triggers of the step table. */
  predicate StepUpdateAllowed(steps: Journal, i: nat, s: Step)
    requires i < |steps|
  {
    && s.updatedAt >= steps[i].updatedAt
    && StepMayBecome(steps[i].status, s.status) && steps[i].status != Completed
    && (s.status == Active && steps[i].status != Active ==> !OtherActive(steps, i))
  }

  /** CHECK constraints of a flow row. */
  predicate FlowRowOk(f: Flow)
  {
    && 1 <= f.revision <= MAX_REVISION && f.currentStep <= 256
    && f.createdAt <= f.updatedAt && f.createdAt < f.expiresAt
    && (f.completedAt.Some? ==> f.completedAt.value >= f.createdAt)
    && (f.targetDigest.Some? ==> f.target.Some?)
    && (f.createAdditional ==> f.target.None?)
    && (f.oauthCreateAdditional ==> f.oauthCredential.None?)
    && (Terminal(f.status) <==> f.completedAt.Some?)
  }

  /** The update trigger of the flow table. */
  predicate FlowUpdateAllowed(f: Flow, g: Flow)
  {
    && g.identity == f.identity && g.createdAt == f.createdAt && g.expiresAt == f.expiresAt
    && g.revision == f.revision + 1
    && f.currentStep <= g.currentStep <= f.currentStep + 1
    && g.updatedAt >= f.updatedAt
    && !Terminal(f.status)
  }

  // ---------------------------------------------------------------------------------------------
  // Row updates
  // ---------------------------------------------------------------------------------------------

  function Later(candidate: int, persisted: int): int
  {
    if candidate >= persisted then candidate else persisted
  }

  function Coalesce<T>(a: Option<T>, b: T): Option<T>
  {
    if a.Some? then a else Some(b)
  }

  function StepRowAfter(s: Step, status: StepStatus, code: Option<string>, now: int): Step
  {
    match status
    case Active => s.(status := Active, attempts := s.attempts + 1, failureCode := None,
                      startedAt := Some(now), completedAt := None, updatedAt := now)
    case Completed => s.(status := Completed, failureCode := None, completedAt := Some(now), updatedAt := now)
    case Failed => s.(status := Failed, attempts := s.attempts + (if s.status == Pending then 1 else 0),
                      failureCode := code, startedAt := Coalesce(s.startedAt, now),
                      completedAt := Some(now), updatedAt := now)
    case Pending => s
  }

  function UpdateStep(steps: Journal, i: nat, status: StepStatus, code: Option<string>, now: int): (r: Result<Journal>)
    requires i < |steps|
    ensures r.Ok? ==> |r.value| == |steps|
  {
    if status == steps[i].status then Ok(steps)
    else if status == Pending then Err(IllegalTransition)
    else
      var s := StepRowAfter(steps[i], status, code, now);
      if StepRowOk(s) && StepUpdateAllowed(steps, i, s) then Ok(steps[i := s]) else Err(ConstraintViolation)
  }

  function CommitFlow(f: Flow, g: Flow, steps: Journal): Result<Record>
  {
    if FlowRowOk(g) && FlowUpdateAllowed(f, g) then Ok(Record(g, steps)) else Err(ConstraintViolation)
  }

  /** Position of the first step at or after `from` with the given status, `|steps|` if there is none. */
  function FirstWith(steps: Journal, status: StepStatus, from: nat): (i: nat)
    requires from <= |steps|
    ensures from <= i <= |steps| && (i < |steps| ==> steps[i].status == status)
    ensures forall j :: from <= j < i ==> steps[j].status != status
    decreases |steps| - from
  {
    if from == |steps| || steps[from].status == status then from else FirstWith(steps, status, from + 1)
  }

  function FindStep(steps: Journal, id: string, from: nat): (i: nat)
    requires from <= |steps|
    ensures from <= i <= |steps| && (i < |steps| ==> steps[i].id == id)
    decreases |steps| - from
  {
    if from == |steps| || steps[from].id == id then from else FindStep(steps, id, from + 1)
  }

  // ---------------------------------------------------------------------------------------------
  // Transactions on one flow
  // ---------------------------------------------------------------------------------------------

  function Guard(f: Flow, expected: nat): Result<()>
  {
    if f.revision != expected then Err(RevisionConflict) else Ok(())
  }

  function GuardMutable(f: Flow, now: int): Result<()>
  {
    if f.status == FlowExpired || now >= f.expiresAt then Err(FlowHasExpired)
    else if Terminal(f.status) then Err(IllegalTransition)
    else Ok(())
  }

  datatype Blueprint = Blueprint(id: string, kind: StepKind)

  predicate BlueprintsOk(plan: seq<Blueprint>)
  {
    && |plan| <= MAX_STEPS
    && (forall i :: 0 <= i < |plan| ==> IsSlug(plan[i].id))
    && (forall i, j :: 0 <= i < j < |plan| ==> plan[i].id != plan[j].id)
  }

  function FreshJournal(plan: seq<Blueprint>, now: int): (j: Journal)
    ensures |j| == |plan|
  {
    seq(|plan|, i requires 0 <= i < |plan| => Step(plan[i].id, plan[i].kind, Pending, 0, None, None, None, now, now))
  }

  function Initialize(r: Record, expected: nat, plan: seq<Blueprint>, checkedAt: int, wall: int): Result<Record>
  {
    if !(1 <= expected <= MAX_REVISION) || !BlueprintsOk(plan) then Err(BadArgument)
    else if Guard(r.flow, expected).Err? then Err(Guard(r.flow, expected).error)
    else if GuardMutable(r.flow, checkedAt).Err? then Err(GuardMutable(r.flow, checkedAt).error)
    else if r.steps != [] then Err(IllegalTransition)
    else
      var now := Later(wall, r.flow.updatedAt);
      CommitFlow(r.flow, r.flow.(revision := r.flow.revision + 1, updatedAt := now), FreshJournal(plan, now))
  }

  function StatusForStep(k: StepKind): FlowStatus
  {
    match k
    case OAuth => AwaitingOAuth
    case Diagnostic => Discovering
    case _ => AwaitingInput
  }

  /** Complete the active step, activate the next pending one, finish the flow when none is left. */
  function Advance(r: Record, expected: nat, checkedAt: int, wall: int): Result<Record>
  {
    if !(1 <= expected <= MAX_REVISION) then Err(BadArgument)
    else if Guard(r.flow, expected).Err? then Err(Guard(r.flow, expected).error)
    else if GuardMutable(r.flow, checkedAt).Err? then Err(GuardMutable(r.flow, checkedAt).error)
    else
      var now := Later(wall, r.flow.updatedAt);
      var moved := AdvanceSteps(r.steps, r.flow.currentStep, now);
      if moved.Err? then Err(moved.error)
      else CommitFlow(r.flow, Advanced(r.flow, moved.value.1, moved.value.2, now), moved.value.0)
  }

  /** The journal, flow status and position after moving one step on. */
  function AdvanceSteps(steps: Journal, position: nat, now: int): Result<(Journal, FlowStatus, nat)>
  {
    var a := FirstWith(steps, Active, 0);
    var closed := if a < |steps| then UpdateStep(steps, a, Completed, None, now) else Ok(steps);
    if closed.Err? then Err(closed.error)
    else
      var next := FirstWith(steps, Pending, if a < |steps| then a + 1 else 0);
      if next == |steps| then Ok((closed.value, FlowCompleted, position))
      else
        var begun := UpdateStep(closed.value, next, Active, None, now);
        if begun.Err? then Err(begun.error)
        else Ok((begun.value, StatusForStep(steps[next].kind), next))
  }

  function Advanced(f: Flow, status: FlowStatus, position: nat, now: int): Flow
  {
    f.(status := status, currentStep := position, revision := f.revision + 1, failureCode := None,
       updatedAt := now, completedAt := if Terminal(status) then Some(now) else None)
  }

  datatype StepChange = StepChange(id: string, status: StepStatus, failureCode: Option<string>)

  /** An optional field is absent (`None`), null (`Some(None)`) or set. */
  datatype Transition = Transition(
    status: Option<FlowStatus>, authStatus: Option<AuthStatus>, failureCode: Option<Option<string>>,
    target: Option<Option<string>>, targetDigest: Option<Option<string>>, createAdditional: Option<bool>,
    oauthCredential: Option<Option<string>>, oauthCreateAdditional: Option<bool>, step: Option<StepChange>)

  const NoChange := Transition(None, None, None, None, None, None, None, None, None)

  predicate CodeOk(c: Option<string>) { c.Some? ==> IsSlug(c.value) }

  function ApplyStepChange(r: Record, change: Option<StepChange>, now: int): Result<(Journal, nat)>
  {
    if change == None then Ok((r.steps, r.flow.currentStep))
    else
      var c := change.value;
      if !IsSlug(c.id) then Err(BadArgument)
      else
        var i := FindStep(r.steps, c.id, 0);
        if i == |r.steps| then Err(IllegalTransition)
        else if !CodeOk(c.failureCode) then Err(BadArgument)
        else
          var u := UpdateStep(r.steps, i, c.status, c.failureCode, now);
          if u.Err? then Err(u.error)
          else Ok((u.value, if c.status == Active then i else r.flow.currentStep))
  }

  /** Completing with an active step is illegal; any other terminal status fails that step. */
  function SettleActiveStep(steps: Journal, status: FlowStatus, failureCode: Option<string>, now: int): Result<Journal>
  {
    var a := FirstWith(steps, Active, 0);
    if a == |steps| then Ok(steps)
    else if status == FlowCompleted then Err(IllegalTransition)
    else if Terminal(status) then
      UpdateStep(steps, a, Failed,
                 if status == FlowCancelled then Some("flow_cancelled")
                 else if status == FlowExpired then Some("flow_expired")
                 else Coalesce(failureCode, "flow_failed"), now)
    else Ok(steps)
  }

  function NextTarget(f: Flow, t: Transition): Option<string>
  {
    if t.target == None then f.target else t.target.value
  }

  function NextDigest(f: Flow, t: Transition): Option<string>
  {
    if NextTarget(f, t) == None then None
    else if t.targetDigest == None then
      if t.target != None && t.target.value != f.target then None else f.targetDigest
    else t.targetDigest.value
  }

  function NextCreateAdditional(f: Flow, t: Transition): bool
  {
    if t.createAdditional == None then NextTarget(f, t) == None && f.createAdditional
    else t.createAdditional.value
  }

  function NextOAuthCredential(f: Flow, t: Transition): Option<string>
  {
    if t.oauthCredential == None then f.oauthCredential else t.oauthCredential.value
  }

  function NextOAuthCreateAdditional(f: Flow, t: Transition): bool
  {
    if t.oauthCreateAdditional == None then f.oauthCreateAdditional else t.oauthCreateAdditional.value
  }

  function NextFlow(f: Flow, t: Transition, status: FlowStatus, position: nat, failureCode: Option<string>, now: int): Flow
  {
    f.(status := status, authStatus := if t.authStatus == None then f.authStatus else t.authStatus.value,
       currentStep := position, revision := f.revision + 1, failureCode := failureCode,
       target := NextTarget(f, t), targetDigest := NextDigest(f, t), createAdditional := NextCreateAdditional(f, t),
       oauthCredential := NextOAuthCredential(f, t), oauthCreateAdditional := NextOAuthCreateAdditional(f, t),
       updatedAt := now, completedAt := if Terminal(status) then Some(now) else None)
  }

  /** The credential fields of a transition, and the new row under the constraints of the table. */
  function FinishTransition(
      f: Flow, t: Transition, status: FlowStatus, position: nat, failureCode: Option<string>, steps: Journal, now: int): Result<Record>
  {
    if t.target.Some? && t.target.value.Some? && !IsIdentifier(t.target.value.value) then Err(BadArgument)
    else if NextTarget(f, t) != None && t.targetDigest.Some? && t.targetDigest.value.Some? &&
            !IsDigest(t.targetDigest.value.value) then Err(BadArgument)
    else if NextCreateAdditional(f, t) && NextTarget(f, t) != None then Err(IllegalTransition)
    else if t.oauthCredential.Some? && t.oauthCredential.value.Some? &&
            !IsIdentifier(t.oauthCredential.value.value) then Err(BadArgument)
    else if NextOAuthCreateAdditional(f, t) && NextOAuthCredential(f, t) != None then Err(IllegalTransition)
    else CommitFlow(f, NextFlow(f, t, status, position, failureCode, now), steps)
  }

  function TransitionFlow(r: Record, expected: nat, t: Transition, wall: int): Result<Record>
  {
    var f := r.flow;
    if !(1 <= expected <= MAX_REVISION) then Err(BadArgument)
    else if f.revision != expected then Err(RevisionConflict)
    else if f.status == FlowExpired then Err(FlowHasExpired)
    else if Terminal(f.status) then Err(IllegalTransition)
    else
      var status := if t.status == None then f.status else t.status.value;
      if wall >= f.expiresAt && status != FlowExpired then Err(FlowHasExpired)
      else
        var now := Later(wall, f.updatedAt);
        if t.authStatus == Some(Unknown) && f.authStatus != Unknown then Err(IllegalTransition)
        else if t.failureCode != None && !CodeOk(t.failureCode.value) then Err(BadArgument)
        else
          var failureCode := if t.failureCode == None then f.failureCode else t.failureCode.value;
          var changed := ApplyStepChange(r, t.step, now);
          if changed.Err? then Err(changed.error)
          else
            var settled := SettleActiveStep(changed.value.0, status, failureCode, now);
            if settled.Err? then Err(settled.error)
            else FinishTransition(f, t, status, changed.value.1, failureCode, settled.value, now)
  }

  predicate Distinct(ids: seq<string>)
  {
    forall i, j :: 0 <= i < j < |ids| ==> ids[i] != ids[j]
  }

  /** A bounded list of distinct credential IDs. */
  predicate CandidateListOk(ids: seq<string>)
  {
    |ids| <= MAX_CANDIDATES && (forall i :: 0 <= i < |ids| ==> IsIdentifier(ids[i])) && Distinct(ids)
  }

  function SetCandidates(r: Record, expected: nat, ids: seq<string>, known: set<string>, checkedAt: int, wall: int): Result<Record>
  {
    if !(1 <= expected <= MAX_REVISION) || !CandidateListOk(ids) then Err(BadArgument)
    else if Guard(r.flow, expected).Err? then Err(Guard(r.flow, expected).error)
    else if GuardMutable(r.flow, checkedAt).Err? then Err(GuardMutable(r.flow, checkedAt).error)
    else if exists i :: 0 <= i < |ids| && ids[i] !in known then Err(BadArgument)
    else
      CommitFlow(r.flow, r.flow.(candidates := ids, revision := r.flow.revision + 1,
                                 updatedAt := Later(wall, r.flow.updatedAt)), r.steps)
  }

  function ClearCandidates(r: Record, expected: nat, checkedAt: int, wall: int): Result<Record>
  {
    if !(1 <= expected <= MAX_REVISION) then Err(BadArgument)
    else if Guard(r.flow, expected).Err? then Err(Guard(r.flow, expected).error)
    else if GuardMutable(r.flow, checkedAt).Err? then Err(GuardMutable(r.flow, checkedAt).error)
    else
      CommitFlow(r.flow, r.flow.(candidates := [], revision := r.flow.revision + 1,
                                 updatedAt := Later(wall, r.flow.updatedAt)), r.steps)
  }

  function ExpireOne(r: Record, expected: nat, at: int, wall: int): Result<Record>
  {
    if !(1 <= expected <= MAX_REVISION) then Err(BadArgument)
    else if r.flow.revision != expected then Err(RevisionConflict)
    else if r.flow.status == FlowExpired then Err(FlowHasExpired)
    else if at < r.flow.expiresAt then Err(IllegalTransition)
    else TransitionFlow(r, expected, NoChange.(status := Some(FlowExpired)), wall)
  }

  predicate Due(f: Flow, cutoff: int)
  {
    !Terminal(f.status) && f.expiresAt <= cutoff
  }

  /** The batch expiry of one due flow: every active step fails, the flow expires. */
  function ExpireDue(r: Record, cutoff: int): Result<Record>
  {
    var now := Later(cutoff, r.flow.updatedAt);
    var steps := seq(|r.steps|, i requires 0 <= i < |r.steps| =>
      if r.steps[i].status == Active
      then StepRowAfter(r.steps[i], Failed, Some("flow_expired"), now) else r.steps[i]);
    if exists i :: 0 <= i < |steps| && r.steps[i].status == Active &&
                   !(StepRowOk(steps[i]) && steps[i].updatedAt >= r.steps[i].updatedAt)
    then Err(ConstraintViolation)
    else
      CommitFlow(r.flow, r.flow.(status := FlowExpired, failureCode := Some("flow_expired"),
                                 revision := r.flow.revision + 1, updatedAt := now, completedAt := Some(now)), steps)
  }
}
