/** What each transaction of the setup store answers: when it is accepted, what the flow and its steps then
    say, and why it is refused, with statuses, limits and codes written out.
 */
module SetupAnswers {
  import opened Alphabet
  import opened SetupFlow
  import opened SetupFlowLaws
  import opened SetupStore
  import opened Wrappers

  predicate Live(s: FlowStatus)
  {
    s == AwaitingInput || s == AwaitingOAuth || s == AwaitingConfirmation || s == Discovering
  }

  lemma TerminalMeansEnded(s: FlowStatus)
    ensures Terminal(s) <==> !Live(s)
  {
  }

  // ---------------------------------------------------------------------------------------------
  // One step
  // ---------------------------------------------------------------------------------------------

  /** Pending steps may start or fail, active ones end, failed ones start again; completed ones stay. */
  predicate MayTurn(from: StepStatus, to: StepStatus)
  {
    || (from == Pending && (to == Active || to == Failed))
    || (from == Active && (to == Completed || to == Failed))
    || (from == Failed && to == Active)
  }

  /** A start counts as an attempt, and so does a failure before any start. */
  function Turned(s: Step, to: StepStatus, code: Option<string>, now: int): Step
  {
    if to == Active then
      Step(s.id, s.kind, Active, s.attempts + 1, None, Some(now), None, s.createdAt, now)
    else if to == Completed then
      Step(s.id, s.kind, Completed, s.attempts, None, s.startedAt, Some(now), s.createdAt, now)
    else if s.startedAt == None then
      Step(s.id, s.kind, Failed, s.attempts + 1, code, Some(now), Some(now), s.createdAt, now)
    else
      Step(s.id, s.kind, Failed, s.attempts, code, s.startedAt, Some(now), s.createdAt, now)
  }

  predicate NoOtherActive(steps: Journal, i: nat)
  {
    forall j :: 0 <= j < |steps| && j != i ==> steps[j].status != Active
  }

  /** Updating a step, exactly: the same status changes nothing; back to pending is illegal; any other change
      is accepted if the steps allow it. */
  lemma StepUpdateIsExact(steps: Journal, i: nat, status: StepStatus, code: Option<string>, now: int)
    requires i < |steps| && JournalOk(steps, now)
    ensures var s, u := steps[i], UpdateStep(steps, i, status, code, now);
            && (s.status == status ==> u == Ok(steps))
            && (s.status != status && status == Pending ==> u == Err(IllegalTransition))
            && (s.status != status && status != Pending ==>
                 if MayTurn(s.status, status) && (status == Active ==> NoOtherActive(steps, i)) &&
                    Turned(s, status, code, now).attempts <= 1000000
                 then u == Ok(steps[i := Turned(s, status, code, now)])
                 else u == Err(ConstraintViolation))
  {
    assert StepInTime(steps[i], now);
  }

  // ---------------------------------------------------------------------------------------------
  // Initialization
  // ---------------------------------------------------------------------------------------------

  function Latest(wall: int, f: Flow): int
  {
    if wall > f.updatedAt then wall else f.updatedAt
  }

  /** At most 256 steps with distinct slugs as IDs. */
  predicate PlanOk(plan: seq<Blueprint>)
  {
    |plan| <= 256 && (forall i :: 0 <= i < |plan| ==> IsSlug(plan[i].id)) &&
    forall i, j :: 0 <= i < |plan| && 0 <= j < |plan| && i != j ==> plan[i].id != plan[j].id
  }

  /** A revision within the 32-bit range, as the caller must state it. */
  predicate RevisionInRange(expected: nat)
  {
    1 <= expected <= 2147483647
  }

  /** The refusals shared by all guarded mutations, in their order; `None` if there is none. */
  function Guarded(f: Flow, expected: nat, checkedAt: int): Option<Error>
  {
    if expected != f.revision then Some(RevisionConflict)
    else if f.status == FlowExpired || f.expiresAt <= checkedAt then Some(FlowHasExpired)
    else if !Live(f.status) then Some(IllegalTransition)
    else None
  }

  lemma InitializeIsExact(r: Record, expected: nat, plan: seq<Blueprint>, checkedAt: int, wall: int)
    requires FlowInvariant(r)
    ensures var i, refused := Initialize(r, expected, plan, checkedAt, wall), Guarded(r.flow, expected, checkedAt);
            if !RevisionInRange(expected) || !PlanOk(plan) then i == Err(BadArgument)
            else if refused.Some? then i == Err(refused.value)
            else if |r.steps| > 0 then i == Err(IllegalTransition)
            else if expected == 2147483647 then i == Err(ConstraintViolation)
            else i.Ok? && i.value.flow == r.flow.(revision := expected + 1, updatedAt := Latest(wall, r.flow))
                 && |i.value.steps| == |plan|
    ensures var i, now := Initialize(r, expected, plan, checkedAt, wall), Latest(wall, r.flow);
            i.Ok? ==> forall k :: 0 <= k < |i.value.steps| ==>
              i.value.steps[k] == Step(plan[k].id, plan[k].kind, Pending, 0, None, None, None, now, now)
  {
  }

  /** At most 256 different identifiers. */
  ghost predicate ListFits(ids: seq<string>)
  {
    && |ids| <= 256 && (forall i :: 0 <= i < |ids| ==> IsIdentifier(ids[i]))
    && forall i, j :: 0 <= i < j < |ids| ==> ids[i] != ids[j]
  }

  /** Setting the candidates, and clearing them: the first refusal, or the flow with the new list. */
  lemma CandidatesAnswerExactly(r: Record, expected: nat, ids: seq<string>, known: set<string>, checkedAt: int, wall: int)
    requires FlowInvariant(r)
    ensures var q, refused := SetCandidates(r, expected, ids, known, checkedAt, wall), Guarded(r.flow, expected, checkedAt);
            if !RevisionInRange(expected) || !ListFits(ids) then q == Err(BadArgument)
            else if refused.Some? then q == Err(refused.value)
            else if exists i :: 0 <= i < |ids| && ids[i] !in known then q == Err(BadArgument)
            else if expected == 2147483647 then q == Err(ConstraintViolation)
            else q == Ok(Record(r.flow.(candidates := ids, revision := expected + 1, updatedAt := Latest(wall, r.flow)), r.steps))
    ensures var q, refused := ClearCandidates(r, expected, checkedAt, wall), Guarded(r.flow, expected, checkedAt);
            if !RevisionInRange(expected) then q == Err(BadArgument)
            else if refused.Some? then q == Err(refused.value)
            else if expected == 2147483647 then q == Err(ConstraintViolation)
            else q == Ok(Record(r.flow.(candidates := [], revision := expected + 1, updatedAt := Latest(wall, r.flow)), r.steps))
  {
    TerminalMeansEnded(r.flow.status);
    assert CandidateListOk(ids) <==> ListFits(ids);
  }

  // ---------------------------------------------------------------------------------------------
  // Advancing
  // ---------------------------------------------------------------------------------------------

  /** The first pending step after the active one, or the first pending step if none is active. */
  predicate OpensNext(steps: Journal, i: nat)
    requires i < |steps|
  {
    && steps[i].status == Pending
    && (forall j :: i < j < |steps| ==> steps[j].status != Active)
    && (forall j :: 0 <= j < i && steps[j].status == Pending ==> exists k :: j < k < i && steps[k].status == Active)
  }

  /** Refusals of an advance, and what an accepted one does to every step and to the flow. */
  lemma AdvanceRefuses(r: Record, expected: nat, checkedAt: int, wall: int)
    requires FlowInvariant(r)
    ensures var a, refused := Advance(r, expected, checkedAt, wall), Guarded(r.flow, expected, checkedAt);
            && (!RevisionInRange(expected) ==> a == Err(BadArgument))
            && (RevisionInRange(expected) && refused.Some? ==> a == Err(refused.value))
            && (a.Ok? ==> RevisionInRange(expected) && refused.None?)
  {
  }

  lemma FirstsAreExact(steps: Journal, i: nat)
    requires OneActive(steps) && i < |steps|
    ensures var a := FirstWith(steps, Active, 0);
            && (i == a <==> steps[i].status == Active)
            && (i == FirstWith(steps, Pending, if a < |steps| then a + 1 else 0) <==> OpensNext(steps, i))
  {
    var a := FirstWith(steps, Active, 0);
    var n := FirstWith(steps, Pending, if a < |steps| then a + 1 else 0);
    if OpensNext(steps, i) && a < |steps| {
      assert a < i;
    }
  }

  lemma AdvanceStepsAre(steps: Journal, position: nat, before: int, now: int, i: nat)
    requires JournalOk(steps, before) && before <= now && AdvanceSteps(steps, position, now).Ok? && i < |steps|
    ensures var (all, status, at) := AdvanceSteps(steps, position, now).value;
            && |all| == |steps|
            && all[i] == (if steps[i].status == Active then Turned(steps[i], Completed, None, now)
                          else if OpensNext(steps, i) then Turned(steps[i], Active, None, now) else steps[i])
            && (OpensNext(steps, i) ==> at == i && Awaits(status, steps[i].kind))
  {
    FirstsAreExact(steps, i);
    assert StepInTime(steps[i], before);
    ClosingLeavesNoneActive(steps, before, now);
  }

  lemma AdvanceStepsEnd(steps: Journal, position: nat, now: int)
    requires OneActive(steps) && AdvanceSteps(steps, position, now).Ok?
    ensures var (_, status, at) := AdvanceSteps(steps, position, now).value;
            if exists i :: 0 <= i < |steps| && OpensNext(steps, i) then Live(status)
            else status == FlowCompleted && at == position
  {
    var a := FirstWith(steps, Active, 0);
    var n := FirstWith(steps, Pending, if a < |steps| then a + 1 else 0);
    if n < |steps| {
      FirstsAreExact(steps, n);
    } else {
      forall i | 0 <= i < |steps| ensures !OpensNext(steps, i) {
        FirstsAreExact(steps, i);
      }
    }
  }

  /** What an advance at `now` makes of the flow, given the new status, position and journal. */
  lemma AdvanceCommits(r: Record, expected: nat, checkedAt: int, wall: int)
    requires Advance(r, expected, checkedAt, wall).Ok?
    ensures var q, now := Advance(r, expected, checkedAt, wall).value, Latest(wall, r.flow);
            var moved := AdvanceSteps(r.steps, r.flow.currentStep, now);
            && moved.Ok? && q.steps == moved.value.0 && expected == r.flow.revision
            && q.flow == r.flow.(status := moved.value.1, currentStep := moved.value.2, revision := expected + 1,
                                 failureCode := None, updatedAt := now,
                                 completedAt := if Live(moved.value.1) then None else Some(now))
  {
    TerminalMeansEnded(AdvanceSteps(r.steps, r.flow.currentStep, Latest(wall, r.flow)).value.1);
  }

  /** An accepted advance, from any journal, step by step: the active step completes and the first pending
      step after it starts. */
  lemma AdvanceMovesSteps(r: Record, expected: nat, checkedAt: int, wall: int)
    requires FlowInvariant(r) && Advance(r, expected, checkedAt, wall).Ok?
    ensures var q, now := Advance(r, expected, checkedAt, wall).value, Latest(wall, r.flow);
            && |q.steps| == |r.steps|
            && (forall i :: 0 <= i < |r.steps| ==>
                 q.steps[i] == if r.steps[i].status == Active then Turned(r.steps[i], Completed, None, now)
                               else if OpensNext(r.steps, i) then Turned(r.steps[i], Active, None, now) else r.steps[i])
  {
    var now := Latest(wall, r.flow);
    AdvanceCommits(r, expected, checkedAt, wall);
    AdvanceKeepsInvariant(r, expected, checkedAt, wall);
    ClosingLeavesNoneActive(r.steps, r.flow.updatedAt, now);
    forall i | 0 <= i < |r.steps| {
      AdvanceStepsAre(r.steps, r.flow.currentStep, r.flow.updatedAt, now, i);
    }
  }

  /** And the flow: the opened step gives it its status and position; without one it completes where it stands. */
  lemma AdvanceMovesFlow(r: Record, expected: nat, checkedAt: int, wall: int)
    requires FlowInvariant(r) && Advance(r, expected, checkedAt, wall).Ok?
    ensures var f, g, now := r.flow, Advance(r, expected, checkedAt, wall).value.flow, Latest(wall, r.flow);
            && (forall i :: 0 <= i < |r.steps| && OpensNext(r.steps, i) ==>
                 g.currentStep == i && Awaits(g.status, r.steps[i].kind) && g.completedAt == None)
            && ((forall i :: 0 <= i < |r.steps| ==> !OpensNext(r.steps, i)) ==>
                 g.currentStep == f.currentStep && g.status == FlowCompleted && g.completedAt == Some(now))
            && g == f.(status := g.status, currentStep := g.currentStep, revision := expected + 1,
                       failureCode := None, updatedAt := now, completedAt := g.completedAt)
  {
    var now := Latest(wall, r.flow);
    AdvanceCommits(r, expected, checkedAt, wall);
    AdvanceStepsEnd(r.steps, r.flow.currentStep, now);
    forall i | 0 <= i < |r.steps| && OpensNext(r.steps, i)
      ensures var (_, status, at) := AdvanceSteps(r.steps, r.flow.currentStep, now).value; at == i && Awaits(status, r.steps[i].kind)
    {
      AdvanceStepsAre(r.steps, r.flow.currentStep, r.flow.updatedAt, now, i);
    }
  }

  // ---------------------------------------------------------------------------------------------
  // Expiry and the codes of ended flows
  // ---------------------------------------------------------------------------------------------

  /** All active steps, of which there is at most one, fail with the code. */
  ghost predicate FailsActive(steps: Journal, later: Journal, code: Option<string>, now: int)
  {
    |later| == |steps| && forall i :: 0 <= i < |steps| ==>
      later[i] == if steps[i].status == Active then Turned(steps[i], Failed, code, now) else steps[i]
  }

  /** Expiring a due flow always succeeds below the revision limit; its active step fails with it. */
  lemma ExpireDueIsExact(r: Record, cutoff: int)
    requires FlowInvariant(r) && Live(r.flow.status)
    ensures ExpireDue(r, cutoff).Ok? <==> r.flow.revision < 2147483647
    ensures !ExpireDue(r, cutoff).Ok? ==> ExpireDue(r, cutoff) == Err(ConstraintViolation)
    ensures var now := Latest(cutoff, r.flow);
            ExpireDue(r, cutoff).Ok? ==>
              var q := ExpireDue(r, cutoff).value;
              && q.flow == r.flow.(status := FlowExpired, failureCode := Some("flow_expired"),
                                   revision := r.flow.revision + 1, updatedAt := now, completedAt := Some(now))
              && FailsActive(r.steps, q.steps, Some("flow_expired"), now)
  {
    forall i | 0 <= i < |r.steps| ensures StepInTime(r.steps[i], r.flow.updatedAt) {
    }
  }

  /** The code with which a flow's active step fails when the flow ends without completing. */
  function EndingCode(status: FlowStatus, failureCode: Option<string>): Option<string>
  {
    match status
    case FlowCancelled => Some("flow_cancelled")
    case FlowExpired => Some("flow_expired")
    case _ => if failureCode == None then Some("flow_failed") else failureCode
  }

  lemma FailingTheOne(steps: Journal, a: nat, code: Option<string>, now: int)
    requires OneActive(steps) && a < |steps| && steps[a].status == Active
    ensures FailsActive(steps, steps[a := Turned(steps[a], Failed, code, now)], code, now)
  {
  }

  lemma ActiveStepFails(steps: Journal, a: nat, code: Option<string>, now: int)
    requires JournalOk(steps, now) && a < |steps| && steps[a].status == Active
    ensures var u := UpdateStep(steps, a, Failed, code, now); u.Ok? && FailsActive(steps, u.value, code, now)
  {
    assert StepInTime(steps[a], now);
    StepUpdateIsExact(steps, a, Failed, code, now);
    FailingTheOne(steps, a, code, now);
  }

  /** Ending a flow, exactly: completing is illegal while a step is active; any other ending fails it. */
  lemma SettlingIsExact(steps: Journal, status: FlowStatus, failureCode: Option<string>, now: int)
    requires JournalOk(steps, now)
    ensures var r := SettleActiveStep(steps, status, failureCode, now);
            if (forall i :: 0 <= i < |steps| ==> steps[i].status != Active) || Live(status) then r == Ok(steps)
            else if status == FlowCompleted then r == Err(IllegalTransition)
            else r.Ok? && FailsActive(steps, r.value, EndingCode(status, failureCode), now)
  {
    var a := FirstWith(steps, Active, 0);
    TerminalMeansEnded(status);
    if a < |steps| {
      ActiveStepFails(steps, a, EndingCode(status, failureCode), now);
    }
  }

  lemma JournalOkLater(steps: Journal, before: int, now: int)
    requires JournalOk(steps, before) && before <= now
    ensures JournalOk(steps, now)
  {
    forall i | 0 <= i < |steps| ensures StepInTime(steps[i], now) {
      assert StepInTime(steps[i], before);
    }
  }

  /** Expiring one flow: once its time is over, at the expected revision, while it is live. */
  lemma ExpireOneIsExact(r: Record, expected: nat, at: int, wall: int)
    requires FlowInvariant(r)
    ensures var e, f := ExpireOne(r, expected, at, wall), r.flow;
            if !RevisionInRange(expected) then e == Err(BadArgument)
            else if expected != f.revision then e == Err(RevisionConflict)
            else if f.status == FlowExpired then e == Err(FlowHasExpired)
            else if at < f.expiresAt || !Live(f.status) then e == Err(IllegalTransition)
            else if expected == 2147483647 then e == Err(ConstraintViolation)
            else e.Ok? && e.value.flow == f.(status := FlowExpired, revision := expected + 1, updatedAt := Latest(wall, f),
                                             completedAt := Some(Latest(wall, f)))
  {
    JournalOkLater(r.steps, r.flow.updatedAt, Latest(wall, r.flow));
    SettlingIsExact(r.steps, FlowExpired, r.flow.failureCode, Latest(wall, r.flow));
  }

  /** Its active step fails with it. */
  lemma ExpireOneFailsActive(r: Record, expected: nat, at: int, wall: int)
    requires FlowInvariant(r) && ExpireOne(r, expected, at, wall).Ok?
    ensures FailsActive(r.steps, ExpireOne(r, expected, at, wall).value.steps, Some("flow_expired"), Latest(wall, r.flow))
  {
    JournalOkLater(r.steps, r.flow.updatedAt, Latest(wall, r.flow));
    SettlingIsExact(r.steps, FlowExpired, r.flow.failureCode, Latest(wall, r.flow));
  }

  // ---------------------------------------------------------------------------------------------
  // Transitions
  // ---------------------------------------------------------------------------------------------

  /** The first step with the ID. */
  predicate Named(steps: Journal, id: string, i: nat)
    requires i < |steps|
  {
    steps[i].id == id && forall j :: 0 <= j < i ==> steps[j].id != id
  }

  lemma FindsNamed(steps: Journal, id: string, from: nat)
    requires from <= |steps|
    ensures forall j :: from <= j < FindStep(steps, id, from) ==> steps[j].id != id
    decreases |steps| - from
  {
  }

  predicate CodeFits(code: Option<string>)
  {
    code == None || IsSlug(code.value)
  }

  /** Changing a step by name: what is wrong with the change, or the updated journal and the new position. */
  lemma StepChangeIsExact(r: Record, c: StepChange, now: int, i: nat)
    ensures var a := ApplyStepChange(r, Some(c), now);
            && (!IsSlug(c.id) ==> a == Err(BadArgument))
            && (IsSlug(c.id) && (forall j :: 0 <= j < |r.steps| ==> r.steps[j].id != c.id) ==> a == Err(IllegalTransition))
            && (IsSlug(c.id) && i < |r.steps| && Named(r.steps, c.id, i) ==>
                 var u := UpdateStep(r.steps, i, c.status, c.failureCode, now);
                 if !CodeFits(c.failureCode) then a == Err(BadArgument)
                 else if u.Err? then a == Err(u.error)
                 else a == Ok((u.value, if c.status == Active then i else r.flow.currentStep)))
    ensures ApplyStepChange(r, None, now) == Ok((r.steps, r.flow.currentStep))
  {
    FindsNamed(r.steps, c.id, 0);
  }

  /** The refusals before anything of the journal is looked at, in their order. */
  function TransitionRefusal(f: Flow, expected: nat, t: Transition, wall: int): Option<Error>
  {
    if !RevisionInRange(expected) then Some(BadArgument)
    else if expected != f.revision then Some(RevisionConflict)
    else if f.status == FlowExpired then Some(FlowHasExpired)
    else if !Live(f.status) then Some(IllegalTransition)
    else if f.expiresAt <= wall && t.status != Some(FlowExpired) then Some(FlowHasExpired)
    else if t.authStatus == Some(Unknown) && f.authStatus != Unknown then Some(IllegalTransition)
    else if t.failureCode.Some? && !CodeFits(t.failureCode.value) then Some(BadArgument)
    else None
  }

  /** The value that a field takes: the one asked for, or the one it had. */
  function Taken<T>(asked: Option<T>, before: T): T
  {
    match asked
    case None => before
    case Some(x) => x
  }

  /** The refusals of the credential fields, in their order. */
  function CredentialRefusal(f: Flow, t: Transition): Option<Error>
  {
    var target, oauth := Taken(t.target, f.target), Taken(t.oauthCredential, f.oauthCredential);
    if t.target.Some? && target.Some? && !IsIdentifier(target.value) then Some(BadArgument)
    else if target.Some? && t.targetDigest.Some? && t.targetDigest.value.Some? && !IsDigest(t.targetDigest.value.value)
    then Some(BadArgument)
    else if target.Some? && t.createAdditional == Some(true) then Some(IllegalTransition)
    else if t.oauthCredential.Some? && oauth.Some? && !IsIdentifier(oauth.value) then Some(BadArgument)
    else if oauth.Some? && Taken(t.oauthCreateAdditional, f.oauthCreateAdditional) then Some(IllegalTransition)
    else None
  }

  lemma TransitionRefusesFirst(r: Record, expected: nat, t: Transition, wall: int)
    requires FlowInvariant(r) && TransitionRefusal(r.flow, expected, t, wall).Some?
    ensures TransitionFlow(r, expected, t, wall) == Err(TransitionRefusal(r.flow, expected, t, wall).value)
  {
    TerminalMeansEnded(r.flow.status);
  }

  lemma TransitionConcludes(r: Record, expected: nat, t: Transition, wall: int)
    requires TransitionRefusal(r.flow, expected, t, wall).None?
    ensures var q, f, now := TransitionFlow(r, expected, t, wall), r.flow, Latest(wall, r.flow);
            var changed, status, code := ApplyStepChange(r, t.step, now), Taken(t.status, f.status), Taken(t.failureCode, f.failureCode);
            if changed.Err? then q == Err(changed.error)
            else
              var settled := SettleActiveStep(changed.value.0, status, code, now);
              if settled.Err? then q == Err(settled.error)
              else q == FinishTransition(f, t, status, changed.value.1, code, settled.value, now)
  {
    TerminalMeansEnded(r.flow.status);
  }

  /** The credential fields, then the last word of the constraints: the revision limit, and a position that moves
      on by at most one. */
  lemma FinishIsExact(r: Record, t: Transition, position: nat, steps: Journal, now: int)
    requires FlowInvariant(r) && Live(r.flow.status) && r.flow.updatedAt <= now
    ensures var f, wrong := r.flow, CredentialRefusal(r.flow, t);
            var q := FinishTransition(f, t, Taken(t.status, f.status), position, Taken(t.failureCode, f.failureCode), steps, now);
            if wrong.Some? then q == Err(wrong.value)
            else if f.revision < 2147483647 && f.currentStep <= position <= f.currentStep + 1 && position <= 256
            then q.Ok? && q.value.steps == steps && q.value.flow.currentStep == position
            else q == Err(ConstraintViolation)
  {
    TerminalMeansEnded(Taken(t.status, r.flow.status));
  }

  /** A transition, exactly: refused for the first thing that is wrong with it, else committed with the changed
      and settled journal. */
  lemma TransitionIsExact(r: Record, expected: nat, t: Transition, wall: int)
    requires FlowInvariant(r)
    ensures var q, f, now := TransitionFlow(r, expected, t, wall), r.flow, Latest(wall, r.flow);
            var refused, changed, wrong := TransitionRefusal(f, expected, t, wall), ApplyStepChange(r, t.step, now), CredentialRefusal(f, t);
            if refused.Some? then q == Err(refused.value)
            else if changed.Err? then q == Err(changed.error)
            else
              var (steps, position) := changed.value;
              var settled := SettleActiveStep(steps, Taken(t.status, f.status), Taken(t.failureCode, f.failureCode), now);
              if settled.Err? then q == Err(settled.error)
              else if wrong.Some? then q == Err(wrong.value)
              else if f.revision < 2147483647 && f.currentStep <= position <= f.currentStep + 1 && position <= 256
              then q.Ok? && q.value.steps == settled.value && q.value.flow.currentStep == position
              else q == Err(ConstraintViolation)
  {
    if TransitionRefusal(r.flow, expected, t, wall).Some? {
      TransitionRefusesFirst(r, expected, t, wall);
    } else {
      TransitionConcludes(r, expected, t, wall);
      var now := Latest(wall, r.flow);
      var changed := ApplyStepChange(r, t.step, now);
      if changed.Ok? {
        var settled := SettleActiveStep(changed.value.0, Taken(t.status, r.flow.status), Taken(t.failureCode, r.flow.failureCode), now);
        if settled.Ok? {
          FinishIsExact(r, t, changed.value.1, settled.value, now);
        }
      }
    }
  }

  // ---------------------------------------------------------------------------------------------
  // Texts
  // ---------------------------------------------------------------------------------------------

  lemma ClassesAreAlphabets(c: char)
    ensures Lower(c) <==> c in LETTERS
    ensures Digit(c) <==> c in DIGITS
    ensures 'A' <= c <= 'Z' <==> c in CAPITALS
    ensures Separator(c) <==> c in "._-"
  {
    InConsecutive('a', 26, c);
    InConsecutive('A', 26, c);
    InConsecutive('0', 10, c);
    assert "._-"[0] == '.' && "._-"[1] == '_' && "._-"[2] == '-';
  }

  /** What may follow the first letter: letters and digits, and single separators before one of them. */
  predicate SlugRest(s: string)
  {
    s == "" ||
    (s[0] in LETTERS + DIGITS && SlugRest(s[1..])) ||
    (s[0] in "._-" && |s| > 1 && s[1] in LETTERS + DIGITS && SlugRest(s[2..]))
  }

  /** The same by single characters, for a text that follows `before`. */
  predicate Spaced(before: char, s: string)
  {
    && (s != "" ==> !Separator(s[|s| - 1]))
    && (forall i :: 0 <= i < |s| ==> Lower(s[i]) || Digit(s[i]) || Separator(s[i]))
    && (forall i :: 0 < i < |s| ==> !Separator(s[i - 1]) || !Separator(s[i]))
    && (s != "" ==> !Separator(before) || !Separator(s[0]))
  }

  lemma {:induction false} SlugRestIsSpaced(before: char, s: string)
    requires !Separator(before)
    ensures SlugRest(s) <==> Spaced(before, s)
    decreases |s|
  {
    if s != "" {
      ClassesAreAlphabets(s[0]);
      if |s| > 1 {
        ClassesAreAlphabets(s[1]);
      }
      if !Separator(s[0]) {
        SlugRestIsSpaced(s[0], s[1..]);
        SpacedOneOn(before, s);
      } else if |s| > 1 && !Separator(s[1]) {
        SlugRestIsSpaced(s[1], s[2..]);
        SpacedOneOn(s[0], s[1..]);
        SpacedOneOn(before, s);
        assert s[1..][1..] == s[2..];
      }
    }
  }

  lemma SpacedOneOn(before: char, s: string)
    requires s != ""
    ensures Spaced(before, s) <==>
            && (Lower(s[0]) || Digit(s[0]) || Separator(s[0])) && (!Separator(before) || !Separator(s[0]))
            && (|s| == 1 ==> !Separator(s[0])) && Spaced(s[0], s[1..])
  {
    var r := s[1..];
    assert forall i :: 0 <= i < |r| ==> r[i] == s[i + 1];
    if Spaced(s[0], r) {
      forall i | 0 < i < |s| ensures (!Separator(s[i - 1]) || !Separator(s[i])) && (Lower(s[i]) || Digit(s[i]) || Separator(s[i])) {
        assert s[i] == r[i - 1];
        if i > 1 {
          assert s[i - 1] == r[i - 2];
        }
      }
    }
  }

  /** Step IDs and failure codes: 1 to 128 characters, a small letter and then segments joined by single dots,
      dashes or underscores. */
  lemma SlugsAreSegments(s: string)
    ensures IsSlug(s) <==> 1 <= |s| <= 128 && s[0] in LETTERS && SlugRest(s[1..])
  {
    if 1 <= |s| <= 128 {
      ClassesAreAlphabets(s[0]);
      if Lower(s[0]) {
        SlugRestIsSpaced(s[0], s[1..]);
        SpacedOneOn('a', s);
      }
    }
  }

  predicate IdentifierUnit(c: char)
  {
    c in LETTERS + CAPITALS + DIGITS + "._:-"
  }

  /** Identifiers: 1 to 128 letters, digits, dots, dashes, underscores and colons, the first a letter or digit;
      digests: 64 small hexadecimal digits. */
  lemma IdentifiersAndDigests(s: string)
    ensures IsIdentifier(s) <==>
            1 <= |s| <= 128 && s[0] in LETTERS + CAPITALS + DIGITS && forall i :: 0 <= i < |s| ==> IdentifierUnit(s[i])
    ensures IsDigest(s) <==> |s| == 64 && forall i :: 0 <= i < |s| ==> s[i] in DIGITS + Consecutive('a', 6)
  {
    forall i | 0 <= i < |s|
      ensures IdentifierUnit(s[i]) <==> Lower(s[i]) || Digit(s[i]) || 'A' <= s[i] <= 'Z' || Separator(s[i]) || s[i] == ':'
      ensures s[i] in LETTERS + CAPITALS + DIGITS <==> Lower(s[i]) || Digit(s[i]) || 'A' <= s[i] <= 'Z'
      ensures s[i] in DIGITS + Consecutive('a', 6) <==> Digit(s[i]) || 'a' <= s[i] <= 'f'
    {
      IdentifierUnits(s[i]);
    }
  }

  lemma IdentifierUnits(c: char)
    ensures IdentifierUnit(c) <==> Lower(c) || Digit(c) || 'A' <= c <= 'Z' || Separator(c) || c == ':'
    ensures c in LETTERS + CAPITALS + DIGITS <==> Lower(c) || Digit(c) || 'A' <= c <= 'Z'
    ensures c in DIGITS + Consecutive('a', 6) <==> Digit(c) || 'a' <= c <= 'f'
  {
    ClassesAreAlphabets(c);
    InConsecutive('a', 6, c);
    assert "._:-"[0] == '.' && "._:-"[1] == '_' && "._:-"[2] == ':' && "._:-"[3] == '-';
  }

  // ---------------------------------------------------------------------------------------------
  // Flows in the store
  // ---------------------------------------------------------------------------------------------

  /** When a new flow is accepted, and what it is: awaiting input, of unknown authentication, at revision 1,
      with no step and no candidate, and half an hour to live unless told otherwise. */
  lemma CreateIsExact(t: Tables, id: FlowId, n: NewFlow, now: int)
    ensures var (r, t') := CreateStep(t, id, n, now);
            var expiry := if n.expiresAt == None then now + 1800000 else n.expiresAt.value;
            var fits := && IsIdentifier(id) && now < expiry
                        && (n.targetDigest == None || (n.target != None && IsDigest(n.targetDigest.value)))
                        && !(n.createAdditional && n.target != None) && !(n.oauthCreateAdditional && n.oauthCredential != None);
            && (r == Refused(BadArgument) <==> !fits)
            && (r == Refused(ConstraintViolation) <==> fits && id in t.flows)
            && (r == Done <==> fits && id !in t.flows)
            && (r != Done ==> t' == t)
            && (r == Done ==>
                 && t'.envelopes == t.envelopes && id in t'.flows && t'.flows[id].steps == []
                 && (forall other :: other != id ==> (other in t'.flows <==> other in t.flows))
                 && (forall other :: other != id && other in t.flows ==> t'.flows[other] == t.flows[other])
                 && t'.flows[id].flow == Flow(n.identity, AwaitingInput, Unknown, 0, 1, None, [], n.target, n.targetDigest,
                                              n.createAdditional, n.oauthCredential, n.oauthCreateAdditional, now, now, expiry, None))
  {
  }

  /** The flow's record is replaced, an ended flow loses all of its envelopes and a live one none, and nothing
      else in the store changes. */
  ghost predicate Replaces(t: Tables, t': Tables, id: FlowId, q: Record)
  {
    && id in t'.flows && t'.flows[id] == q
    && (forall other :: other != id ==> (other in t'.flows <==> other in t.flows))
    && (forall other :: other != id && other in t.flows ==> t'.flows[other] == t.flows[other])
    && (forall e :: e in t'.envelopes <==> e in t.envelopes && (t.envelopes[e].flowId != id || Live(q.flow.status)))
    && (forall e :: e in t'.envelopes ==> t'.envelopes[e] == t.envelopes[e])
  }

  lemma CommittedReplaces(t: Tables, id: FlowId, q: Record)
    ensures Replaces(t, Tables(t.flows[id := q], if Terminal(q.flow.status) then Purged(t.envelopes, id) else t.envelopes), id, q)
  {
    TerminalMeansEnded(q.flow.status);
  }

  /** A mutation of a stored flow is the mutation of its record. */
  lemma MutationInStoreIsExact(t: Tables, id: FlowId, m: Mutation)
    ensures var (r, t') := MutateStep(t, id, m);
            var bad := !IsIdentifier(id) || !RevisionInRange(m.expected) || (m.DoInitialize? && !PlanOk(m.plan)) ||
                       (m.DoSetCandidates? && !CandidateListOk(m.ids));
            if bad then r == Refused(BadArgument) && t' == t
            else if id !in t.flows then r == Refused(NotFound) && t' == t
            else if Mutate(t.flows[id], m).Err? then r == Refused(Mutate(t.flows[id], m).error) && t' == t
            else r == Done && Replaces(t, t', id, Mutate(t.flows[id], m).value)
  {
    ArgumentsAreExact(m);
    if id in t.flows && Mutate(t.flows[id], m).Ok? {
      CommittedReplaces(t, id, Mutate(t.flows[id], m).value);
    }
  }

  lemma ArgumentsAreExact(m: Mutation)
    ensures ArgumentsOk(m) <==>
            RevisionInRange(m.expected) && (m.DoInitialize? ==> PlanOk(m.plan)) && (m.DoSetCandidates? ==> CandidateListOk(m.ids))
  {
  }

  predicate IsDue(f: Flow, cutoff: int)
  {
    Live(f.status) && f.expiresAt <= cutoff
  }

  predicate Stale(t: Tables, v: Envelope, cutoff: int)
  {
    v.expiresAt <= cutoff || (v.flowId in t.flows && IsDue(t.flows[v.flowId].flow, cutoff))
  }

  /** The batch expiry, exactly: all due flows expire or, at the revision limit of any of them, none does; the
      reply counts them; and envelopes that have expired or belong to them go. */
  lemma ExpireAllIsExact(t: Tables, cutoff: int)
    requires Invariant(t)
    ensures var (r, t') := ExpireDueStep(t, cutoff);
            if exists id :: id in t.flows && IsDue(t.flows[id].flow, cutoff) && t.flows[id].flow.revision >= 2147483647
            then r == Refused(ConstraintViolation) && t' == t
            else
              && r == Expired(|set id | id in t.flows && IsDue(t.flows[id].flow, cutoff)|)
              && t'.flows.Keys == t.flows.Keys
              && (forall id :: id in t.flows ==>
                   if IsDue(t.flows[id].flow, cutoff) then Ok(t'.flows[id]) == ExpireDue(t.flows[id], cutoff)
                   else t'.flows[id] == t.flows[id])
              && (forall e :: e in t'.envelopes <==> e in t.envelopes && !Stale(t, t.envelopes[e], cutoff))
              && (forall e :: e in t'.envelopes ==> t'.envelopes[e] == t.envelopes[e])
  {
    forall id | id in t.flows
      ensures Due(t.flows[id].flow, cutoff) <==> IsDue(t.flows[id].flow, cutoff)
      ensures IsDue(t.flows[id].flow, cutoff) ==> (ExpireDue(t.flows[id], cutoff).Ok? <==> t.flows[id].flow.revision < 2147483647)
    {
      TerminalMeansEnded(t.flows[id].flow.status);
      if Live(t.flows[id].flow.status) {
        ExpireDueIsExact(t.flows[id], cutoff);
      }
    }
    assert DueFlows(t, cutoff) == set id | id in t.flows && IsDue(t.flows[id].flow, cutoff);
  }

  // ---------------------------------------------------------------------------------------------
  // Envelopes
  // ---------------------------------------------------------------------------------------------

  /** An envelope lives as long as it is told to, or ten minutes but not longer than its flow. */
  function ExpiryOf(n: NewEnvelope, f: Flow, now: int): int
  {
    match n.expiresAt
    case Some(at) => at
    case None => if now + 600000 < f.expiresAt then now + 600000 else f.expiresAt
  }

  /** Another envelope that a put leaves in place carries the ID or the state. */
  ghost predicate Clashes(t: Tables, n: NewEnvelope)
  {
    exists e :: e in t.envelopes && !(t.envelopes[e].flowId == n.flowId && t.envelopes[e].purpose == n.purpose) &&
      (e == n.id || (n.state != None && t.envelopes[e].state == n.state))
  }

  /** Putting an envelope: refused for the first thing that is wrong, else it replaces the flow's envelope of
      that purpose and leaves every other. */
  lemma PutRefuses(t: Tables, n: NewEnvelope, now: int, dateNow: int)
    ensures var (r, t') := PutStep(t, n, now, dateNow);
            && (r != Done ==> t' == t)
            && if (n.purpose == StagedCredential && n.state != None) || !IsIdentifier(n.id) || !IsIdentifier(n.flowId)
               then r == Refused(BadArgument)
               else if n.flowId !in t.flows then r == Refused(NotFound)
               else
                 var f := t.flows[n.flowId].flow;
                 if f.status == FlowExpired || f.expiresAt <= dateNow then r == Refused(FlowHasExpired)
                 else if !Live(f.status) then r == Refused(IllegalTransition)
                 else if !(now < ExpiryOf(n, f, now) <= f.expiresAt) then r == Refused(BadArgument)
                 else if Clashes(t, n) then r == Refused(ConstraintViolation)
                 else r == Done
  {
    var rest := WithoutPurpose(t.envelopes, n.flowId, n.purpose);
    if e :| e in t.envelopes && !(t.envelopes[e].flowId == n.flowId && t.envelopes[e].purpose == n.purpose) &&
            (e == n.id || (n.state != None && t.envelopes[e].state == n.state)) {
      assert e in rest;
    }
    if n.flowId in t.flows {
      TerminalMeansEnded(t.flows[n.flowId].flow.status);
    }
  }

  lemma PutStores(t: Tables, n: NewEnvelope, now: int, dateNow: int)
    requires PutStep(t, n, now, dateNow).0 == Done
    ensures n.flowId in t.flows
    ensures var t' := PutStep(t, n, now, dateNow).1;
            && t'.flows == t.flows && n.id in t'.envelopes
            && t'.envelopes[n.id] ==
               Envelope(n.flowId, n.purpose, n.payload, n.state, now, ExpiryOf(n, t.flows[n.flowId].flow, now))
            && (forall e :: e != n.id ==> (e in t'.envelopes <==>
                 e in t.envelopes && !(t.envelopes[e].flowId == n.flowId && t.envelopes[e].purpose == n.purpose)))
            && (forall e :: e != n.id && e in t'.envelopes ==> t'.envelopes[e] == t.envelopes[e])
  {
  }

  /** The envelope alone goes. */
  predicate OnlyLost(t: Tables, t': Tables, e: EnvelopeId)
  {
    t'.flows == t.flows && t'.envelopes == t.envelopes - {e}
  }

  /** Reading gives a stored envelope until the moment it expires, and from then on deletes it. */
  lemma ReadIsExact(t: Tables, e: EnvelopeId, now: int)
    ensures var (r, t') := ReadStep(t, e, now);
            if !IsIdentifier(e) then r == Refused(BadArgument) && t' == t
            else if e !in t.envelopes then r == Secret(None) && t' == t
            else if now < t.envelopes[e].expiresAt then r == Secret(Some(t.envelopes[e])) && t' == t
            else r == Secret(None) && OnlyLost(t, t', e)
  {
  }

  /** Looking an envelope up by its state is reading it; a consume claims it for its purpose and deletes it
      either way; neither finds anything under a state that no envelope has. */
  lemma StateLookupsAreExact(t: Tables, e: EnvelopeId, h: StateHash, p: Purpose, now: int)
    requires Invariant(t) && e in t.envelopes && t.envelopes[e].state == Some(h)
    ensures var v, (l, tl), (c, tc) := t.envelopes[e], LookupStep(t, h, now), ConsumeStep(t, h, p, now);
            && (now < v.expiresAt ==> l == Secret(Some(v)) && tl == t)
            && (now >= v.expiresAt ==> l == Secret(None) && OnlyLost(t, tl, e))
            && (p != v.purpose ==> c == Secret(None) && tc == t)
            && (p == v.purpose ==> c == Secret(if now < v.expiresAt then Some(v) else None) && OnlyLost(t, tc, e))
  {
    assert HasState(t, h) && ByState(t, h) == e;
  }

  lemma UnknownStatesFindNothing(t: Tables, h: StateHash, p: Purpose, now: int)
    requires forall e :: e in t.envelopes ==> t.envelopes[e].state != Some(h)
    ensures LookupStep(t, h, now) == (Secret(None), t) && ConsumeStep(t, h, p, now) == (Secret(None), t)
  {
  }

  lemma DeleteIsExact(t: Tables, e: EnvelopeId)
    ensures var (r, t') := DeleteStep(t, e);
            if !IsIdentifier(e) then r == Refused(BadArgument) && t' == t
            else r == Removed(e in t.envelopes) && OnlyLost(t, t', e)
  {
  }
}
