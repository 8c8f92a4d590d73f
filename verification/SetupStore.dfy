/** The integration setup store: flow records, their step rows and the secret envelopes, changed by
    one immediate transaction at a time.
 */
module SetupStore {
  import opened SetupFlow
  import opened SetupFlowLaws
  import opened Wrappers

  type FlowId = string
  type EnvelopeId = string
  type StateHash = string

  datatype Purpose = Pkce | StagedOAuth | StagedCredential

  const DEFAULT_ENVELOPE_TTL_MS := 600000

  datatype Envelope = Envelope(
    flowId: FlowId, purpose: Purpose, payload: string, state: Option<StateHash>, createdAt: int, expiresAt: int)

  datatype Tables = Tables(flows: map<FlowId, Record>, envelopes: map<EnvelopeId, Envelope>)

  datatype Reply = Done | Refused(error: Error) | Expired(count: nat) | Secret(envelope: Option<Envelope>) | Removed(changed: bool)

  datatype NewFlow = NewFlow(
    identity: Identity, target: Option<string>, targetDigest: Option<string>, createAdditional: bool,
    oauthCredential: Option<string>, oauthCreateAdditional: bool, expiresAt: Option<int>)

  datatype NewEnvelope = NewEnvelope(
    id: EnvelopeId, flowId: FlowId, purpose: Purpose, payload: string, state: Option<StateHash>, expiresAt: Option<int>)

  // ---------------------------------------------------------------------------------------------
  // Transactions as functions of the tables
  // ---------------------------------------------------------------------------------------------

  function FreshFlow(n: NewFlow, now: int): Flow
  {
    Flow(n.identity, AwaitingInput, Unknown, 0, 1, None, [], n.target, n.targetDigest, n.createAdditional,
         n.oauthCredential, n.oauthCreateAdditional, now, now,
         if n.expiresAt.Some? then n.expiresAt.value else now + DEFAULT_FLOW_TTL_MS, None)
  }

  predicate NewFlowOk(n: NewFlow, now: int)
  {
    && FreshFlow(n, now).expiresAt > now
    && (n.targetDigest.Some? ==> IsDigest(n.targetDigest.value) && n.target.Some?)
    && !(n.createAdditional && n.target.Some?) && !(n.oauthCreateAdditional && n.oauthCredential.Some?)
  }

  function CreateStep(t: Tables, id: FlowId, n: NewFlow, now: int): (Reply, Tables)
  {
    if !IsIdentifier(id) || !NewFlowOk(n, now) then (Refused(BadArgument), t)
    else if id in t.flows then (Refused(ConstraintViolation), t)
    else (Done, t.(flows := t.flows[id := Record(FreshFlow(n, now), [])]))
  }

  function Purged(envelopes: map<EnvelopeId, Envelope>, id: FlowId): map<EnvelopeId, Envelope>
  {
    map e | e in envelopes && envelopes[e].flowId != id :: envelopes[e]
  }

  function MutateStep(t: Tables, id: FlowId, m: Mutation): (Reply, Tables)
  {
    if !ArgumentsOk(m) || !IsIdentifier(id) then (Refused(BadArgument), t)
    else if id !in t.flows then (Refused(NotFound), t)
    else
      match Mutate(t.flows[id], m)
      case Err(e) => (Refused(e), t)
      case Ok(r) =>
        (Done, Tables(t.flows[id := r], if Terminal(r.flow.status) then Purged(t.envelopes, id) else t.envelopes))
  }

  const ToExpired := NoChange.(status := Some(FlowExpired))

  /** What expiring one flow checks on a first read, before it starts the transition. */
  function ExpiryCheck(t: Tables, id: FlowId, expected: nat, at: int): Result<()>
  {
    if !(1 <= expected <= MAX_REVISION) || !IsIdentifier(id) then Err(BadArgument)
    else if id !in t.flows then Err(NotFound)
    else if t.flows[id].flow.revision != expected then Err(RevisionConflict)
    else if t.flows[id].flow.status == FlowExpired then Err(FlowHasExpired)
    else if at < t.flows[id].flow.expiresAt then Err(IllegalTransition)
    else Ok(())
  }

  function DueFlows(t: Tables, cutoff: int): set<FlowId>
  {
    set id | id in t.flows && Due(t.flows[id].flow, cutoff)
  }

  function ExpireDueStep(t: Tables, cutoff: int): (Reply, Tables)
  {
    var due := DueFlows(t, cutoff);
    if exists id :: id in due && ExpireDue(t.flows[id], cutoff).Err? then (Refused(ConstraintViolation), t)
    else
      (Expired(|due|),
       Tables(map id | id in t.flows :: if id in due then ExpireDue(t.flows[id], cutoff).value else t.flows[id],
              map e | e in t.envelopes && t.envelopes[e].expiresAt > cutoff && t.envelopes[e].flowId !in due
                :: t.envelopes[e]))
  }

  /** The flow check of the secret store; it reads the clock a second time. */
  function GuardSecret(f: Flow, dateNow: int): Result<()>
  {
    if f.status == FlowExpired || f.expiresAt <= dateNow then Err(FlowHasExpired)
    else if Terminal(f.status) then Err(IllegalTransition)
    else Ok(())
  }

  function EnvelopeExpiry(n: NewEnvelope, f: Flow, now: int): int
  {
    if n.expiresAt.Some? then n.expiresAt.value
    else if f.expiresAt <= now + DEFAULT_ENVELOPE_TTL_MS then f.expiresAt else now + DEFAULT_ENVELOPE_TTL_MS
  }

  predicate StateTaken(envelopes: map<EnvelopeId, Envelope>, state: Option<StateHash>)
  {
    state.Some? && exists e :: e in envelopes && envelopes[e].state == state
  }

  function WithoutPurpose(envelopes: map<EnvelopeId, Envelope>, id: FlowId, p: Purpose): map<EnvelopeId, Envelope>
  {
    map e | e in envelopes && !(envelopes[e].flowId == id && envelopes[e].purpose == p) :: envelopes[e]
  }

  function PutStep(t: Tables, n: NewEnvelope, now: int, dateNow: int): (Reply, Tables)
  {
    if (n.purpose == StagedCredential && n.state.Some?) || !IsIdentifier(n.id) || !IsIdentifier(n.flowId)
    then (Refused(BadArgument), t)
    else if n.flowId !in t.flows then (Refused(NotFound), t)
    else
      var f := t.flows[n.flowId].flow;
      if GuardSecret(f, dateNow).Err? then (Refused(GuardSecret(f, dateNow).error), t)
      else
        var expiry := EnvelopeExpiry(n, f, now);
        if expiry <= now || expiry > f.expiresAt then (Refused(BadArgument), t)
        else
          var rest := WithoutPurpose(t.envelopes, n.flowId, n.purpose);
          if n.id in rest || StateTaken(rest, n.state) then (Refused(ConstraintViolation), t)
          else
            (Done, t.(envelopes := rest[n.id := Envelope(n.flowId, n.purpose, n.payload, n.state, now, expiry)]))
  }

  function ReadStep(t: Tables, id: EnvelopeId, now: int): (Reply, Tables)
  {
    if !IsIdentifier(id) then (Refused(BadArgument), t)
    else if id !in t.envelopes then (Secret(None), t)
    else if t.envelopes[id].expiresAt <= now then (Secret(None), t.(envelopes := t.envelopes - {id}))
    else (Secret(Some(t.envelopes[id])), t)
  }

  ghost predicate HasState(t: Tables, h: StateHash)
  {
    exists e :: e in t.envelopes && t.envelopes[e].state == Some(h)
  }

  /** The unique envelope of a state hash. */
  ghost function ByState(t: Tables, h: StateHash): (e: EnvelopeId)
    requires HasState(t, h)
    ensures e in t.envelopes && t.envelopes[e].state == Some(h)
  {
    var e :| e in t.envelopes && t.envelopes[e].state == Some(h); e
  }

  ghost function LookupStep(t: Tables, h: StateHash, now: int): (Reply, Tables)
  {
    if !HasState(t, h) then (Secret(None), t)
    else
      var e := ByState(t, h);
      if t.envelopes[e].expiresAt <= now then (Secret(None), t.(envelopes := t.envelopes - {e}))
      else (Secret(Some(t.envelopes[e])), t)
  }

  /** Claim and delete the envelope of a one-time state; an expired one is deleted and not returned. */
  ghost function ConsumeStep(t: Tables, h: StateHash, p: Purpose, now: int): (Reply, Tables)
  {
    if !HasState(t, h) || t.envelopes[ByState(t, h)].purpose != p then (Secret(None), t)
    else
      var e := ByState(t, h);
      (Secret(if t.envelopes[e].expiresAt > now then Some(t.envelopes[e]) else None),
       t.(envelopes := t.envelopes - {e}))
  }

  function DeleteStep(t: Tables, id: EnvelopeId): (Reply, Tables)
  {
    if !IsIdentifier(id) then (Refused(BadArgument), t)
    else (Removed(id in t.envelopes), t.(envelopes := t.envelopes - {id}))
  }

  datatype Command =
    | Create(id: FlowId, input: NewFlow, now: int)
    | OnFlow(id: FlowId, mutation: Mutation)
    | ExpireAllDue(cutoff: int)
    | Put(envelope: NewEnvelope, now: int, dateNow: int)
    | Read(envelopeId: EnvelopeId, now: int)
    | Lookup(state: StateHash, now: int)
    | Consume(state: StateHash, purpose: Purpose, now: int)
    | Delete(envelopeId: EnvelopeId)

  ghost function Apply(t: Tables, c: Command): (Reply, Tables)
  {
    match c
    case Create(id, n, now) => CreateStep(t, id, n, now)
    case OnFlow(id, m) => MutateStep(t, id, m)
    case ExpireAllDue(cutoff) => ExpireDueStep(t, cutoff)
    case Put(n, now, dateNow) => PutStep(t, n, now, dateNow)
    case Read(id, now) => ReadStep(t, id, now)
    case Lookup(h, now) => LookupStep(t, h, now)
    case Consume(h, p, now) => ConsumeStep(t, h, p, now)
    case Delete(id) => DeleteStep(t, id)
  }

  // ---------------------------------------------------------------------------------------------
  // The cross-table invariant
  // ---------------------------------------------------------------------------------------------

  /** Each envelope belongs to a live flow and does not outlive it. */
  ghost predicate EnvelopeOk(t: Tables, e: EnvelopeId)
    requires e in t.envelopes
  {
    var v := t.envelopes[e];
    && v.flowId in t.flows && !Terminal(t.flows[v.flowId].flow.status)
    && v.createdAt < v.expiresAt <= t.flows[v.flowId].flow.expiresAt
    && (v.purpose == StagedCredential ==> v.state == None)
  }

  /** At most one envelope per flow and purpose, and per state. */
  ghost predicate EnvelopesUnique(envelopes: map<EnvelopeId, Envelope>)
  {
    forall d, e :: d in envelopes && e in envelopes && d != e ==>
      && !(envelopes[d].flowId == envelopes[e].flowId && envelopes[d].purpose == envelopes[e].purpose)
      && !(envelopes[d].state.Some? && envelopes[d].state == envelopes[e].state)
  }

  ghost predicate Invariant(t: Tables)
  {
    && (forall id :: id in t.flows ==> FlowInvariant(t.flows[id]))
    && (forall e :: e in t.envelopes ==> EnvelopeOk(t, e))
    && EnvelopesUnique(t.envelopes)
  }

  const Empty := Tables(map[], map[])

  // ---------------------------------------------------------------------------------------------
  // The store itself
  // ---------------------------------------------------------------------------------------------

  /** A list has as many entries as its set exactly while no entry repeats. */
  lemma OneMoreIsDistinct(ids: seq<string>, i: nat, unique: set<string>)
    requires i < |ids| && unique == (set j | 0 <= j < i :: ids[j])
    requires |unique| <= i && (|unique| == i <==> Distinct(ids[..i]))
    ensures |unique + {ids[i]}| <= i + 1 && (|unique + {ids[i]}| == i + 1 <==> Distinct(ids[..i + 1]))
  {
    var s := ids[..i + 1];
    if ids[i] in unique {
      var j :| 0 <= j < i && ids[j] == ids[i];
      assert s[j] == s[i] && unique + {ids[i]} == unique;
    } else {
      assert forall j :: 0 <= j < i ==> ids[..i][j] == s[j] && s[j] in unique;
    }
  }

  /** Each method is one immediate transaction: it works on a copy of the rows and assigns the
      fields only when it commits. */
  class IntegrationSetupStore {
    var flows: map<FlowId, Record>
    var envelopes: map<EnvelopeId, Envelope>

    constructor ()
      ensures Contents() == Empty && Invariant(Contents())
    {
      flows, envelopes := map[], map[];
    }

    ghost function Contents(): Tables
      reads this
    {
      Tables(flows, envelopes)
    }

    method CreateFlow(id: FlowId, n: NewFlow, now: int) returns (r: Reply)
      modifies this`flows
      ensures (r, Contents()) == CreateStep(old(Contents()), id, n, now)
    {
      if !IsIdentifier(id) || !NewFlowOk(n, now) {
        return Refused(BadArgument);
      }
      if id in flows {
        return Refused(ConstraintViolation);
      }
      flows := flows[id := Record(FreshFlow(n, now), [])];
      r := Done;
    }

    static method FirstStepWith(steps: Journal, status: StepStatus, from: nat) returns (i: nat)
      requires from <= |steps|
      ensures i == FirstWith(steps, status, from)
    {
      i := from;
      while i < |steps| && steps[i].status != status
        invariant from <= i <= |steps|
        invariant FirstWith(steps, status, from) == FirstWith(steps, status, i)
      {
        i := i + 1;
      }
    }

    static method InsertSteps(plan: seq<Blueprint>, now: int) returns (steps: Journal)
      ensures steps == FreshJournal(plan, now)
    {
      steps := [];
      for position := 0 to |plan|
        invariant steps == FreshJournal(plan, now)[..position]
      {
        var b := plan[position];
        steps := steps + [Step(b.id, b.kind, Pending, 0, None, None, None, now, now)];
      }
    }

    /** Write back the rows of one flow; a terminal flow loses its envelopes. */
    method Commit(id: FlowId, q: Record)
      modifies this
      ensures flows == old(flows)[id := q]
      ensures envelopes == if Terminal(q.flow.status) then Purged(old(envelopes), id) else old(envelopes)
    {
      flows := flows[id := q];
      if Terminal(q.flow.status) {
        envelopes := map e | e in envelopes && envelopes[e].flowId != id :: envelopes[e];
      }
    }

    method InitializeStepJournal(id: FlowId, expected: nat, plan: seq<Blueprint>, checkedAt: int, wall: int)
      returns (r: Reply)
      modifies this
      ensures (r, Contents()) == MutateStep(old(Contents()), id, DoInitialize(expected, plan, checkedAt, wall))
    {
      if !(1 <= expected <= MAX_REVISION) || !BlueprintsOk(plan) || !IsIdentifier(id) {
        return Refused(BadArgument);
      }
      if id !in flows {
        return Refused(NotFound);
      }
      var flow := flows[id].flow;
      if flow.revision != expected {
        return Refused(RevisionConflict);
      }
      var guard := GuardMutable(flow, checkedAt);
      if guard.Err? {
        return Refused(guard.error);
      }
      if flows[id].steps != [] {
        return Refused(IllegalTransition);
      }
      var now := Later(wall, flow.updatedAt);
      var steps := InsertSteps(plan, now);
      var next := flow.(revision := flow.revision + 1, updatedAt := now);
      if !FlowRowOk(next) || !FlowUpdateAllowed(flow, next) {
        return Refused(ConstraintViolation);
      }
      Commit(id, Record(next, steps));
      r := Done;
    }

    /** Complete the active step, then activate the next pending one. */
    static method MoveOn(all: Journal, current: nat, now: int) returns (r: Result<(Journal, FlowStatus, nat)>)
      ensures r == AdvanceSteps(all, current, now)
    {
      var steps := all;
      var active := FirstStepWith(all, Active, 0);
      if active < |all| {
        var closed := UpdateStep(steps, active, Completed, None, now);
        if closed.Err? {
          return Err(closed.error);
        }
        steps := closed.value;
      }
      var next := FirstStepWith(all, Pending, if active < |all| then active + 1 else 0);
      if next >= |all| {
        return Ok((steps, FlowCompleted, current));
      }
      var begun := UpdateStep(steps, next, Active, None, now);
      if begun.Err? {
        return Err(begun.error);
      }
      return Ok((begun.value, StatusForStep(all[next].kind), next));
    }

    /** The journal after one step on, with the flow row that goes with it. */
    static method NextStage(q: Record, now: int) returns (r: Result<Record>)
      ensures r == var moved := AdvanceSteps(q.steps, q.flow.currentStep, now);
                   if moved.Err? then Err(moved.error)
                   else CommitFlow(q.flow, SetupFlow.Advanced(q.flow, moved.value.1, moved.value.2, now), moved.value.0)
    {
      var flow := q.flow;
      var moved := MoveOn(q.steps, flow.currentStep, now);
      if moved.Err? {
        return Err(moved.error);
      }
      var (steps, status, position) := moved.value;
      var after := flow.(status := status, currentStep := position, revision := flow.revision + 1, failureCode := None,
                         updatedAt := now, completedAt := if Terminal(status) then Some(now) else None);
      if !FlowRowOk(after) || !FlowUpdateAllowed(flow, after) {
        return Err(ConstraintViolation);
      }
      r := Ok(Record(after, steps));
    }

    method Advance(id: FlowId, expected: nat, checkedAt: int, wall: int) returns (r: Reply)
      modifies this
      ensures (r, Contents()) == MutateStep(old(Contents()), id, DoAdvance(expected, checkedAt, wall))
    {
      if !(1 <= expected <= MAX_REVISION) || !IsIdentifier(id) {
        return Refused(BadArgument);
      }
      if id !in flows {
        return Refused(NotFound);
      }
      var flow := flows[id].flow;
      if flow.revision != expected {
        return Refused(RevisionConflict);
      }
      var guard := GuardMutable(flow, checkedAt);
      if guard.Err? {
        return Refused(guard.error);
      }
      var moved := NextStage(flows[id], Later(wall, flow.updatedAt));
      if moved.Err? {
        return Refused(moved.error);
      }
      Commit(id, moved.value);
      r := Done;
    }

    method Transition(id: FlowId, expected: nat, t: Transition, wall: int) returns (r: Reply)
      modifies this
      ensures (r, Contents()) == MutateStep(old(Contents()), id, DoTransition(expected, t, wall))
    {
      if !(1 <= expected <= MAX_REVISION) || !IsIdentifier(id) {
        return Refused(BadArgument);
      }
      if id !in flows {
        return Refused(NotFound);
      }
      var flow := flows[id].flow;
      if flow.revision != expected {
        return Refused(RevisionConflict);
      }
      if flow.status == FlowExpired {
        return Refused(FlowHasExpired);
      }
      if Terminal(flow.status) {
        return Refused(IllegalTransition);
      }
      var status := if t.status == None then flow.status else t.status.value;
      if wall >= flow.expiresAt && status != FlowExpired {
        return Refused(FlowHasExpired);
      }
      var now := Later(wall, flow.updatedAt);
      if t.authStatus == Some(Unknown) && flow.authStatus != Unknown {
        return Refused(IllegalTransition);
      }
      var failureCode := flow.failureCode;
      if t.failureCode.Some? {
        failureCode := t.failureCode.value;
        if !CodeOk(failureCode) {
          return Refused(BadArgument);
        }
      }
      var changed := ChangeStep(flows[id], t.step, now);
      if changed.Err? {
        return Refused(changed.error);
      }
      var settled := SettleActive(changed.value.0, status, failureCode, now);
      if settled.Err? {
        return Refused(settled.error);
      }
      var next, checked := NextRow(flow, t, status, changed.value.1, failureCode, now);
      if checked.Err? {
        return Refused(checked.error);
      }
      if !FlowRowOk(next) || !FlowUpdateAllowed(flow, next) {
        return Refused(ConstraintViolation);
      }
      Commit(id, Record(next, settled.value));
      r := Done;
    }

    /** Update the named step; returns the journal and the new current position. */
    static method ChangeStep(q: Record, change: Option<StepChange>, now: int) returns (r: Result<(Journal, nat)>)
      ensures r == ApplyStepChange(q, change, now)
    {
      if change.None? {
        return Ok((q.steps, q.flow.currentStep));
      }
      var c := change.value;
      if !IsSlug(c.id) {
        return Err(BadArgument);
      }
      var i := FindStep(q.steps, c.id, 0);
      if i == |q.steps| {
        return Err(IllegalTransition);
      }
      if !CodeOk(c.failureCode) {
        return Err(BadArgument);
      }
      var updated := UpdateStep(q.steps, i, c.status, c.failureCode, now);
      if updated.Err? {
        return Err(updated.error);
      }
      r := Ok((updated.value, if c.status == Active then i else q.flow.currentStep));
    }

    static method SettleActive(steps: Journal, status: FlowStatus, failureCode: Option<string>, now: int)
      returns (r: Result<Journal>)
      ensures r == SettleActiveStep(steps, status, failureCode, now)
    {
      var active := FirstStepWith(steps, Active, 0);
      if active == |steps| {
        return Ok(steps);
      }
      if status == FlowCompleted {
        return Err(IllegalTransition);
      }
      if !Terminal(status) {
        return Ok(steps);
      }
      var code := if status == FlowCancelled then Some("flow_cancelled")
                  else if status == FlowExpired then Some("flow_expired")
                  else if failureCode.Some? then failureCode else Some("flow_failed");
      r := UpdateStep(steps, active, Failed, code, now);
    }

    /** The new flow row of a transition, or the first complaint about its credential fields. */
    static method NextRow(f: Flow, t: Transition, status: FlowStatus, position: nat, failureCode: Option<string>, now: int)
      returns (next: Flow, checked: Result<()>)
      ensures next == NextFlow(f, t, status, position, failureCode, now)
      ensures checked ==
        if t.target.Some? && t.target.value.Some? && !IsIdentifier(t.target.value.value) then Err(BadArgument)
        else if NextTarget(f, t) != None && t.targetDigest.Some? && t.targetDigest.value.Some? &&
                !IsDigest(t.targetDigest.value.value) then Err(BadArgument)
        else if NextCreateAdditional(f, t) && NextTarget(f, t) != None then Err(IllegalTransition)
        else if t.oauthCredential.Some? && t.oauthCredential.value.Some? &&
                !IsIdentifier(t.oauthCredential.value.value) then Err(BadArgument)
        else if NextOAuthCreateAdditional(f, t) && NextOAuthCredential(f, t) != None then Err(IllegalTransition)
        else Ok(())
    {
      checked := Ok(());
      var target := f.target;
      if t.target.Some? {
        target := t.target.value;
        if target.Some? && !IsIdentifier(target.value) {
          checked := Err(BadArgument);
        }
      }
      var digest: Option<string> := None;
      if target.Some? {
        if t.targetDigest.Some? {
          digest := t.targetDigest.value;
          if checked.Ok? && digest.Some? && !IsDigest(digest.value) {
            checked := Err(BadArgument);
          }
        } else if t.target.None? || target == f.target {
          digest := f.targetDigest;
        }
      }
      var createAdditional := target.None? && f.createAdditional;
      if t.createAdditional.Some? {
        createAdditional := t.createAdditional.value;
      }
      if checked.Ok? && createAdditional && target.Some? {
        checked := Err(IllegalTransition);
      }
      var oauthCredential := if t.oauthCredential.Some? then t.oauthCredential.value else f.oauthCredential;
      if checked.Ok? && t.oauthCredential.Some? && oauthCredential.Some? && !IsIdentifier(oauthCredential.value) {
        checked := Err(BadArgument);
      }
      var oauthAdditional := if t.oauthCreateAdditional.Some? then t.oauthCreateAdditional.value else f.oauthCreateAdditional;
      if checked.Ok? && oauthAdditional && oauthCredential.Some? {
        checked := Err(IllegalTransition);
      }
      next := f.(status := status, authStatus := if t.authStatus.Some? then t.authStatus.value else f.authStatus,
                 currentStep := position, revision := f.revision + 1, failureCode := failureCode,
                 target := target, targetDigest := digest, createAdditional := createAdditional,
                 oauthCredential := oauthCredential, oauthCreateAdditional := oauthAdditional,
                 updatedAt := now, completedAt := if Terminal(status) then Some(now) else None);
    }

    method Cancel(id: FlowId, expected: nat, wall: int) returns (r: Reply)
      modifies this
      ensures (r, Contents())
           == MutateStep(old(Contents()), id, DoTransition(expected, NoChange.(status := Some(FlowCancelled)), wall))
    {
      r := Transition(id, expected, NoChange.(status := Some(FlowCancelled)), wall);
    }

    /** The checks on the list itself: bounded, safe identifiers, and as many in a set as in the list. */
    static method CheckCandidates(ids: seq<string>) returns (ok: bool)
      ensures ok == CandidateListOk(ids)
    {
      if |ids| > MAX_CANDIDATES {
        return false;
      }
      var unique: set<string> := {};
      for i := 0 to |ids|
        invariant forall j :: 0 <= j < i ==> IsIdentifier(ids[j])
        invariant unique == set j | 0 <= j < i :: ids[j]
        invariant |unique| <= i && (|unique| == i <==> Distinct(ids[..i]))
      {
        if !IsIdentifier(ids[i]) {
          return false;
        }
        OneMoreIsDistinct(ids, i, unique);
        unique := unique + {ids[i]};
      }
      assert ids[..|ids|] == ids;
      return |unique| == |ids|;
    }

    method SetDuplicateCandidates(id: FlowId, expected: nat, ids: seq<string>, known: set<string>, checkedAt: int, wall: int)
      returns (r: Reply)
      modifies this
      ensures (r, Contents())
           == MutateStep(old(Contents()), id, DoSetCandidates(expected, ids, known, checkedAt, wall))
    {
      var ok := CheckCandidates(ids);
      if !(1 <= expected <= MAX_REVISION) || !ok || !IsIdentifier(id) {
        return Refused(BadArgument);
      }
      if id !in flows {
        return Refused(NotFound);
      }
      var flow := flows[id].flow;
      if flow.revision != expected {
        return Refused(RevisionConflict);
      }
      var guard := GuardMutable(flow, checkedAt);
      if guard.Err? {
        return Refused(guard.error);
      }
      for i := 0 to |ids|
        invariant Contents() == old(Contents())
        invariant forall j :: 0 <= j < i ==> ids[j] in known
      {
        if ids[i] !in known {
          return Refused(BadArgument);
        }
      }
      r := WriteCandidates(id, ids, wall);
    }

    /** The update of the candidate column, under the constraints of the flow table. */
    method WriteCandidates(id: FlowId, ids: seq<string>, wall: int) returns (r: Reply)
      requires id in flows
      modifies this
      ensures var f := old(flows)[id].flow;
              var next := f.(candidates := ids, revision := f.revision + 1, updatedAt := Later(wall, f.updatedAt));
              if FlowRowOk(next) && FlowUpdateAllowed(f, next) then
                && r == Done && flows == old(flows)[id := old(flows)[id].(flow := next)]
                && envelopes == if Terminal(next.status) then Purged(old(envelopes), id) else old(envelopes)
              else r == Refused(ConstraintViolation) && Contents() == old(Contents())
    {
      var flow := flows[id].flow;
      var now := Later(wall, flow.updatedAt);
      var next := flow.(candidates := ids, revision := flow.revision + 1, updatedAt := now);
      if !FlowRowOk(next) || !FlowUpdateAllowed(flow, next) {
        return Refused(ConstraintViolation);
      }
      Commit(id, Record(next, flows[id].steps));
      r := Done;
    }

    method ClearDuplicateCandidates(id: FlowId, expected: nat, checkedAt: int, wall: int) returns (r: Reply)
      modifies this
      ensures (r, Contents()) == MutateStep(old(Contents()), id, DoClearCandidates(expected, checkedAt, wall))
    {
      if !(1 <= expected <= MAX_REVISION) || !IsIdentifier(id) {
        return Refused(BadArgument);
      }
      if id !in flows {
        return Refused(NotFound);
      }
      var flow := flows[id].flow;
      if flow.revision != expected {
        return Refused(RevisionConflict);
      }
      var guard := GuardMutable(flow, checkedAt);
      if guard.Err? {
        return Refused(guard.error);
      }
      r := WriteCandidates(id, [], wall);
    }

    /** The read that comes before the transaction. */
    method CheckExpiry(id: FlowId, expected: nat, at: int) returns (r: Result<()>)
      ensures r == ExpiryCheck(Contents(), id, expected, at)
    {
      if !(1 <= expected <= MAX_REVISION) || !IsIdentifier(id) {
        return Err(BadArgument);
      }
      if id !in flows {
        return Err(NotFound);
      }
      var flow := flows[id].flow;
      if flow.revision != expected {
        return Err(RevisionConflict);
      }
      if flow.status == FlowExpired {
        return Err(FlowHasExpired);
      }
      if at < flow.expiresAt {
        return Err(IllegalTransition);
      }
      r := Ok(());
    }

    /** The check and then the transition, which looks at the revision again. */
    method ExpireFlow(id: FlowId, expected: nat, at: int, wall: int) returns (r: Reply)
      modifies this
      ensures (r, Contents()) == MutateStep(old(Contents()), id, DoExpireOne(expected, at, wall))
    {
      var checked := CheckExpiry(id, expected, at);
      if checked.Err? {
        return Refused(checked.error);
      }
      r := Transition(id, expected, ToExpired, wall);
    }

    /** Fail the active steps of an expired flow, row by row. */
    static method FailActive(steps: Journal, now: int) returns (ok: bool, failed: Journal)
      ensures |failed| == |steps|
      ensures forall i :: 0 <= i < |steps| ==>
        failed[i] == if steps[i].status == Active then StepRowAfter(steps[i], Failed, Some("flow_expired"), now) else steps[i]
      ensures ok == forall i :: 0 <= i < |steps| && steps[i].status == Active ==>
        StepRowOk(failed[i]) && failed[i].updatedAt >= steps[i].updatedAt
    {
      ok, failed := true, [];
      for i := 0 to |steps|
        invariant |failed| == i
        invariant forall j :: 0 <= j < i ==>
          failed[j] == if steps[j].status == Active then StepRowAfter(steps[j], Failed, Some("flow_expired"), now) else steps[j]
        invariant ok == forall j :: 0 <= j < i && steps[j].status == Active ==>
          StepRowOk(failed[j]) && failed[j].updatedAt >= steps[j].updatedAt
      {
        var s := steps[i];
        if s.status == Active {
          s := StepRowAfter(s, Failed, Some("flow_expired"), now);
          ok := ok && StepRowOk(s) && s.updatedAt >= steps[i].updatedAt;
        }
        failed := failed + [s];
      }
    }

    static method ExpireRecord(q: Record, cutoff: int) returns (r: Result<Record>)
      ensures r == ExpireDue(q, cutoff)
    {
      var now := Later(cutoff, q.flow.updatedAt);
      var ok, steps := FailActive(q.steps, now);
      ghost var spec := seq(|q.steps|, i requires 0 <= i < |q.steps| =>
        if q.steps[i].status == Active
        then StepRowAfter(q.steps[i], Failed, Some("flow_expired"), now) else q.steps[i]);
      assert steps == spec;
      var next := q.flow.(status := FlowExpired, failureCode := Some("flow_expired"),
                          revision := q.flow.revision + 1, updatedAt := now, completedAt := Some(now));
      if !ok || !FlowRowOk(next) || !FlowUpdateAllowed(q.flow, next) {
        return Err(ConstraintViolation);
      }
      r := Ok(Record(next, steps));
    }

    static method ExpireRows(start: map<FlowId, Record>, due: set<FlowId>, cutoff: int)
      returns (ok: bool, rows: map<FlowId, Record>)
      requires due <= start.Keys
      ensures ok == forall id :: id in due ==> ExpireDue(start[id], cutoff).Ok?
      ensures ok ==> rows.Keys == start.Keys
      ensures ok ==> forall id :: id in start ==>
        rows[id] == if id in due then ExpireDue(start[id], cutoff).value else start[id]
    {
      rows := start;
      var todo := due;
      while todo != {}
        invariant todo <= due && rows.Keys == start.Keys
        invariant forall id :: id in due - todo ==> ExpireDue(start[id], cutoff).Ok?
        invariant forall id :: id in start ==>
          rows[id] == if id in due - todo then ExpireDue(start[id], cutoff).value else start[id]
      {
        var id :| id in todo;
        var expired := ExpireRecord(rows[id], cutoff);
        if expired.Err? {
          return false, start;
        }
        rows := rows[id := expired.value];
        todo := todo - {id};
      }
      ok := true;
    }

    /** Expire every due flow and drop stale envelopes; one failing row rolls everything back. */
    method ExpireFlows(cutoff: int) returns (r: Reply)
      modifies this
      ensures (r, Contents()) == ExpireDueStep(old(Contents()), cutoff)
    {
      var due := set id | id in flows && Due(flows[id].flow, cutoff);
      assert due == DueFlows(Contents(), cutoff);
      var ok, rows := ExpireRows(flows, due, cutoff);
      if !ok {
        return Refused(ConstraintViolation);
      }
      assert rows == map id | id in flows :: if id in due then ExpireDue(flows[id], cutoff).value else flows[id];
      flows := rows;
      envelopes := map e | e in envelopes && envelopes[e].expiresAt > cutoff && envelopes[e].flowId !in due
                     :: envelopes[e];
      r := Expired(|due|);
    }

    method PutEnvelope(n: NewEnvelope, now: int, dateNow: int) returns (r: Reply)
      modifies this`envelopes
      ensures (r, Contents()) == PutStep(old(Contents()), n, now, dateNow)
    {
      if (n.purpose == StagedCredential && n.state.Some?) || !IsIdentifier(n.id) || !IsIdentifier(n.flowId) {
        return Refused(BadArgument);
      }
      if n.flowId !in flows {
        return Refused(NotFound);
      }
      var f := flows[n.flowId].flow;
      var guard := GuardSecret(f, dateNow);
      if guard.Err? {
        return Refused(guard.error);
      }
      var expiry := EnvelopeExpiry(n, f, now);
      if expiry <= now || expiry > f.expiresAt {
        return Refused(BadArgument);
      }
      var rest := map e | e in envelopes && !(envelopes[e].flowId == n.flowId && envelopes[e].purpose == n.purpose)
                    :: envelopes[e];
      if n.id in rest || StateTaken(rest, n.state) {
        return Refused(ConstraintViolation);
      }
      envelopes := rest[n.id := Envelope(n.flowId, n.purpose, n.payload, n.state, now, expiry)];
      r := Done;
    }

    method FindByState(h: StateHash) returns (found: bool, e: EnvelopeId)
      requires EnvelopesUnique(envelopes)
      ensures found == HasState(Contents(), h)
      ensures found ==> e == ByState(Contents(), h)
    {
      found, e := false, "";
      var todo := envelopes.Keys;
      while todo != {}
        invariant todo <= envelopes.Keys
        invariant forall d :: d in envelopes && d !in todo ==> envelopes[d].state != Some(h)
      {
        var d :| d in todo;
        if envelopes[d].state == Some(h) {
          return true, d;
        }
        todo := todo - {d};
      }
    }

    /** Atomically claim and delete a one-time state envelope. */
    method ConsumeByState(h: StateHash, expectedPurpose: Purpose, now: int) returns (r: Reply)
      requires EnvelopesUnique(envelopes)
      modifies this`envelopes
      ensures (r, Contents()) == ConsumeStep(old(Contents()), h, expectedPurpose, now)
    {
      var found, e := FindByState(h);
      if !found || envelopes[e].purpose != expectedPurpose {
        return Secret(None);
      }
      var row := envelopes[e];
      envelopes := envelopes - {e};
      r := Secret(if row.expiresAt > now then Some(row) else None);
    }

    method ReadEnvelope(id: EnvelopeId, now: int) returns (r: Reply)
      modifies this`envelopes
      ensures (r, Contents()) == ReadStep(old(Contents()), id, now)
    {
      if !IsIdentifier(id) {
        return Refused(BadArgument);
      }
      if id !in envelopes {
        return Secret(None);
      }
      var row := envelopes[id];
      if row.expiresAt <= now {
        envelopes := envelopes - {id};
        return Secret(None);
      }
      r := Secret(Some(row));
    }
  }
}
