/** Invariants over every run of the setup store: secrets live no longer than their flow, revisions
    are linear, terminal flows are frozen, and a one-time state is consumed at most once per put.
 */
module SetupStoreLaws {
  import opened SetupFlow
  import opened SetupFlowLaws
  import opened SetupStore
  import opened Wrappers

  // ---------------------------------------------------------------------------------------------
  // The cross-table invariant
  // ---------------------------------------------------------------------------------------------

  lemma MutateKeepsInvariant(t: Tables, id: FlowId, m: Mutation)
    requires Invariant(t)
    ensures Invariant(MutateStep(t, id, m).1)
  {
    var t' := MutateStep(t, id, m).1;
    if MutateStep(t, id, m).0 == Done {
      MutationKeepsInvariant(t.flows[id], m);
      forall e | e in t'.envelopes ensures EnvelopeOk(t', e) {
        assert EnvelopeOk(t, e);
      }
    }
  }

  lemma ExpireDueKeepsInvariant(t: Tables, cutoff: int)
    requires Invariant(t)
    ensures Invariant(ExpireDueStep(t, cutoff).1)
  {
    var (r, t') := ExpireDueStep(t, cutoff);
    if r.Expired? {
      forall id | id in t'.flows ensures FlowInvariant(t'.flows[id]) {
        if id in DueFlows(t, cutoff) {
          ExpiryKeepsInvariant(t.flows[id], cutoff);
        }
      }
      forall e | e in t'.envelopes ensures EnvelopeOk(t', e) {
        assert EnvelopeOk(t, e);
      }
    }
  }

  lemma PutKeepsInvariant(t: Tables, n: NewEnvelope, now: int, dateNow: int)
    requires Invariant(t)
    ensures Invariant(PutStep(t, n, now, dateNow).1)
  {
    var (r, t') := PutStep(t, n, now, dateNow);
    if r == Done {
      forall e | e in t'.envelopes ensures EnvelopeOk(t', e) {
        if e != n.id {
          assert EnvelopeOk(t, e);
        }
      }
    }
  }

  lemma RemovalKeepsInvariant(t: Tables, gone: set<EnvelopeId>)
    requires Invariant(t)
    ensures Invariant(t.(envelopes := t.envelopes - gone))
  {
    forall e | e in t.envelopes - gone ensures EnvelopeOk(t.(envelopes := t.envelopes - gone), e) {
      assert EnvelopeOk(t, e);
    }
  }

  /** Every transaction keeps flows, steps and envelopes consistent with each other. */
  lemma ApplyKeepsInvariant(t: Tables, c: Command)
    requires Invariant(t)
    ensures Invariant(Apply(t, c).1)
  {
    match c
    case Create(id, n, now) =>
      var t' := CreateStep(t, id, n, now).1;
      forall e | e in t'.envelopes ensures EnvelopeOk(t', e) {
        assert EnvelopeOk(t, e);
      }
    case OnFlow(id, m) => MutateKeepsInvariant(t, id, m);
    case ExpireAllDue(cutoff) => ExpireDueKeepsInvariant(t, cutoff);
    case Put(n, now, dateNow) => PutKeepsInvariant(t, n, now, dateNow);
    case Read(id, _) => RemovalKeepsInvariant(t, {id});
    case Lookup(h, _) => if HasState(t, h) { RemovalKeepsInvariant(t, {ByState(t, h)}); }
    case Consume(h, _, _) => if HasState(t, h) { RemovalKeepsInvariant(t, {ByState(t, h)}); }
    case Delete(id) => RemovalKeepsInvariant(t, {id});
  }

  ghost function Run(t: Tables, cs: seq<Command>): Tables
    decreases |cs|
  {
    if cs == [] then t else Run(Apply(t, cs[0]).1, cs[1..])
  }

  lemma {:induction false} RunKeepsInvariant(t: Tables, cs: seq<Command>)
    requires Invariant(t)
    ensures Invariant(Run(t, cs))
    decreases |cs|
  {
    if cs != [] {
      ApplyKeepsInvariant(t, cs[0]);
      RunKeepsInvariant(Apply(t, cs[0]).1, cs[1..]);
    }
  }

  /** Cross-table secrecy lifetime: in every reachable state each envelope belongs to a live flow,
      expires no later than the flow, and is the only one for its flow and purpose and for its state. */
  lemma SecretsNeverOutliveTheirFlow(cs: seq<Command>, d: EnvelopeId, e: EnvelopeId)
    requires d in Run(Empty, cs).envelopes && e in Run(Empty, cs).envelopes
    ensures var t := Run(Empty, cs);
            var x, y := t.envelopes[d], t.envelopes[e];
            && x.flowId in t.flows && !Terminal(t.flows[x.flowId].flow.status)
            && x.createdAt < x.expiresAt <= t.flows[x.flowId].flow.expiresAt
            && (x.flowId == y.flowId && x.purpose == y.purpose ==> d == e)
            && (x.state.Some? && x.state == y.state ==> d == e)
  {
    RunKeepsInvariant(Empty, cs);
    assert EnvelopeOk(Run(Empty, cs), d);
  }

  /** Whatever the wall clocks did, in every reachable state the times of a flow and of its steps lie
      in order, a flow has a completion time exactly when it is terminal, and a terminal flow has no
      active step. */
  lemma TimesLieInOrder(cs: seq<Command>, id: FlowId)
    requires id in Run(Empty, cs).flows
    ensures var r := Run(Empty, cs).flows[id];
            && r.flow.createdAt <= r.flow.updatedAt
            && (r.flow.completedAt.Some? <==> Terminal(r.flow.status))
            && (r.flow.completedAt.Some? ==> r.flow.completedAt.value <= r.flow.updatedAt)
            && (forall i :: 0 <= i < |r.steps| && r.steps[i].completedAt.Some? ==>
                 && r.steps[i].startedAt.Some?
                 && r.steps[i].startedAt.value <= r.steps[i].completedAt.value <= r.flow.updatedAt)
            && (forall i, j :: 0 <= i < j < |r.steps| ==> r.steps[i].status != Active || r.steps[j].status != Active)
            && (Terminal(r.flow.status) ==> forall i :: 0 <= i < |r.steps| ==> r.steps[i].status != Active)
  {
    RunKeepsInvariant(Empty, cs);
    assert FlowInvariant(Run(Empty, cs).flows[id]);
  }

  // ---------------------------------------------------------------------------------------------
  // Linear revisions and the frozen terminal state
  // ---------------------------------------------------------------------------------------------

  lemma FlowEvolvesOrStays(t: Tables, c: Command, id: FlowId)
    requires Invariant(t) && id in t.flows
    ensures id in Apply(t, c).1.flows
    ensures var r, q := t.flows[id], Apply(t, c).1.flows[id]; q == r || Evolves(r, q)
  {
    match c
    case OnFlow(i, m) =>
      if i == id && Mutate(t.flows[id], m).Ok? {
        MutationKeepsInvariant(t.flows[id], m);
      }
    case ExpireAllDue(cutoff) =>
      if id in DueFlows(t, cutoff) && ExpireDue(t.flows[id], cutoff).Ok? {
        ExpiryKeepsInvariant(t.flows[id], cutoff);
      }
    case _ =>
  }

  /** `q` is a later state of the flow `r`; the same revision means the same rows. */
  ghost predicate Follows(r: Record, q: Record)
  {
    && r.flow.revision <= q.flow.revision
    && (r.flow.revision == q.flow.revision ==> q == r)
    && (Terminal(r.flow.status) ==> q == r)
    && r.flow.updatedAt <= q.flow.updatedAt
    && (r.flow.authStatus != Unknown ==> q.flow.authStatus != Unknown)
    && q.flow.identity == r.flow.identity && q.flow.createdAt == r.flow.createdAt && q.flow.expiresAt == r.flow.expiresAt
    && JournalEvolves(r.steps, q.steps)
  }

  lemma FollowsIsTransitive(r: Record, p: Record, q: Record)
    requires Follows(r, p) && Follows(p, q)
    ensures Follows(r, q)
  {
    if r.steps != [] {
      forall i | 0 <= i < |r.steps| ensures StepEvolves(r.steps[i], q.steps[i]) {
        assert StepEvolves(r.steps[i], p.steps[i]) && StepEvolves(p.steps[i], q.steps[i]);
      }
    }
  }

  /** Over every run a flow only moves forward: revisions and timestamps never decrease, terminal
      flows and their steps never change, no step returns to pending, attempts never decrease and
      auth status never returns to unknown. */
  lemma {:induction false} FlowsOnlyMoveForward(t: Tables, cs: seq<Command>, id: FlowId)
    requires Invariant(t) && id in t.flows
    ensures id in Run(t, cs).flows && Follows(t.flows[id], Run(t, cs).flows[id])
    decreases |cs|
  {
    if cs != [] {
      var t' := Apply(t, cs[0]).1;
      ApplyKeepsInvariant(t, cs[0]);
      FlowEvolvesOrStays(t, cs[0], id);
      FlowsOnlyMoveForward(t', cs[1..], id);
      FollowsIsTransitive(t.flows[id], t'.flows[id], Run(t', cs[1..]).flows[id]);
    }
  }

  /** Optimistic concurrency: of all mutations of one flow that hold the same expected revision at
      most one commits, however they are interleaved with other commands. */
  lemma OneCommitPerRevision(t: Tables, id: FlowId, first: Mutation, cs: seq<Command>, second: Mutation)
    requires Invariant(t) && MutateStep(t, id, first).0 == Done && first.expected == second.expected
    ensures var later := Run(MutateStep(t, id, first).1, cs);
            MutateStep(later, id, second).0.Refused? && MutateStep(later, id, second).1 == later
  {
    var t1 := MutateStep(t, id, first).1;
    MutateKeepsInvariant(t, id, first);
    MutationKeepsInvariant(t.flows[id], first);
    assert t1.flows[id].flow.revision == first.expected + 1;
    FlowsOnlyMoveForward(t1, cs, id);
  }

  /** The two halves of expiring one flow, the check and the transition, act as one step whatever other
      commands come between them: a failing check is what the whole expiry says at that moment, and after
      a passing one the transition does what the whole expiry does later. */
  lemma ExpiryActsAsOneStep(t: Tables, id: FlowId, expected: nat, at: int, cs: seq<Command>, wall: int)
    requires Invariant(t)
    ensures var check, later := ExpiryCheck(t, id, expected, at), Run(t, cs);
            if check.Err? then MutateStep(t, id, DoExpireOne(expected, at, wall)) == (Refused(check.error), t)
            else MutateStep(later, id, DoTransition(expected, ToExpired, wall))
                 == MutateStep(later, id, DoExpireOne(expected, at, wall))
  {
    if ExpiryCheck(t, id, expected, at).Ok? {
      FlowsOnlyMoveForward(t, cs, id);
    }
  }

  // ---------------------------------------------------------------------------------------------
  // The shape of the journal over whole runs
  // ---------------------------------------------------------------------------------------------

  /** Any command but a transition that changes a step: creating, initializing, advancing, candidates,
      other transitions, cancelling, both kinds of expiry, and everything about envelopes. */
  predicate PlainCommand(c: Command)
  {
    c.OnFlow? ==> Plain(c.mutation)
  }

  predicate PlainRun(cs: seq<Command>)
  {
    forall c :: c in cs ==> PlainCommand(c)
  }

  lemma PlainRest(cs: seq<Command>)
    requires PlainRun(cs) && cs != []
    ensures PlainCommand(cs[0]) && PlainRun(cs[1..])
  {
    assert cs[0] in cs && forall c :: c in cs[1..] ==> c in cs;
  }

  /** Is the command a successful advance of the flow? */
  function Advanced(t: Tables, c: Command, id: FlowId): nat
  {
    if c.OnFlow? && c.id == id && c.mutation.DoAdvance? && MutateStep(t, id, c.mutation).0 == Done then 1 else 0
  }

  ghost function Advances(t: Tables, cs: seq<Command>, id: FlowId): nat
    decreases |cs|
  {
    if cs == [] then 0 else Advanced(t, cs[0], id) + Advances(Apply(t, cs[0]).1, cs[1..], id)
  }

  lemma MutationKeepsTally(t: Tables, i: FlowId, m: Mutation, id: FlowId, n: nat)
    requires id in t.flows && FlowInvariant(t.flows[id]) && StageTold(t.flows[id], n) && Plain(m)
    ensures var t' := MutateStep(t, i, m).1;
            id in t'.flows && StageTold(t'.flows[id], n + Advanced(t, OnFlow(i, m), id))
  {
    if i == id && MutateStep(t, id, m).0 == Done {
      PlainKeepsTally(t.flows[id], m, n);
    }
  }

  lemma DueExpiryKeepsTally(t: Tables, cutoff: int, id: FlowId, n: nat)
    requires id in t.flows && FlowInvariant(t.flows[id]) && StageTold(t.flows[id], n)
    ensures var t' := ExpireDueStep(t, cutoff).1; id in t'.flows && StageTold(t'.flows[id], n)
  {
    if id in DueFlows(t, cutoff) && ExpireDue(t.flows[id], cutoff).Ok? {
      ExpiryKeepsTally(t.flows[id], cutoff, n);
    }
  }

  lemma OtherCommandsLeaveFlows(t: Tables, c: Command, id: FlowId)
    requires id in t.flows && !c.OnFlow? && !c.ExpireAllDue?
    ensures id in Apply(t, c).1.flows && Apply(t, c).1.flows[id] == t.flows[id]
  {
  }

  lemma CommandKeepsTally(t: Tables, c: Command, id: FlowId, n: nat)
    requires id in t.flows && FlowInvariant(t.flows[id]) && StageTold(t.flows[id], n) && PlainCommand(c)
    ensures id in Apply(t, c).1.flows && StageTold(Apply(t, c).1.flows[id], n + Advanced(t, c, id))
  {
    if c.OnFlow? {
      MutationKeepsTally(t, c.id, c.mutation, id, n);
    } else if c.ExpireAllDue? {
      DueExpiryKeepsTally(t, c.cutoff, id, n);
    } else {
      OtherCommandsLeaveFlows(t, c, id);
    }
  }

  lemma CreatedInStageZero(t: Tables, c: Command, id: FlowId)
    requires id !in t.flows
    ensures Advanced(t, c, id) == 0
    ensures id in Apply(t, c).1.flows ==> StageTold(Apply(t, c).1.flows[id], 0)
  {
  }

  ghost predicate Told(t: Tables, id: FlowId, n: nat)
  {
    if id in t.flows then StageTold(t.flows[id], n) else n == 0
  }

  lemma CommandKeepsTold(t: Tables, c: Command, id: FlowId, n: nat)
    requires Invariant(t) && PlainCommand(c) && Told(t, id, n)
    ensures Told(Apply(t, c).1, id, n + Advanced(t, c, id))
  {
    if id in t.flows {
      CommandKeepsTally(t, c, id, n);
    } else {
      CreatedInStageZero(t, c, id);
    }
  }

  lemma {:induction false} RunKeepsTally(t: Tables, cs: seq<Command>, id: FlowId, n: nat)
    requires Invariant(t) && PlainRun(cs) && Told(t, id, n)
    ensures Told(Run(t, cs), id, n + Advances(t, cs, id))
    decreases |cs|
  {
    if cs != [] {
      PlainRest(cs);
      ApplyKeepsInvariant(t, cs[0]);
      CommandKeepsTold(t, cs[0], id, n);
      RunKeepsTally(Apply(t, cs[0]).1, cs[1..], id, n + Advanced(t, cs[0], id));
    }
  }

  /** Over any run of store commands that changes no step by name, from the empty database, the number of
      a flow's successful advances tells its stage: initialization, expiry of one or of all due flows,
      cancelling and commands on other flows never disturb it. */
  lemma AdvancesCountStages(cs: seq<Command>, id: FlowId)
    requires PlainRun(cs) && id in Run(Empty, cs).flows
    ensures StageTold(Run(Empty, cs).flows[id], Advances(Empty, cs, id))
  {
    RunKeepsTally(Empty, cs, id, 0);
  }

  /** So in every reachable state of such a run every journal is completed* active? pending* while its flow
      is live and completed* failed? pending* once it is terminal. */
  lemma JournalsKeepTheirShape(cs: seq<Command>, id: FlowId)
    requires PlainRun(cs) && id in Run(Empty, cs).flows
    ensures Shape(Run(Empty, cs).flows[id])
  {
    AdvancesCountStages(cs, id);
    ToldStageHasShape(Run(Empty, cs).flows[id], Advances(Empty, cs, id));
  }

  /** And a journal that has the shape keeps it over such runs from any intact tables, also when a step
      was changed by name before. */
  lemma ShapeSurvivesPlainRuns(t: Tables, cs: seq<Command>, id: FlowId)
    requires Invariant(t) && PlainRun(cs) && id in t.flows && Shape(t.flows[id])
    ensures id in Run(t, cs).flows && Shape(Run(t, cs).flows[id])
  {
    FlowsOnlyMoveForward(t, cs, id);
    var r, q := t.flows[id], Run(t, cs).flows[id];
    if Terminal(r.flow.status) {
      assert q == r;
    } else {
      var k := LiveShapeIsTold(r);
      RunKeepsTally(t, cs, id, k);
      ToldStageHasShape(q, k + Advances(t, cs, id));
    }
  }

  // ---------------------------------------------------------------------------------------------
  // Duplicate candidates
  // ---------------------------------------------------------------------------------------------

  /** The candidates of a flow after a command, given those before: only an accepted set or clear counts. */
  function CandidatesAfter(t: Tables, c: Command, id: FlowId, before: seq<string>): seq<string>
  {
    if !c.OnFlow? || c.id != id || MutateStep(t, id, c.mutation).0 != Done then before
    else
      match c.mutation
      case DoSetCandidates(_, ids, _, _, _) => ids
      case DoClearCandidates(_, _, _) => []
      case _ => before
  }

  ghost function LastCandidates(t: Tables, cs: seq<Command>, id: FlowId, before: seq<string>): seq<string>
    decreases |cs|
  {
    if cs == [] then before
    else LastCandidates(Apply(t, cs[0]).1, cs[1..], id, CandidatesAfter(t, cs[0], id, before))
  }

  lemma MutationOnCandidates(t: Tables, i: FlowId, m: Mutation, id: FlowId)
    requires id in t.flows
    ensures var t', before := MutateStep(t, i, m).1, t.flows[id].flow.candidates;
            id in t'.flows && t'.flows[id].flow.candidates == CandidatesAfter(t, OnFlow(i, m), id, before)
  {
  }

  lemma CommandOnCandidates(t: Tables, c: Command, id: FlowId)
    requires id in Apply(t, c).1.flows
    ensures Apply(t, c).1.flows[id].flow.candidates ==
            CandidatesAfter(t, c, id, if id in t.flows then t.flows[id].flow.candidates else [])
  {
    if id !in t.flows {
      assert c.Create?;
    } else if c.OnFlow? {
      MutationOnCandidates(t, c.id, c.mutation, id);
    } else if !c.ExpireAllDue? {
      OtherCommandsLeaveFlows(t, c, id);
    }
  }

  lemma AcceptedListIsOk(t: Tables, c: Command, id: FlowId, before: seq<string>)
    requires CandidateListOk(before)
    ensures CandidateListOk(CandidatesAfter(t, c, id, before))
  {
  }

  lemma FlowsAreKept(t: Tables, c: Command, id: FlowId)
    requires id in t.flows
    ensures id in Apply(t, c).1.flows
  {
  }

  lemma {:induction false} RunOnCandidates(t: Tables, cs: seq<Command>, id: FlowId, before: seq<string>)
    requires id in Run(t, cs).flows && CandidateListOk(before)
    requires before == if id in t.flows then t.flows[id].flow.candidates else []
    ensures Run(t, cs).flows[id].flow.candidates == LastCandidates(t, cs, id, before)
    ensures CandidateListOk(LastCandidates(t, cs, id, before))
    decreases |cs|
  {
    if cs != [] {
      AcceptedListIsOk(t, cs[0], id, before);
      if id in t.flows {
        FlowsAreKept(t, cs[0], id);
      }
      var t' := Apply(t, cs[0]).1;
      if id in t'.flows {
        CommandOnCandidates(t, cs[0], id);
      }
      RunOnCandidates(t', cs[1..], id, CandidatesAfter(t, cs[0], id, before));
    }
  }

  /** In every reachable state the candidates of a flow are those of its last accepted set, none after an
      accepted clear or before the first set, and always a bounded list of distinct IDs; no advance,
      transition, cancelling or expiry touches them. */
  lemma CandidatesAreTheLastSet(cs: seq<Command>, id: FlowId)
    requires id in Run(Empty, cs).flows
    ensures var ids := Run(Empty, cs).flows[id].flow.candidates;
            ids == LastCandidates(Empty, cs, id, []) && CandidateListOk(ids)
  {
    RunOnCandidates(Empty, cs, id, []);
  }

  // ---------------------------------------------------------------------------------------------
  // One-time states
  // ---------------------------------------------------------------------------------------------

  function Puts(t: Tables, c: Command, h: StateHash): nat
  {
    if c.Put? && c.envelope.state == Some(h) && PutStep(t, c.envelope, c.now, c.dateNow).0 == Done then 1 else 0
  }

  ghost function Consumes(t: Tables, c: Command, h: StateHash): nat
  {
    if c.Consume? && c.state == h && ConsumeStep(t, h, c.purpose, c.now).0 != Secret(None) then 1 else 0
  }

  ghost function TotalPuts(t: Tables, cs: seq<Command>, h: StateHash): nat
    decreases |cs|
  {
    if cs == [] then 0 else Puts(t, cs[0], h) + TotalPuts(Apply(t, cs[0]).1, cs[1..], h)
  }

  ghost function TotalConsumes(t: Tables, cs: seq<Command>, h: StateHash): nat
    decreases |cs|
  {
    if cs == [] then 0 else Consumes(t, cs[0], h) + TotalConsumes(Apply(t, cs[0]).1, cs[1..], h)
  }

  ghost function Pending(t: Tables, h: StateHash): nat
  {
    if HasState(t, h) then 1 else 0
  }

  /** Without a put of the state, an envelope stored under it was stored under it before. */
  lemma SurvivorIsOld(t: Tables, c: Command, h: StateHash)
    requires Invariant(t) && HasState(Apply(t, c).1, h) && Puts(t, c, h) == 0
    ensures HasState(t, h) && ByState(t, h) == ByState(Apply(t, c).1, h)
    ensures t.envelopes[ByState(t, h)] == Apply(t, c).1.envelopes[ByState(t, h)]
  {
    var e := ByState(Apply(t, c).1, h);
    EnvelopeIsOld(t, c, e, h);
  }

  lemma EnvelopeIsOld(t: Tables, c: Command, e: EnvelopeId, h: StateHash)
    requires Puts(t, c, h) == 0 && e in Apply(t, c).1.envelopes && Apply(t, c).1.envelopes[e].state == Some(h)
    ensures e in t.envelopes && t.envelopes[e] == Apply(t, c).1.envelopes[e]
  {
  }

  lemma ConsumeUsesUpState(t: Tables, c: Command, h: StateHash)
    requires Invariant(t)
    ensures Pending(Apply(t, c).1, h) + Consumes(t, c, h) <= Pending(t, h) + Puts(t, c, h)
  {
    var t' := Apply(t, c).1;
    if HasState(t', h) {
      var e := ByState(t', h);
      if c.Put? && Puts(t, c, h) == 1 {
        assert Consumes(t, c, h) == 0;
      } else {
        SurvivorIsOld(t, c, h);
      }
    }
  }

  /** In every run the successful consumes of a state never exceed the puts of that state (plus one
      if the run starts with the state stored). */
  lemma {:induction false} StatesAreConsumedAtMostOncePerPut(t: Tables, cs: seq<Command>, h: StateHash)
    requires Invariant(t)
    ensures TotalConsumes(t, cs, h) + Pending(Run(t, cs), h) <= TotalPuts(t, cs, h) + Pending(t, h)
    decreases |cs|
  {
    if cs != [] {
      ApplyKeepsInvariant(t, cs[0]);
      ConsumeUsesUpState(t, cs[0], h);
      StatesAreConsumedAtMostOncePerPut(Apply(t, cs[0]).1, cs[1..], h);
    }
  }

  // ---------------------------------------------------------------------------------------------
  // Exactly what a consume returns
  // ---------------------------------------------------------------------------------------------

  /** The commands that remove an envelope: deleting it, reading or looking it up after its expiry,
      consuming its state for its purpose, putting another envelope for the same flow and purpose, ending
      its flow, and the batch expiry of the envelope or of its flow. */
  predicate Drops(t: Tables, c: Command, e: EnvelopeId)
    requires e in t.envelopes
  {
    var v := t.envelopes[e];
    match c
    case Create(_, _, _) => false
    case Delete(id) => IsIdentifier(id) && id == e
    case Read(id, now) => IsIdentifier(id) && id == e && v.expiresAt <= now
    case Lookup(h, now) => v.state == Some(h) && v.expiresAt <= now
    case Consume(h, p, _) => v.state == Some(h) && v.purpose == p
    case Put(n, now, dateNow) => PutStep(t, n, now, dateNow).0 == Done && n.flowId == v.flowId && n.purpose == v.purpose
    case OnFlow(id, m) =>
      id == v.flowId && MutateStep(t, id, m).0 == Done && Terminal(MutateStep(t, id, m).1.flows[id].flow.status)
    case ExpireAllDue(cutoff) =>
      && ExpireDueStep(t, cutoff).0.Expired?
      && (v.expiresAt <= cutoff || v.flowId in DueFlows(t, cutoff))
  }

  /** None of the commands removes the envelope. */
  ghost predicate Undisturbed(t: Tables, cs: seq<Command>, e: EnvelopeId)
    decreases |cs|
  {
    cs == [] || (e in t.envelopes && !Drops(t, cs[0], e) && Undisturbed(Apply(t, cs[0]).1, cs[1..], e))
  }

  lemma ByStateIs(t: Tables, e: EnvelopeId, h: StateHash)
    requires Invariant(t) && e in t.envelopes && t.envelopes[e].state == Some(h)
    ensures HasState(t, h) && ByState(t, h) == e
  {
  }

  lemma UndroppedByMutation(t: Tables, c: Command, e: EnvelopeId)
    requires c.OnFlow? && e in t.envelopes && !Drops(t, c, e)
    ensures e in Apply(t, c).1.envelopes && Apply(t, c).1.envelopes[e] == t.envelopes[e]
  {
  }

  lemma UndroppedByPut(t: Tables, c: Command, e: EnvelopeId, h: StateHash)
    requires c.Put? && e in t.envelopes && t.envelopes[e].state == Some(h) && Puts(t, c, h) == 0 && !Drops(t, c, e)
    ensures e in Apply(t, c).1.envelopes && Apply(t, c).1.envelopes[e] == t.envelopes[e]
  {
  }

  lemma UndroppedOtherwise(t: Tables, c: Command, e: EnvelopeId)
    requires !c.OnFlow? && !c.Put? && e in t.envelopes && !Drops(t, c, e)
    ensures e in Apply(t, c).1.envelopes && Apply(t, c).1.envelopes[e] == t.envelopes[e]
  {
  }

  lemma UndroppedStays(t: Tables, c: Command, e: EnvelopeId, h: StateHash)
    requires e in t.envelopes && t.envelopes[e].state == Some(h) && Puts(t, c, h) == 0 && !Drops(t, c, e)
    ensures e in Apply(t, c).1.envelopes && Apply(t, c).1.envelopes[e] == t.envelopes[e]
  {
    if c.OnFlow? {
      UndroppedByMutation(t, c, e);
    } else if c.Put? {
      UndroppedByPut(t, c, e, h);
    } else {
      UndroppedOtherwise(t, c, e);
    }
  }

  lemma DroppedIsGone(t: Tables, c: Command, e: EnvelopeId, h: StateHash)
    requires Invariant(t) && e in t.envelopes && t.envelopes[e].state == Some(h)
    requires Puts(t, c, h) == 0 && Drops(t, c, e)
    ensures !HasState(Apply(t, c).1, h)
  {
    ByStateIs(t, e, h);
    if HasState(Apply(t, c).1, h) {
      SurvivorIsOld(t, c, h);
    }
  }

  /** Without a put of its state in the run, an envelope is still stored exactly if nothing disturbed it. */
  lemma {:induction false} StoredWhileUndisturbed(t: Tables, cs: seq<Command>, e: EnvelopeId, h: StateHash)
    requires Invariant(t) && e in t.envelopes && t.envelopes[e].state == Some(h) && TotalPuts(t, cs, h) == 0
    ensures var later := Run(t, cs);
            if Undisturbed(t, cs, e) then e in later.envelopes && later.envelopes[e] == t.envelopes[e]
            else !HasState(later, h)
    decreases |cs|
  {
    if cs != [] {
      var t' := Apply(t, cs[0]).1;
      ApplyKeepsInvariant(t, cs[0]);
      if Drops(t, cs[0], e) {
        DroppedIsGone(t, cs[0], e, h);
        StatesAreConsumedAtMostOncePerPut(t', cs[1..], h);
      } else {
        UndroppedStays(t, cs[0], e, h);
        StoredWhileUndisturbed(t', cs[1..], e, h);
      }
    }
  }

  lemma ConsumeOfStored(t: Tables, e: EnvelopeId, h: StateHash, p: Purpose, now: int)
    requires Invariant(t) && e in t.envelopes && t.envelopes[e].state == Some(h)
    ensures var v := t.envelopes[e];
            && ConsumeStep(t, h, p, now).0 == Secret(if p == v.purpose && now < v.expiresAt then Some(v) else None)
            && v.flowId in t.flows && !Terminal(t.flows[v.flowId].flow.status)
  {
    ByStateIs(t, e, h);
    assert EnvelopeOk(t, e);
  }

  /** After a put under a state that is not put again, a consume of that state returns exactly what was put
      if the purpose is the same, the envelope is not expired and nothing has removed it since; it returns
      nothing otherwise. The flow of what it returns is still live. */
  lemma ConsumeReturnsExactlyWhatWasPut(
      t: Tables, n: NewEnvelope, at: int, dateNow: int, cs: seq<Command>, h: StateHash, p: Purpose, now: int)
    requires Invariant(t) && PutStep(t, n, at, dateNow).0 == Done && n.state == Some(h)
    requires TotalPuts(PutStep(t, n, at, dateNow).1, cs, h) == 0
    ensures var stored, later := PutStep(t, n, at, dateNow).1, Run(PutStep(t, n, at, dateNow).1, cs);
            var v := Envelope(n.flowId, n.purpose, n.payload, n.state, at, EnvelopeExpiry(n, t.flows[n.flowId].flow, at));
            var kept := Undisturbed(stored, cs, n.id) && p == n.purpose && now < v.expiresAt;
            && ConsumeStep(later, h, p, now).0 == Secret(if kept then Some(v) else None)
            && (kept ==> n.flowId in later.flows && !Terminal(later.flows[n.flowId].flow.status))
  {
    var stored := PutStep(t, n, at, dateNow).1;
    PutKeepsInvariant(t, n, at, dateNow);
    StoredWhileUndisturbed(stored, cs, n.id, h);
    RunKeepsInvariant(stored, cs);
    var later := Run(stored, cs);
    if Undisturbed(stored, cs, n.id) {
      ConsumeOfStored(later, n.id, h, p, now);
    }
  }
}
