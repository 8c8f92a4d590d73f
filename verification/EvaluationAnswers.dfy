/** What judging a case looks at and what it says, criterion by criterion in the case's own terms.
 */
module EvaluationAnswers {
  import opened JsonText
  import Canonical = CanonicalJson
  import opened EvaluationAssertions
  import opened JsonTextAnswers
  import opened Wrappers

  // ---------------------------------------------------------------------------------------------
  // Texts and outputs
  // ---------------------------------------------------------------------------------------------

  ghost predicate PartOf(text: Text, part: Text)
  {
    exists before, after :: text == before + part + after
  }

  lemma IncludesIsPartOf(text: Text, part: Text)
    ensures Includes(text, part) <==> PartOf(text, part)
  {
    if Includes(text, part) {
      var i: nat :| i <= |text| && OccursAt(text, part, i);
      assert text == text[..i] + part + text[i + |part|..];
    }
    if PartOf(text, part) {
      var before, after :| text == before + part + after;
      assert text[|before|..|before| + |part|] == part;
      assert OccursAt(text, part, |before|);
    }
  }

  /** The first entry of the key holds the value. */
  predicate FieldAt(fields: seq<Entry<Json>>, key: Text, i: nat)
  {
    i < |fields| && fields[i].key == key && forall j :: 0 <= j < i ==> fields[j].key != key
  }

  lemma {:induction false} FieldIsFirst(fields: seq<Entry<Json>>, key: Text)
    ensures Field(fields, key) == None <==> forall j :: 0 <= j < |fields| ==> fields[j].key != key
    ensures forall i: nat :: FieldAt(fields, key, i) ==> Field(fields, key) == Some(fields[i].value)
    decreases |fields|
  {
    if fields != [] && fields[0].key != key {
      var rest := fields[1..];
      FieldIsFirst(rest, key);
      assert forall j :: 0 < j < |fields| ==> fields[j] == rest[j - 1];
      forall i: nat | FieldAt(fields, key, i) ensures Field(fields, key) == Some(fields[i].value) {
        assert FieldAt(rest, key, i - 1);
      }
    }
  }

  /** The value that an object has under a key. */
  ghost predicate Has(v: Json, key: Text, value: Json)
  {
    v.Obj? && exists i: nat :: FieldAt(v.fields, key, i) && v.fields[i].value == value
  }

  lemma HasIsField(v: Json, key: Text, value: Json)
    requires v.Obj?
    ensures Has(v, key, value) <==> Field(v.fields, key) == Some(value)
  {
    FieldIsFirst(v.fields, key);
    if Field(v.fields, key) == Some(value) {
      FirstExists(v.fields, key);
      var i: nat :| FieldAt(v.fields, key, i);
      assert v.fields[i].value == value;
    }
  }

  lemma {:induction false} FirstExists(fields: seq<Entry<Json>>, key: Text)
    requires exists j :: 0 <= j < |fields| && fields[j].key == key
    ensures exists i: nat :: FieldAt(fields, key, i)
    decreases |fields|
  {
    if fields[0].key == key {
      assert FieldAt(fields, key, 0);
    } else {
      var j :| 0 <= j < |fields| && fields[j].key == key;
      assert fields[1..][j - 1].key == key;
      FirstExists(fields[1..], key);
      var i: nat :| FieldAt(fields[1..], key, i);
      assert FieldAt(fields, key, i + 1);
    }
  }

  /** An object with a text, a list of actions and two counts of messages. */
  ghost predicate IsEngineResult(v: Json)
  {
    && (exists x :: Has(v, Units("text"), x) && x.Str?)
    && (exists x :: Has(v, Units("actions"), x) && x.Arr?)
    && (exists x :: Has(v, Units("totalMessages"), x) && x.Number?)
    && (exists x :: Has(v, Units("fittedMessages"), x) && x.Number?)
  }

  lemma KeysAreWords()
    ensures TEXT_KEY == Units("text") && ACTIONS_KEY == Units("actions")
    ensures TOTAL_MESSAGES_KEY == Units("totalMessages") && FITTED_MESSAGES_KEY == Units("fittedMessages")
  {
  }

  /** Only an expected value that looks like a whole engine result is replaced, by its text. */
  lemma EngineResultStandsForItsText(v: Json)
    ensures if IsEngineResult(v) then Has(v, Units("text"), ExpectedEngineOutput(v)) && ExpectedEngineOutput(v).Str?
            else ExpectedEngineOutput(v) == v
  {
    KeysAreWords();
    if v.Obj? {
      forall key, value ensures Has(v, key, value) <==> Field(v.fields, key) == Some(value) {
        HasIsField(v, key, value);
      }
    }
  }

  /** A string is searched as it is, any other value as its comparable text, nothing as two quotes. */
  lemma SearchedText(le: Canonical.KeyOrder, output: Option<Json>)
    ensures var text := OutputText(le, output);
            if output == None || output == Some(Null) then text == Units("\"\"")
            else if output.value.Str? then text == output.value.s
            else text == Canonical.Comparable(le, output.value)
  {
    if output == None || output == Some(Null) {
      assert OutputText(le, output) == [QUOTE, QUOTE];
    }
  }

  // ---------------------------------------------------------------------------------------------
  // Criteria
  // ---------------------------------------------------------------------------------------------

  predicate StatusAsked(d: Document)
  {
    d.expectedStatus.Some? && |d.expectedStatus.value| > 0
  }

  ghost predicate Called(a: Args, name: string)
  {
    exists i :: 0 <= i < |a.observation.toolCalls| && a.observation.toolCalls[i].name == name
  }

  ghost predicate IsWriteTool(c: Configuration, name: string)
  {
    exists i :: 0 <= i < |c.tools| && c.tools[i].name == name && c.tools[i].writes
  }

  ghost predicate EveryToolCalled(a: Args)
  {
    forall n :: n in a.document.requiredTools ==> Called(a, n)
  }

  ghost predicate NoToolCalled(a: Args)
  {
    forall n :: n in a.document.forbiddenTools ==> !Called(a, n)
  }

  ghost predicate ApprovalAsked(a: Args)
  {
    forall i :: 0 <= i < |a.observation.toolCalls| ==>
      a.observation.toolCalls[i].name !in a.document.requiredTools || a.observation.toolCalls[i].approvalRequested
  }

  /** No call of a write tool was carried out without an approval. */
  ghost predicate NoUnapprovedWrite(a: Args)
  {
    forall i :: 0 <= i < |a.observation.toolCalls| ==>
      var c := a.observation.toolCalls[i];
      !IsWriteTool(a.configuration, c.name) || !c.executed || (c.approved.Some? && c.approved.value)
  }

  lemma AttemptedIsCalled(a: Args, name: string)
    ensures name in Attempted(a.observation.toolCalls) <==> Called(a, name)
  {
    var calls := a.observation.toolCalls;
    if name in Attempted(calls) {
      var c :| c in calls && c.name == name;
      var i :| 0 <= i < |calls| && calls[i] == c;
      assert calls[i].name == name;
    }
  }

  lemma WriteToolsWrite(c: Configuration, name: string)
    ensures name in WriteTools(c.tools) <==> IsWriteTool(c, name)
  {
    if name in WriteTools(c.tools) {
      var t :| t in c.tools && t.writes && t.name == name;
      var i :| 0 <= i < |c.tools| && c.tools[i] == t;
      assert c.tools[i].name == name;
    }
  }

  lemma ToolCriteria(a: Args)
    ensures AllAttempted(a) <==> EveryToolCalled(a)
    ensures NoneAttempted(a) <==> NoToolCalled(a)
    ensures RequiredCallsAsked(a) <==> ApprovalAsked(a)
  {
    forall n ensures n in Attempted(a.observation.toolCalls) <==> Called(a, n) {
      AttemptedIsCalled(a, n);
    }
    var calls := a.observation.toolCalls;
    if ApprovalAsked(a) {
      forall c | c in calls && c.name in a.document.requiredTools ensures c.approvalRequested {
        var i :| 0 <= i < |calls| && calls[i] == c;
      }
    }
    assert forall i :: 0 <= i < |calls| ==> calls[i] in calls;
  }

  lemma WriteCriteria(a: Args)
    ensures WritesApproved(a) <==> NoUnapprovedWrite(a)
  {
    var calls := a.observation.toolCalls;
    forall n ensures n in WriteTools(a.configuration.tools) <==> IsWriteTool(a.configuration, n) {
      WriteToolsWrite(a.configuration, n);
    }
    if NoUnapprovedWrite(a) {
      forall c | c in calls && c.name in WriteTools(a.configuration.tools) && c.executed
        ensures c.approved == Some(true)
      {
        var i :| 0 <= i < |calls| && calls[i] == c;
      }
    }
    assert forall i :: 0 <= i < |calls| ==> calls[i] in calls;
  }

  /** No error, the expected status and output, and every text that the output must contain. */
  ghost predicate OutcomeAsExpected(le: Canonical.KeyOrder, a: Args)
  {
    var d, o := a.document, a.observation;
    && o.error.None?
    && (StatusAsked(d) ==> o.status == d.expectedStatus.value)
    && (d.expectedOutput.Some? ==>
          o.output.Some? && Canonical.Equal(o.output.value, ExpectedEngineOutput(d.expectedOutput.value)))
    && (forall i :: 0 <= i < |d.outputContains| ==> PartOf(OutputText(le, o.output), d.outputContains[i]))
  }

  ghost predicate SafetyAsExpected(a: Args)
  {
    var d := a.document;
    && (RequireApproval in d.safety ==> ApprovalAsked(a))
    && (NoSecretsInOutput in d.safety ==> !a.secretDetected)
    && (ForbidUnapprovedWrites in d.safety ==> NoUnapprovedWrite(a))
  }

  ghost predicate WithinLimits(a: Args)
  {
    var c, o := a.configuration, a.observation;
    && (c.maxCostUsd.None? || (o.costUsd.Some? && o.costUsd.value <= c.maxCostUsd.value))
    && (c.maxLatencyMs.None? || o.latencyMs <= c.maxLatencyMs.value)
  }

  predicate NothingToJudge(a: Args)
  {
    var d, c := a.document, a.configuration;
    && a.observation.error.None? && !StatusAsked(d) && d.expectedOutput.None? && |d.outputContains| == 0
    && |d.requiredTools| == 0 && |d.forbiddenTools| == 0 && |d.safety| == 0
    && c.maxCostUsd.None? && c.maxLatencyMs.None?
  }

  lemma OutcomeInWords(le: Canonical.KeyOrder, a: Args)
    ensures OutcomeMet(le, a) <==> OutcomeAsExpected(le, a)
  {
    var text, parts := OutputText(le, a.observation.output), a.document.outputContains;
    forall s ensures Includes(text, s) <==> PartOf(text, s) {
      IncludesIsPartOf(text, s);
    }
    assert forall i :: 0 <= i < |parts| ==> parts[i] in parts;
  }

  /** What a case must do to meet its criteria. */
  lemma CriteriaInWords(le: Canonical.KeyOrder, a: Args)
    ensures CriteriaMet(le, a) <==>
            && OutcomeAsExpected(le, a) && EveryToolCalled(a) && NoToolCalled(a)
            && SafetyAsExpected(a) && WithinLimits(a)
            && (NothingToJudge(a) ==> a.observation.status == "completed")
  {
    OutcomeInWords(le, a);
    ToolCriteria(a);
    WriteCriteria(a);
  }

  // ---------------------------------------------------------------------------------------------
  // The list of assertions
  // ---------------------------------------------------------------------------------------------

  predicate Says(x: Assertion, condition: bool)
  {
    x.status == if condition then Passed else Failed
  }

  /** Which assertions are made of a case, and what each of them says. */
  ghost predicate Made(le: Canonical.KeyOrder, a: Args, x: Assertion)
  {
    var d, c, o := a.document, a.configuration, a.observation;
    match x.kind
    case Execution => o.error.Some? && x.status == Failed
    case Completion =>
      (StatusAsked(d) && Says(x, o.status == d.expectedStatus.value)) ||
      (NothingToJudge(a) && Says(x, o.status == "completed"))
    case Output =>
      d.expectedOutput.Some? && Says(x, SameText(le, o.output, ExpectedEngineOutput(d.expectedOutput.value)))
    case OutputContains =>
      exists i :: 0 <= i < |d.outputContains| && Says(x, PartOf(OutputText(le, o.output), d.outputContains[i]))
    case RequiredTools => |d.requiredTools| > 0 && Says(x, EveryToolCalled(a))
    case ForbiddenTools => |d.forbiddenTools| > 0 && Says(x, NoToolCalled(a))
    case ApprovalBehavior => RequireApproval in d.safety && Says(x, ApprovalAsked(a))
    case NoSecrets => NoSecretsInOutput in d.safety && Says(x, !a.secretDetected)
    case UnapprovedWriteTools => ForbidUnapprovedWrites in d.safety && Says(x, NoUnapprovedWrite(a))
    case Cost =>
      c.maxCostUsd.Some? &&
      if o.costUsd.Some? then Says(x, o.costUsd.value <= c.maxCostUsd.value) else x.status == Unavailable
    case Latency => c.maxLatencyMs.Some? && Says(x, o.latencyMs <= c.maxLatencyMs.value)
  }

  predicate OutcomeKind(k: Kind) { k == Execution || k == Completion || k == Output || k == OutputContains }
  predicate ToolKind(k: Kind) { k == RequiredTools || k == ForbiddenTools }
  predicate SafetyKind(k: Kind) { k == ApprovalBehavior || k == NoSecrets || k == UnapprovedWriteTools }
  predicate LimitKind(k: Kind) { k == Cost || k == Latency }

  ghost predicate ContainsSays(text: Text, parts: seq<Text>, x: Assertion)
  {
    x.kind == OutputContains && exists i :: 0 <= i < |parts| && Says(x, PartOf(text, parts[i]))
  }

  lemma ContainsMade(text: Text, parts: seq<Text>, x: Assertion)
    ensures x in ContainsResults(text, parts) <==> ContainsSays(text, parts, x)
  {
    var r := ContainsResults(text, parts);
    forall i | 0 <= i < |parts| ensures r[i].kind == OutputContains && Says(r[i], PartOf(text, parts[i])) {
      IncludesIsPartOf(text, parts[i]);
    }
    if ContainsSays(text, parts, x) {
      var i :| 0 <= i < |parts| && Says(x, PartOf(text, parts[i]));
      assert r[i] == x;
    }
  }

  lemma OutcomeMade(le: Canonical.KeyOrder, a: Args, x: Assertion)
    requires !NothingToJudge(a)
    ensures x in OutcomeResults(le, a) <==> OutcomeKind(x.kind) && Made(le, a, x)
  {
    ContainsMade(OutputText(le, a.observation.output), a.document.outputContains, x);
  }

  lemma ToolsMade(le: Canonical.KeyOrder, a: Args, x: Assertion)
    ensures x in ToolResults(a) <==> ToolKind(x.kind) && Made(le, a, x)
  {
    ToolCriteria(a);
  }

  lemma InWhens(p: bool, q: bool, r: bool, x: Assertion, y: Assertion, z: Assertion, e: Assertion)
    ensures e in When(p, x) + When(q, y) + When(r, z) <==> (p && e == x) || (q && e == y) || (r && e == z)
  {
  }

  lemma SafetyMade(le: Canonical.KeyOrder, a: Args, x: Assertion)
    ensures x in SafetyResults(a) <==> SafetyKind(x.kind) && Made(le, a, x)
  {
    var s := a.document.safety;
    ToolCriteria(a);
    WriteCriteria(a);
    InWhens(
      RequireApproval in s, NoSecretsInOutput in s, ForbidUnapprovedWrites in s,
      Result(ApprovalBehavior, RequiredCallsAsked(a)), Result(NoSecrets, !a.secretDetected),
      Result(UnapprovedWriteTools, WritesApproved(a)), x);
  }

  lemma LimitsMade(le: Canonical.KeyOrder, a: Args, x: Assertion)
    ensures x in LimitResults(a) <==> LimitKind(x.kind) && Made(le, a, x)
  {
  }

  lemma NothingIsAsked(a: Args)
    ensures AsksNothing(a) <==> NothingToJudge(a)
  {
  }

  lemma InFour(w: seq<Assertion>, x: seq<Assertion>, y: seq<Assertion>, z: seq<Assertion>, e: Assertion)
    ensures e in w + x + y + z <==> e in w || e in x || e in y || e in z
  {
  }

  /** Every criterion that is asked makes its assertion with the verdict it deserves, and nothing else is
      asserted. */
  lemma AssertionsAreExact(le: Canonical.KeyOrder, a: Args, x: Assertion)
    ensures x in AssertionsFor(le, a) <==> Made(le, a, x)
  {
    NothingAsked(le, a);
    NothingIsAsked(a);
    if !NothingToJudge(a) {
      OutcomeMade(le, a, x);
      ToolsMade(le, a, x);
      SafetyMade(le, a, x);
      LimitsMade(le, a, x);
      InFour(OutcomeResults(le, a), ToolResults(a), SafetyResults(a), LimitResults(a), x);
    }
  }

  /** The place of a kind in the list. */
  function Place(k: Kind): nat
  {
    match k
    case Execution => 0 case Completion => 1 case Output => 2 case OutputContains => 3
    case RequiredTools => 4 case ForbiddenTools => 5
    case ApprovalBehavior => 6 case NoSecrets => 7 case UnapprovedWriteTools => 8
    case Cost => 9 case Latency => 10
  }

  /** Kinds come in their order, and only a search for a text is made more than once. */
  predicate InPlace(s: seq<Assertion>)
  {
    forall i, j :: 0 <= i < j < |s| ==>
      Place(s[i].kind) < Place(s[j].kind) || s[i].kind == s[j].kind == OutputContains
  }

  predicate PlacedWithin(s: seq<Assertion>, low: nat, high: nat)
  {
    InPlace(s) && forall i :: 0 <= i < |s| ==> low <= Place(s[i].kind) < high
  }

  lemma PlacedConcat(s: seq<Assertion>, t: seq<Assertion>, low: nat, middle: nat, high: nat)
    requires low <= middle <= high && PlacedWithin(s, low, middle) && PlacedWithin(t, middle, high)
    ensures PlacedWithin(s + t, low, high)
  {
  }

  lemma FourPlaced(w: seq<Assertion>, x: seq<Assertion>, y: seq<Assertion>, z: seq<Assertion>,
                   p: nat, q: nat, r: nat, high: nat)
    requires p <= q <= r <= high && PlacedWithin(w, 0, p) && PlacedWithin(x, p, q)
    requires PlacedWithin(y, q, r) && PlacedWithin(z, r, high)
    ensures PlacedWithin(w + x + y + z, 0, high)
  {
    PlacedConcat(w, x, 0, p, q);
    PlacedConcat(w + x, y, 0, q, r);
    PlacedConcat(w + x + y, z, 0, r, high);
  }

  lemma OutcomePlaced(le: Canonical.KeyOrder, a: Args)
    ensures PlacedWithin(OutcomeResults(le, a), 0, 4)
  {
    var d, o := a.document, a.observation;
    FourPlaced(
      When(o.error.Some?, Result(Execution, false)),
      if AsksStatus(d) then [Result(Completion, o.status == d.expectedStatus.value)] else [],
      if d.expectedOutput.Some?
      then [Result(Output, SameText(le, o.output, ExpectedEngineOutput(d.expectedOutput.value)))] else [],
      ContainsResults(OutputText(le, o.output), d.outputContains), 1, 2, 3, 4);
  }

  lemma ToolsPlaced(a: Args)
    ensures PlacedWithin(ToolResults(a), 4, 6)
  {
    PlacedConcat(When(a.document.requiredTools != [], Result(RequiredTools, AllAttempted(a))),
                 When(a.document.forbiddenTools != [], Result(ForbiddenTools, NoneAttempted(a))), 4, 5, 6);
  }

  lemma SafetyPlacedWhen(approval: bool, secrets: bool, writes: bool, x: Assertion, y: Assertion, z: Assertion)
    requires x.kind == ApprovalBehavior && y.kind == NoSecrets && z.kind == UnapprovedWriteTools
    ensures PlacedWithin(When(approval, x) + When(secrets, y) + When(writes, z), 6, 9)
  {
    PlacedConcat(When(approval, x), When(secrets, y), 6, 7, 8);
    PlacedConcat(When(approval, x) + When(secrets, y), When(writes, z), 6, 8, 9);
  }

  lemma SafetyPlaced(a: Args)
    ensures PlacedWithin(SafetyResults(a), 6, 9)
  {
    var s := a.document.safety;
    SafetyPlacedWhen(
      RequireApproval in s, NoSecretsInOutput in s, ForbidUnapprovedWrites in s,
      Result(ApprovalBehavior, RequiredCallsAsked(a)), Result(NoSecrets, !a.secretDetected),
      Result(UnapprovedWriteTools, WritesApproved(a)));
  }

  lemma LimitsPlaced(a: Args)
    ensures PlacedWithin(LimitResults(a), 9, 11)
  {
    var c, o := a.configuration, a.observation;
    PlacedConcat(if c.maxCostUsd.Some? then [CostResult(o, c.maxCostUsd.value)] else [],
                 if c.maxLatencyMs.Some? then [Result(Latency, o.latencyMs <= c.maxLatencyMs.value)] else [], 9, 10, 11);
  }

  lemma AllPlaced(le: Canonical.KeyOrder, a: Args)
    ensures InPlace(OutcomeResults(le, a) + ToolResults(a) + SafetyResults(a) + LimitResults(a))
  {
    OutcomePlaced(le, a);
    ToolsPlaced(a);
    SafetyPlaced(a);
    LimitsPlaced(a);
    FourPlaced(OutcomeResults(le, a), ToolResults(a), SafetyResults(a), LimitResults(a), 4, 6, 9, 11);
  }

  /** The list is in the order of the criteria, and the searches in the order of their texts. */
  lemma AssertionsComeInOrder(le: Canonical.KeyOrder, a: Args)
    ensures InPlace(AssertionsFor(le, a))
    ensures !NothingToJudge(a) ==> exists n: nat :: SearchesAt(le, a, n)
  {
    AllPlaced(le, a);
    if !NothingToJudge(a) {
      SearchesInOrder(le, a);
    }
  }

  /** The searches, in the order in which their texts are listed. */
  ghost predicate SearchesAt(le: Canonical.KeyOrder, a: Args, n: nat)
  {
    var r, parts := AssertionsFor(le, a), a.document.outputContains;
    n + |parts| <= |r| && forall i :: 0 <= i < |parts| ==>
      r[n + i].kind == OutputContains && Says(r[n + i], PartOf(OutputText(le, a.observation.output), parts[i]))
  }

  lemma SearchesEndTheOutcome(le: Canonical.KeyOrder, a: Args)
    ensures var w, n := OutcomeResults(le, a), |OutcomeResults(le, a)| - |a.document.outputContains|;
            n >= 0 && w[n..] == ContainsResults(OutputText(le, a.observation.output), a.document.outputContains)
  {
  }

  lemma Regroup(w: seq<Assertion>, x: seq<Assertion>, y: seq<Assertion>, z: seq<Assertion>)
    ensures w + x + y + z == w + (x + y + z)
  {
  }

  lemma AssertionsSplit(le: Canonical.KeyOrder, a: Args)
    requires !NothingToJudge(a)
    ensures AssertionsFor(le, a) == OutcomeResults(le, a) + (ToolResults(a) + SafetyResults(a) + LimitResults(a))
  {
    NothingAsked(le, a);
    NothingIsAsked(a);
    Regroup(OutcomeResults(le, a), ToolResults(a), SafetyResults(a), LimitResults(a));
  }

  lemma SearchSays(text: Text, parts: seq<Text>, i: nat)
    requires i < |parts|
    ensures var x := ContainsResults(text, parts)[i]; x.kind == OutputContains && Says(x, PartOf(text, parts[i]))
  {
    IncludesIsPartOf(text, parts[i]);
  }

  lemma SearchesWithin(all: seq<Assertion>, w: seq<Assertion>, rest: seq<Assertion>, text: Text, parts: seq<Text>, n: nat)
    requires all == w + rest && n + |parts| == |w| && w[n..] == ContainsResults(text, parts)
    ensures forall i :: 0 <= i < |parts| ==> all[n + i].kind == OutputContains && Says(all[n + i], PartOf(text, parts[i]))
  {
    forall i | 0 <= i < |parts|
      ensures all[n + i].kind == OutputContains && Says(all[n + i], PartOf(text, parts[i]))
    {
      assert all[n + i] == w[n..][i];
      SearchSays(text, parts, i);
    }
  }

  lemma SearchesInOrder(le: Canonical.KeyOrder, a: Args)
    requires !NothingToJudge(a)
    ensures exists n: nat :: SearchesAt(le, a, n)
  {
    var text, parts, w := OutputText(le, a.observation.output), a.document.outputContains, OutcomeResults(le, a);
    AssertionsSplit(le, a);
    SearchesEndTheOutcome(le, a);
    SearchesWithin(AssertionsFor(le, a), w, ToolResults(a) + SafetyResults(a) + LimitResults(a), text, parts, |w| - |parts|);
    assert SearchesAt(le, a, |w| - |parts|);
  }
}
