/** Judging one evaluated case: a list of assertions is pushed criterion by criterion, and the case
    passes when all of them do.
 */
module EvaluationAssertions {
  import opened JsonText
  import Canonical = CanonicalJson
  import opened Wrappers

  datatype Safety = RequireApproval | NoSecretsInOutput | ForbidUnapprovedWrites

  datatype Document = Document(
    expectedStatus: Option<string>, expectedOutput: Option<Json>, outputContains: seq<Text>,
    requiredTools: seq<string>, forbiddenTools: seq<string>, safety: set<Safety>)

  datatype ToolCall = ToolCall(name: string, approvalRequested: bool, approved: Option<bool>, executed: bool)

  datatype Observation = Observation(
    status: string, output: Option<Json>, toolCalls: seq<ToolCall>, error: Option<string>,
    costUsd: Option<real>, latencyMs: int)

  datatype Tool = Tool(name: string, writes: bool)

  datatype Configuration = Configuration(tools: seq<Tool>, maxCostUsd: Option<real>, maxLatencyMs: Option<int>)

  datatype Args = Args(document: Document, configuration: Configuration, observation: Observation, secretDetected: bool)

  datatype Kind = Execution | Completion | Output | OutputContains | RequiredTools | ForbiddenTools
                | ApprovalBehavior | NoSecrets | UnapprovedWriteTools | Cost | Latency

  datatype Outcome = Passed | Failed | Unavailable

  datatype Assertion = Assertion(kind: Kind, status: Outcome)

  function Result(kind: Kind, passed: bool): Assertion
  {
    Assertion(kind, if passed then Passed else Failed)
  }

  // ---------------------------------------------------------------------------------------------
  // Outputs
  // ---------------------------------------------------------------------------------------------

  const TEXT_KEY: Text := [0x74, 0x65, 0x78, 0x74]
  const ACTIONS_KEY: Text := [0x61, 0x63, 0x74, 0x69, 0x6F, 0x6E, 0x73]
  const TOTAL_MESSAGES_KEY: Text :=
    [0x74, 0x6F, 0x74, 0x61, 0x6C, 0x4D, 0x65, 0x73, 0x73, 0x61, 0x67, 0x65, 0x73]
  const FITTED_MESSAGES_KEY: Text :=
    [0x66, 0x69, 0x74, 0x74, 0x65, 0x64, 0x4D, 0x65, 0x73, 0x73, 0x61, 0x67, 0x65, 0x73]

  function Field(fields: seq<Entry<Json>>, key: Text): Option<Json>
  {
    if fields == [] then None
    else if fields[0].key == key then Some(fields[0].value)
    else Field(fields[1..], key)
  }

  predicate HasString(v: Option<Json>) { v.Some? && v.value.Str? }
  predicate HasArray(v: Option<Json>) { v.Some? && v.value.Arr? }
  predicate HasNumber(v: Option<Json>) { v.Some? && v.value.Number? }

  /** A whole engine result stands for its text. */
  function ExpectedEngineOutput(v: Json): Json
  {
    if v.Obj? && HasString(Field(v.fields, TEXT_KEY)) && HasArray(Field(v.fields, ACTIONS_KEY)) &&
       HasNumber(Field(v.fields, TOTAL_MESSAGES_KEY)) && HasNumber(Field(v.fields, FITTED_MESSAGES_KEY))
    then Field(v.fields, TEXT_KEY).value
    else v
  }

  predicate SameText(le: Canonical.KeyOrder, observed: Option<Json>, expected: Json)
  {
    observed.Some? && Canonical.Comparable(le, observed.value) == Canonical.Comparable(le, expected)
  }

  /** The text that is searched; a missing or null output counts as the JSON text of an empty string. */
  function OutputText(le: Canonical.KeyOrder, output: Option<Json>): Text
  {
    match output
    case None => Canonical.Comparable(le, Str([]))
    case Some(Null) => Canonical.Comparable(le, Str([]))
    case Some(Str(s)) => s
    case Some(v) => Canonical.Comparable(le, v)
  }

  predicate OccursAt(text: Text, part: Text, i: nat)
  {
    i + |part| <= |text| && text[i..i + |part|] == part
  }

  predicate Includes(text: Text, part: Text)
  {
    exists i: nat :: i <= |text| && OccursAt(text, part, i)
  }

  // ---------------------------------------------------------------------------------------------
  // The criteria
  // ---------------------------------------------------------------------------------------------

  function Attempted(calls: seq<ToolCall>): set<string>
  {
    set c | c in calls :: c.name
  }

  function WriteTools(tools: seq<Tool>): set<string>
  {
    set t | t in tools && t.writes :: t.name
  }

  predicate AllAttempted(a: Args)
  {
    forall n :: n in a.document.requiredTools ==> n in Attempted(a.observation.toolCalls)
  }

  predicate NoneAttempted(a: Args)
  {
    forall n :: n in a.document.forbiddenTools ==> n !in Attempted(a.observation.toolCalls)
  }

  predicate RequiredCallsAsked(a: Args)
  {
    forall c :: c in a.observation.toolCalls && c.name in a.document.requiredTools ==> c.approvalRequested
  }

  predicate WritesApproved(a: Args)
  {
    forall c :: c in a.observation.toolCalls && c.name in WriteTools(a.configuration.tools) && c.executed ==>
      c.approved == Some(true)
  }

  function When(condition: bool, assertion: Assertion): seq<Assertion>
  {
    if condition then [assertion] else []
  }

  function ContainsResults(text: Text, parts: seq<Text>): (r: seq<Assertion>)
    ensures |r| == |parts| && forall i :: 0 <= i < |parts| ==> r[i] == Result(OutputContains, Includes(text, parts[i]))
  {
    seq(|parts|, i requires 0 <= i < |parts| => Result(OutputContains, Includes(text, parts[i])))
  }

  function OutcomeResults(le: Canonical.KeyOrder, a: Args): seq<Assertion>
  {
    var d, o := a.document, a.observation;
    When(o.error.Some?, Result(Execution, false))
    + (if AsksStatus(d) then [Result(Completion, o.status == d.expectedStatus.value)] else [])
    + (if d.expectedOutput.Some?
       then [Result(Output, SameText(le, o.output, ExpectedEngineOutput(d.expectedOutput.value)))] else [])
    + ContainsResults(OutputText(le, o.output), d.outputContains)
  }

  predicate AsksStatus(d: Document)
  {
    d.expectedStatus.Some? && d.expectedStatus.value != ""
  }

  function ToolResults(a: Args): seq<Assertion>
  {
    var d := a.document;
    When(d.requiredTools != [], Result(RequiredTools, AllAttempted(a)))
    + When(d.forbiddenTools != [], Result(ForbiddenTools, NoneAttempted(a)))
  }

  function SafetyResults(a: Args): seq<Assertion>
  {
    var d := a.document;
    When(RequireApproval in d.safety, Result(ApprovalBehavior, RequiredCallsAsked(a)))
    + When(NoSecretsInOutput in d.safety, Result(NoSecrets, !a.secretDetected))
    + When(ForbidUnapprovedWrites in d.safety, Result(UnapprovedWriteTools, WritesApproved(a)))
  }

  function CostResult(o: Observation, limit: real): Assertion
  {
    if o.costUsd.None? then Assertion(Cost, Unavailable) else Result(Cost, o.costUsd.value <= limit)
  }

  function LimitResults(a: Args): seq<Assertion>
  {
    var c, o := a.configuration, a.observation;
    (if c.maxCostUsd.Some? then [CostResult(o, c.maxCostUsd.value)] else [])
    + (if c.maxLatencyMs.Some? then [Result(Latency, o.latencyMs <= c.maxLatencyMs.value)] else [])
  }

  function AssertionsFor(le: Canonical.KeyOrder, a: Args): seq<Assertion>
  {
    var all := OutcomeResults(le, a) + ToolResults(a) + SafetyResults(a) + LimitResults(a);
    if all == [] then [Result(Completion, a.observation.status == "completed")] else all
  }

  // ---------------------------------------------------------------------------------------------
  // The method
  // ---------------------------------------------------------------------------------------------

  method EvaluateAssertions(le: Canonical.KeyOrder, a: Args) returns (assertions: seq<Assertion>)
    ensures assertions == AssertionsFor(le, a)
  {
    assertions := EvaluateOutcome(le, a);
    var tools := EvaluateTools(a);
    var safety := EvaluateSafety(a);
    assertions := assertions + tools + safety;
    if a.configuration.maxCostUsd.Some? {
      assertions := assertions + [CostResult(a.observation, a.configuration.maxCostUsd.value)];
    }
    if a.configuration.maxLatencyMs.Some? {
      assertions := assertions + [Result(Latency, a.observation.latencyMs <= a.configuration.maxLatencyMs.value)];
    }
    assert assertions == OutcomeResults(le, a) + ToolResults(a) + SafetyResults(a) + LimitResults(a);
    if |assertions| == 0 {
      assertions := [Result(Completion, a.observation.status == "completed")];
    }
  }

  method EvaluateOutcome(le: Canonical.KeyOrder, a: Args) returns (assertions: seq<Assertion>)
    ensures assertions == OutcomeResults(le, a)
  {
    var d, o := a.document, a.observation;
    assertions := [];
    if o.error.Some? {
      assertions := assertions + [Result(Execution, false)];
    }
    if AsksStatus(d) {
      assertions := assertions + [Result(Completion, o.status == d.expectedStatus.value)];
    }
    if d.expectedOutput.Some? {
      var expected := ExpectedEngineOutput(d.expectedOutput.value);
      assertions := assertions + [Result(Output, SameText(le, o.output, expected))];
    }
    var contains := EvaluateContains(OutputText(le, o.output), d.outputContains);
    assertions := assertions + contains;
  }

  method EvaluateContains(outputText: Text, parts: seq<Text>) returns (assertions: seq<Assertion>)
    ensures assertions == ContainsResults(outputText, parts)
  {
    assertions := [];
    for i := 0 to |parts|
      invariant assertions == ContainsResults(outputText, parts)[..i]
    {
      assertions := assertions + [Result(OutputContains, Includes(outputText, parts[i]))];
    }
  }

  method EvaluateTools(a: Args) returns (assertions: seq<Assertion>)
    ensures assertions == ToolResults(a)
  {
    var d, o := a.document, a.observation;
    assertions := [];
    var attempted := set c | c in o.toolCalls :: c.name;
    if |d.requiredTools| > 0 {
      var missing := set n | n in d.requiredTools && n !in attempted;
      assert missing == {} <==> AllAttempted(a) by {
        if !AllAttempted(a) {
          var n :| n in d.requiredTools && n !in Attempted(o.toolCalls);
          assert n in missing;
        }
      }
      assertions := assertions + [Result(RequiredTools, missing == {})];
    }
    if |d.forbiddenTools| > 0 {
      var used := set n | n in d.forbiddenTools && n in attempted;
      assert used == {} <==> NoneAttempted(a) by {
        if !NoneAttempted(a) {
          var n :| n in d.forbiddenTools && n in Attempted(o.toolCalls);
          assert n in used;
        }
      }
      assertions := assertions + [Result(ForbiddenTools, used == {})];
    }
  }

  method EvaluateSafety(a: Args) returns (assertions: seq<Assertion>)
    ensures assertions == SafetyResults(a)
  {
    var d, o := a.document, a.observation;
    assertions := [];
    if RequireApproval in d.safety {
      var missing := set c | c in o.toolCalls && c.name in d.requiredTools && !c.approvalRequested;
      assert missing == {} <==> RequiredCallsAsked(a) by {
        if !RequiredCallsAsked(a) {
          var c :| c in o.toolCalls && c.name in d.requiredTools && !c.approvalRequested;
          assert c in missing;
        }
      }
      assertions := assertions + [Result(ApprovalBehavior, missing == {})];
    }
    if NoSecretsInOutput in d.safety {
      assertions := assertions + [Result(NoSecrets, !a.secretDetected)];
    }
    if ForbidUnapprovedWrites in d.safety {
      var writeTools := WriteTools(a.configuration.tools);
      var unsafeCalls := set c | c in o.toolCalls && c.name in writeTools && c.approved != Some(true) && c.executed;
      assert unsafeCalls == {} <==> WritesApproved(a) by {
        if !WritesApproved(a) {
          var c :| c in o.toolCalls && c.name in writeTools && c.executed && c.approved != Some(true);
          assert c in unsafeCalls;
        }
      }
      assertions := assertions + [Result(UnapprovedWriteTools, unsafeCalls == {})];
    }
  }

  // ---------------------------------------------------------------------------------------------
  // What it means to pass
  // ---------------------------------------------------------------------------------------------

  predicate AllPassed(assertions: seq<Assertion>)
  {
    forall a :: a in assertions ==> a.status == Passed
  }

  /** The outcome criteria in the case's own terms: equality of outputs is equality of JSON values up to
      the order of object keys. */
  ghost predicate OutcomeMet(le: Canonical.KeyOrder, a: Args)
  {
    var d, o := a.document, a.observation;
    && o.error.None?
    && (AsksStatus(d) ==> o.status == d.expectedStatus.value)
    && (d.expectedOutput.Some? ==>
         o.output.Some? && Canonical.Equal(o.output.value, ExpectedEngineOutput(d.expectedOutput.value)))
    && (forall s :: s in d.outputContains ==> Includes(OutputText(le, o.output), s))
  }

  ghost predicate ToolsMet(a: Args)
  {
    AllAttempted(a) && NoneAttempted(a)
  }

  ghost predicate SafetyMet(a: Args)
  {
    var d := a.document;
    && (RequireApproval in d.safety ==> RequiredCallsAsked(a))
    && (NoSecretsInOutput in d.safety ==> !a.secretDetected)
    && (ForbidUnapprovedWrites in d.safety ==> WritesApproved(a))
  }

  /** A limit on cost needs a known cost. */
  ghost predicate LimitsMet(a: Args)
  {
    var c, o := a.configuration, a.observation;
    && (c.maxCostUsd.Some? ==> o.costUsd.Some? && o.costUsd.value <= c.maxCostUsd.value)
    && (c.maxLatencyMs.Some? ==> o.latencyMs <= c.maxLatencyMs.value)
  }

  /** Nothing at all is asked of the case, and it ran without an error. */
  predicate AsksNothing(a: Args)
  {
    var d, c := a.document, a.configuration;
    && a.observation.error.None? && !AsksStatus(d) && d.expectedOutput.None? && d.outputContains == []
    && d.requiredTools == [] && d.forbiddenTools == [] && d.safety == {}
    && c.maxCostUsd.None? && c.maxLatencyMs.None?
  }

  ghost predicate ValidOutputs(a: Args)
  {
    && (a.observation.output.Some? ==> Canonical.Proper(a.observation.output.value))
    && (a.document.expectedOutput.Some? ==> Canonical.Proper(a.document.expectedOutput.value))
  }

  lemma AllPassedConcat(x: seq<Assertion>, y: seq<Assertion>)
    ensures AllPassed(x + y) <==> AllPassed(x) && AllPassed(y)
  {
    assert forall a :: a in x ==> a in x + y;
    assert forall a :: a in y ==> a in x + y;
  }

  lemma {:induction false} FieldIsProper(fields: seq<Entry<Json>>, key: Text)
    requires forall i :: 0 <= i < |fields| ==> Canonical.Proper(fields[i].value)
    ensures Field(fields, key).Some? ==> Canonical.Proper(Field(fields, key).value)
    decreases |fields|
  {
    if fields != [] {
      assert forall i :: 0 <= i < |fields[1..]| ==> fields[1..][i] == fields[i + 1];
      FieldIsProper(fields[1..], key);
    }
  }

  lemma ExpectedIsProper(expected: Json)
    requires Canonical.Proper(expected)
    ensures Canonical.Proper(ExpectedEngineOutput(expected))
  {
    if expected.Obj? {
      FieldIsProper(expected.fields, TEXT_KEY);
    }
  }

  /** No object of the expected output has two keys, neither an index key, that the comparator ties. */
  predicate ExpectationUntied(le: Canonical.KeyOrder, d: Document)
  {
    d.expectedOutput.Some? ==> Canonical.NoTies(le, ExpectedEngineOutput(d.expectedOutput.value))
  }

  /** Agreeing texts always mean equal outputs; equal outputs have agreeing texts when the expected one
      has no ties. */
  lemma OutputsAgree(le: Canonical.KeyOrder, observed: Option<Json>, expected: Json)
    requires Canonical.TotalPreorder(le) && Canonical.Proper(expected)
    requires observed.Some? ==> Canonical.Proper(observed.value)
    ensures SameText(le, observed, expected) ==> observed.Some? && Canonical.Equal(observed.value, expected)
    ensures Canonical.NoTies(le, expected) && observed.Some? && Canonical.Equal(observed.value, expected) ==>
            SameText(le, observed, expected)
  {
    if observed.Some? {
      if SameText(le, observed, expected) {
        Canonical.ComparableIsSound(le, observed.value, expected);
      }
      if Canonical.NoTies(le, expected) && Canonical.Equal(observed.value, expected) {
        Canonical.EqualIsSymmetric(observed.value, expected);
        Canonical.ComparableDecidesEquality(le, expected, observed.value);
      }
    }
  }

  ghost predicate JudgedRightly(le: Canonical.KeyOrder, observed: Json, expected: Json)
  {
    Canonical.Proper(observed) ==> (SameText(le, Some(observed), expected) <==> Canonical.Equal(observed, expected))
  }

  /** An expected output is compared rightly with every output that may be observed, if and only if none
      of its objects has two keys, neither an index key, that the comparator ties. */
  lemma OutputsJudgedExactly(le: Canonical.KeyOrder, expected: Json)
    requires Canonical.TotalPreorder(le) && Canonical.Proper(expected)
    ensures (forall o :: JudgedRightly(le, o, expected)) <==> Canonical.NoTies(le, expected)
  {
    Canonical.DecidesExactlyWithoutTies(le, expected);
    if Canonical.NoTies(le, expected) {
      forall o ensures JudgedRightly(le, o, expected) {
        if Canonical.Proper(o) {
          OutputsAgree(le, Some(o), expected);
        }
      }
    } else {
      var y :| !Canonical.DecidesFor(le, expected, y);
      if Canonical.Equal(expected, y) {
        Canonical.EqualIsSymmetric(expected, y);
      } else {
        Canonical.ComparableIsSound(le, expected, y);
      }
      assert !JudgedRightly(le, y, expected);
    }
  }

  // ---------------------------------------------------------------------------------------------
  // A missing or null output
  // ---------------------------------------------------------------------------------------------

  /** Both are replaced by the empty string before they are searched. */
  predicate Nullish(output: Option<Json>)
  {
    output == None || output == Some(Null)
  }

  /** The only texts that a missing or null output is found to contain. */
  predicate FoundInNothing(s: Text)
  {
    s == [] || s == [QUOTE] || s == [QUOTE, QUOTE]
  }

  /** A missing or null output is searched as the JSON text of an empty string, two quotes. */
  lemma MissingOutputContains(le: Canonical.KeyOrder, output: Option<Json>, s: Text)
    requires Nullish(output)
    ensures Includes(OutputText(le, output), s) <==> FoundInNothing(s)
  {
    var text := OutputText(le, output);
    assert text == [QUOTE, QUOTE];
    if FoundInNothing(s) {
      assert OccursAt(text, s, 0);
    }
    if Includes(text, s) {
      var i: nat :| i <= |text| && OccursAt(text, s, i);
      assert forall k :: 0 <= k < |s| ==> s[k] == text[i..i + |s|][k] == QUOTE;
    }
  }

  /** Nothing contains only the empty text: a missing or null output is judged so for every text but one or
      two quotes. */
  lemma MissingOutputJudgedExactly(le: Canonical.KeyOrder, output: Option<Json>, s: Text)
    requires Nullish(output)
    ensures (Includes(OutputText(le, output), s) <==> s == []) <==> s != [QUOTE] && s != [QUOTE, QUOTE]
  {
    MissingOutputContains(le, output, s);
  }

  /** An observed null equals an expected null and no other expectation; a missing output equals none. */
  lemma NullishEqualsOnlyNull(le: Canonical.KeyOrder, output: Option<Json>, expected: Json)
    requires Nullish(output) && Canonical.Proper(expected)
    ensures SameText(le, output, ExpectedEngineOutput(expected)) <==> output == Some(Null) && expected == Null
  {
    var e := ExpectedEngineOutput(expected);
    ExpectedIsProper(expected);
    if SameText(le, output, e) {
      Canonical.ComparableIsSound(le, Null, e);
    }
  }

  /** When a case whose output is missing or null passes its outcome criteria. */
  lemma MissingOutputPassesExactly(le: Canonical.KeyOrder, a: Args)
    requires Nullish(a.observation.output) && ValidOutputs(a)
    ensures AllPassed(OutcomeResults(le, a)) <==>
            && a.observation.error.None?
            && (AsksStatus(a.document) ==> a.observation.status == a.document.expectedStatus.value)
            && (a.document.expectedOutput.None? || (a.observation.output == a.document.expectedOutput == Some(Null)))
            && forall s :: s in a.document.outputContains ==> FoundInNothing(s)
  {
    OutcomeParts(le, a);
    if a.document.expectedOutput.Some? {
      NullishEqualsOnlyNull(le, a.observation.output, a.document.expectedOutput.value);
    }
    forall s ensures Includes(OutputText(le, a.observation.output), s) <==> FoundInNothing(s) {
      MissingOutputContains(le, a.observation.output, s);
    }
  }

  lemma ContainsPasses(text: Text, parts: seq<Text>)
    ensures AllPassed(ContainsResults(text, parts)) <==> forall s :: s in parts ==> Includes(text, s)
  {
    var r := ContainsResults(text, parts);
    if AllPassed(r) {
      forall s | s in parts ensures Includes(text, s) {
        var i :| 0 <= i < |parts| && parts[i] == s;
        assert r[i] in r;
      }
    }
  }

  /** The outcome criteria part by part, output equality still being equality of texts. */
  lemma OutcomeParts(le: Canonical.KeyOrder, a: Args)
    ensures var d, o := a.document, a.observation;
            AllPassed(OutcomeResults(le, a)) <==>
            && o.error.None?
            && (AsksStatus(d) ==> o.status == d.expectedStatus.value)
            && (d.expectedOutput.Some? ==> SameText(le, o.output, ExpectedEngineOutput(d.expectedOutput.value)))
            && (forall s :: s in d.outputContains ==> Includes(OutputText(le, o.output), s))
  {
    var d, o := a.document, a.observation;
    ContainsPasses(OutputText(le, o.output), d.outputContains);
    var x := When(o.error.Some?, Result(Execution, false));
    var y := if AsksStatus(d) then [Result(Completion, o.status == d.expectedStatus.value)] else [];
    var z := if d.expectedOutput.Some?
             then [Result(Output, SameText(le, o.output, ExpectedEngineOutput(d.expectedOutput.value)))] else [];
    AllPassedConcat(x, y);
    AllPassedConcat(x + y, z);
    AllPassedConcat(x + y + z, ContainsResults(OutputText(le, o.output), d.outputContains));
  }

  lemma OutcomePasses(le: Canonical.KeyOrder, a: Args)
    requires Canonical.TotalPreorder(le) && ValidOutputs(a)
    ensures AllPassed(OutcomeResults(le, a)) ==> OutcomeMet(le, a)
    ensures ExpectationUntied(le, a.document) && OutcomeMet(le, a) ==> AllPassed(OutcomeResults(le, a))
  {
    var d, o := a.document, a.observation;
    OutcomeParts(le, a);
    if d.expectedOutput.Some? {
      ExpectedIsProper(d.expectedOutput.value);
      OutputsAgree(le, o.output, ExpectedEngineOutput(d.expectedOutput.value));
    }
  }

  lemma ToolsPass(a: Args)
    ensures AllPassed(ToolResults(a)) <==> ToolsMet(a)
  {
    var d := a.document;
    AllPassedConcat(When(d.requiredTools != [], Result(RequiredTools, AllAttempted(a))),
                    When(d.forbiddenTools != [], Result(ForbiddenTools, NoneAttempted(a))));
  }

  lemma SafetyPasses(a: Args)
    ensures AllPassed(SafetyResults(a)) <==> SafetyMet(a)
  {
    var d := a.document;
    var x := When(RequireApproval in d.safety, Result(ApprovalBehavior, RequiredCallsAsked(a)));
    var y := When(NoSecretsInOutput in d.safety, Result(NoSecrets, !a.secretDetected));
    var z := When(ForbidUnapprovedWrites in d.safety, Result(UnapprovedWriteTools, WritesApproved(a)));
    AllPassedConcat(x, y);
    AllPassedConcat(x + y, z);
  }

  lemma LimitsPass(a: Args)
    ensures AllPassed(LimitResults(a)) <==> LimitsMet(a)
  {
    var c, o := a.configuration, a.observation;
    AllPassedConcat(
      if c.maxCostUsd.Some? then [CostResult(o, c.maxCostUsd.value)] else [],
      if c.maxLatencyMs.Some? then [Result(Latency, o.latencyMs <= c.maxLatencyMs.value)] else []);
  }

  lemma SomeSafety(safety: set<Safety>)
    requires safety != {}
    ensures RequireApproval in safety || NoSecretsInOutput in safety || ForbidUnapprovedWrites in safety
  {
    var s :| s in safety;
    match s
    case RequireApproval =>
    case NoSecretsInOutput =>
    case ForbidUnapprovedWrites =>
  }

  lemma NothingAsked(le: Canonical.KeyOrder, a: Args)
    ensures OutcomeResults(le, a) + ToolResults(a) + SafetyResults(a) + LimitResults(a) == [] <==> AsksNothing(a)
  {
    if a.document.safety != {} {
      SomeSafety(a.document.safety);
    }
  }

  lemma FourPartsPass(w: seq<Assertion>, x: seq<Assertion>, y: seq<Assertion>, z: seq<Assertion>, alone: Assertion)
    ensures var all := w + x + y + z;
            AllPassed(if all == [] then [alone] else all) <==>
            AllPassed(w) && AllPassed(x) && AllPassed(y) && AllPassed(z) && (all == [] ==> alone.status == Passed)
  {
    AllPassedConcat(w, x);
    AllPassedConcat(w + x, y);
    AllPassedConcat(w + x + y, z);
  }

  /** The case ran without an error and meets every criterion asked of it; a case of which nothing is
      asked has completed. */
  ghost predicate CriteriaMet(le: Canonical.KeyOrder, a: Args)
  {
    && OutcomeMet(le, a) && ToolsMet(a) && SafetyMet(a) && LimitsMet(a)
    && (AsksNothing(a) ==> a.observation.status == "completed")
  }

  /** A case that passes meets its criteria under any comparator; a case whose expected output has no
      tied keys passes exactly when it meets them. */
  lemma CasePassesExactly(le: Canonical.KeyOrder, a: Args)
    requires Canonical.TotalPreorder(le) && ValidOutputs(a)
    ensures AllPassed(AssertionsFor(le, a)) ==> CriteriaMet(le, a)
    ensures ExpectationUntied(le, a.document) ==> (AllPassed(AssertionsFor(le, a)) <==> CriteriaMet(le, a))
  {
    OutcomePasses(le, a);
    ToolsPass(a);
    SafetyPasses(a);
    LimitsPass(a);
    NothingAsked(le, a);
    FourPartsPass(OutcomeResults(le, a), ToolResults(a), SafetyResults(a), LimitResults(a),
                  Result(Completion, a.observation.status == "completed"));
  }

  /** An execution error fails the case whatever else is asked. */
  lemma ErrorsAlwaysFail(le: Canonical.KeyOrder, a: Args)
    requires a.observation.error.Some?
    ensures !AllPassed(AssertionsFor(le, a))
  {
    var all := OutcomeResults(le, a) + ToolResults(a) + SafetyResults(a) + LimitResults(a);
    assert OutcomeResults(le, a)[0] == Result(Execution, false);
    assert all[0] == Result(Execution, false) && all[0] in all;
  }
}
