/** Assembling a report from judged cases. Whatever the cases are, the run store's schema accepts the
    summary that the runner computes.
 */
module EvaluationRunner {
  import opened JsonText
  import Canonical = CanonicalJson
  import Judge = EvaluationAssertions
  import opened EvaluationRunStore
  import opened Wrappers

  /** A selected case with what the engine returned for it and how it was judged. */
  datatype Judged = Judged(snapshot: Snapshot, observation: Observation, assertions: seq<Assertion>)

  function Verdicts(assertions: seq<Assertion>): (r: seq<Judge.Assertion>)
    ensures |r| == |assertions| && forall i :: 0 <= i < |assertions| ==> r[i] == assertions[i].result
  {
    seq(|assertions|, i requires 0 <= i < |assertions| => assertions[i].result)
  }

  predicate AllPassed(assertions: seq<Assertion>)
  {
    Judge.AllPassed(Verdicts(assertions))
  }

  function CaseResults(judged: seq<Judged>): (r: seq<RunCase>)
    ensures |r| == |judged|
    ensures forall i :: 0 <= i < |judged| ==>
      r[i] == RunCase(i, judged[i].snapshot, judged[i].observation, judged[i].assertions, AllPassed(judged[i].assertions))
  {
    seq(|judged|, i requires 0 <= i < |judged| =>
      RunCase(i, judged[i].snapshot, judged[i].observation, judged[i].assertions, AllPassed(judged[i].assertions)))
  }

  function Filter<T>(s: seq<T>, keep: T -> bool): seq<T>
  {
    if s == [] then []
    else Filter(s[..|s| - 1], keep) + if keep(s[|s| - 1]) then [s[|s| - 1]] else []
  }

  function Latencies(cases: seq<RunCase>): nat
  {
    if cases == [] then 0 else Latencies(cases[..|cases| - 1]) + cases[|cases| - 1].observation.latencyMs
  }

  function Costs(cases: seq<RunCase>): real
    requires AllPriced(cases)
  {
    if cases == [] then 0.0
    else
      assert cases[|cases| - 1] in cases;
      Costs(cases[..|cases| - 1]) + cases[|cases| - 1].observation.costUsd.value
  }

  predicate AllPriced(cases: seq<RunCase>)
  {
    forall c :: c in cases ==> c.observation.costUsd.Some?
  }

  function FailedCases(cases: seq<RunCase>): seq<RunCase>
  {
    Filter(cases, (c: RunCase) => !c.passed)
  }

  function CriticalFailed(cases: seq<RunCase>): seq<RunCase>
  {
    Filter(FailedCases(cases), (c: RunCase) => c.snapshot.critical)
  }

  function Summarize(cases: seq<RunCase>): Summary
    requires |FailedCases(cases)| <= |cases|
  {
    var failed := FailedCases(cases);
    Summary(|cases|, |cases| - |failed|, |failed|, |CriticalFailed(cases)|,
            if AllPriced(cases) then Some(Costs(cases)) else None, Latencies(cases))
  }

  /** The run passes when every failed case is uncritical. */
  predicate RunPassed(cases: seq<RunCase>)
  {
    forall c :: c in FailedCases(cases) ==> !c.snapshot.critical
  }

  lemma {:induction false} FilterHas<T>(s: seq<T>, keep: T -> bool, x: T)
    ensures |Filter(s, keep)| <= |s|
    ensures x in Filter(s, keep) <==> x in s && keep(x)
    decreases |s|
  {
    if s != [] {
      FilterHas(s[..|s| - 1], keep, x);
      assert s == s[..|s| - 1] + [s[|s| - 1]];
    }
  }

  lemma {:induction false} FailuresAddUp(cases: seq<RunCase>)
    ensures |FailedCases(cases)| <= |cases|
    ensures Sum(cases, (c: RunCase) => if c.passed then 1 else 0) == |cases| - |FailedCases(cases)|
    ensures Sum(cases, (c: RunCase) => if c.snapshot.critical && !c.passed then 1 else 0) == |CriticalFailed(cases)|
    ensures Sum(cases, (c: RunCase) => c.observation.latencyMs) == Latencies(cases)
    decreases |cases|
  {
    if cases != [] {
      var n := |cases| - 1;
      FailuresAddUp(cases[..n]);
      var before := FailedCases(cases[..n]);
      if !cases[n].passed {
        assert FailedCases(cases) == before + [cases[n]];
        assert (before + [cases[n]])[..|before|] == before;
      } else {
        assert FailedCases(cases) == before;
      }
    }
  }

  lemma CriticalFailuresDecide(cases: seq<RunCase>)
    ensures RunPassed(cases) <==> |CriticalFailed(cases)| == 0
  {
    var critical := (c: RunCase) => c.snapshot.critical;
    var failed := FailedCases(cases);
    if !RunPassed(cases) {
      var c :| c in failed && c.snapshot.critical;
      FilterHas(failed, critical, c);
    }
    if |CriticalFailed(cases)| != 0 {
      FilterHas(failed, critical, CriticalFailed(cases)[0]);
    }
  }

  /** The report the runner builds is numbered and summed up as the report schema, and so the run store,
      demands: storing it never fails on its summary. */
  lemma RunnerReportFitsSchema(judged: seq<Judged>, meta: Metadata)
    ensures |FailedCases(CaseResults(judged))| <= |CaseResults(judged)|
    ensures var cases := CaseResults(judged);
            var r := Report(meta.(summary := Summarize(cases), passed := RunPassed(cases)), cases);
            PositionsContiguous(r.cases) && SummaryOk(r)
  {
    var cases := CaseResults(judged);
    FailuresAddUp(cases);
    CriticalFailuresDecide(cases);
  }

  /** The run passes exactly when every critical case passed all of its assertions. */
  lemma RunPassesExactly(judged: seq<Judged>)
    ensures RunPassed(CaseResults(judged)) <==>
            forall j :: j in judged && j.snapshot.critical ==> AllPassed(j.assertions)
  {
    var cases := CaseResults(judged);
    var failing := (c: RunCase) => !c.passed;
    if RunPassed(cases) {
      forall j | j in judged && j.snapshot.critical ensures AllPassed(j.assertions) {
        var i :| 0 <= i < |judged| && judged[i] == j;
        assert cases[i] in cases;
        FilterHas(cases, failing, cases[i]);
      }
    } else {
      var c :| c in FailedCases(cases) && c.snapshot.critical;
      FilterHas(cases, failing, c);
      var i :| 0 <= i < |cases| && cases[i] == c;
      assert judged[i] in judged;
    }
  }

  /** What a judged case was judged on: its assertions are those that the criteria give for `args`. */
  ghost predicate JudgedOn(le: Canonical.KeyOrder, j: Judged, args: Judge.Args)
  {
    Verdicts(j.assertions) == Judge.AssertionsFor(le, args)
  }

  ghost predicate CriticalCriteriaMet(le: Canonical.KeyOrder, judged: seq<Judged>, args: seq<Judge.Args>)
    requires |args| == |judged|
  {
    forall i :: 0 <= i < |judged| && judged[i].snapshot.critical ==> Judge.CriteriaMet(le, args[i])
  }

  predicate AllUntied(le: Canonical.KeyOrder, args: seq<Judge.Args>)
  {
    forall i :: 0 <= i < |args| ==> Judge.ExpectationUntied(le, args[i].document)
  }

  /** From the criteria of the cases to the verdict of the run: a run that passes met them in every critical
      case, and when no expected output has tied keys it passes exactly then. */
  lemma RunPassesWhenCriteriaAreMet(le: Canonical.KeyOrder, judged: seq<Judged>, args: seq<Judge.Args>)
    requires Canonical.TotalPreorder(le) && |args| == |judged|
    requires forall i :: 0 <= i < |judged| ==> JudgedOn(le, judged[i], args[i]) && Judge.ValidOutputs(args[i])
    ensures RunPassed(CaseResults(judged)) ==> CriticalCriteriaMet(le, judged, args)
    ensures AllUntied(le, args) ==> (RunPassed(CaseResults(judged)) <==> CriticalCriteriaMet(le, judged, args))
  {
    RunPassesExactly(judged);
    forall i | 0 <= i < |judged|
      ensures AllPassed(judged[i].assertions) ==> Judge.CriteriaMet(le, args[i])
      ensures Judge.ExpectationUntied(le, args[i].document) && Judge.CriteriaMet(le, args[i]) ==>
              AllPassed(judged[i].assertions)
    {
      Judge.CasePassesExactly(le, args[i]);
    }
    assert forall i :: 0 <= i < |judged| ==> judged[i] in judged;
  }
}
