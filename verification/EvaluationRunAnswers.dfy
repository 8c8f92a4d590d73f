/** What a stored run says and when it is stored and read, with every column, limit and count written out.
 */
module EvaluationRunAnswers {
  import opened JsonText
  import Canonical = CanonicalJson
  import Judge = EvaluationAssertions
  import Keyset
  import Runner = EvaluationRunner
  import opened EvaluationRunLaws
  import opened EvaluationRunStore
  import opened Wrappers

  // ---------------------------------------------------------------------------------------------
  // Counting
  // ---------------------------------------------------------------------------------------------

  /** The positions at which a condition holds. */
  function Positions<T>(s: seq<T>, p: T -> bool): set<nat>
  {
    set i: nat | i < |s| && p(s[i])
  }

  lemma OneMorePosition<T>(s: seq<T>, p: T -> bool)
    requires s != []
    ensures var n := |s| - 1; |Positions(s, p)| == |Positions(s[..n], p)| + if p(s[n]) then 1 else 0
  {
    var n := |s| - 1;
    var before := Positions(s[..n], p);
    assert forall i: nat :: i < n ==> s[..n][i] == s[i];
    assert n !in before;
    assert Positions(s, p) == if p(s[n]) then before + {n} else before;
  }

  lemma {:induction false} SumCountsPositions<T>(s: seq<T>, f: T -> int, p: T -> bool)
    requires forall x :: x in s ==> f(x) == if p(x) then 1 else 0
    ensures Sum(s, f) == |Positions(s, p)|
    decreases |s|
  {
    if s != [] {
      SumCountsPositions(s[..|s| - 1], f, p);
      OneMorePosition(s, p);
    } else {
      assert Positions(s, p) == {};
    }
  }

  lemma {:induction false} SumsOfSame<T>(s: seq<T>, f: T -> int, g: T -> int)
    requires forall x :: x in s ==> f(x) == g(x)
    ensures Sum(s, f) == Sum(s, g)
    decreases |s|
  {
    if s != [] {
      SumsOfSame(s[..|s| - 1], f, g);
    }
  }

  /** A sum is what its parts add up to. */
  lemma {:induction false} SumAddsUp<T>(s: seq<T>, t: seq<T>, f: T -> int)
    ensures Sum<T>([], f) == 0 && (|t| == 1 ==> Sum(t, f) == f(t[0]))
    ensures Sum(s + t, f) == Sum(s, f) + Sum(t, f)
    decreases |t|
  {
    if t == [] {
      assert s + t == s;
    } else {
      var n := |t| - 1;
      SumAddsUp(s, t[..n], f);
      assert (s + t)[..|s + t| - 1] == s + t[..n];
    }
  }

  predicate Passing(c: RunCase) { c.passed }
  predicate Failing(c: RunCase) { !c.passed }
  predicate FailingCritical(c: RunCase) { c.snapshot.critical && !c.passed }
  predicate PassedOne(a: Assertion) { a.result.status == Judge.Passed }

  function AssertionsOf(c: RunCase): int { |c.assertions| }
  function PassedOf(c: RunCase): int { |Positions(c.assertions, PassedOne)| }
  function LatencyOf(c: RunCase): int { c.observation.latencyMs }

  function InputOf(c: RunCase): int
  {
    match c.observation.usage case None => 0 case Some(u) => u.inputTokens
  }

  function OutputOf(c: RunCase): int
  {
    match c.observation.usage case None => 0 case Some(u) => u.outputTokens
  }

  lemma {:induction false} PassedAssertionsCounts(s: seq<Assertion>)
    ensures PassedAssertions(s) == |Positions(s, PassedOne)|
    decreases |s|
  {
    if s != [] {
      PassedAssertionsCounts(s[..|s| - 1]);
      OneMorePosition(s, PassedOne);
    } else {
      assert Positions(s, PassedOne) == {};
    }
  }

  lemma {:induction false} AggregatesAreSums(cases: seq<RunCase>)
    ensures var a := ReportAggregates(cases);
            && a.passedCases == |Positions(cases, Passing)|
            && a.assertions == Sum(cases, AssertionsOf) && a.passedAssertions == Sum(cases, PassedOf)
            && a.inputTokens == Sum(cases, InputOf) && a.outputTokens == Sum(cases, OutputOf)
    decreases |cases|
  {
    if cases != [] {
      AggregatesAreSums(cases[..|cases| - 1]);
      PassedAssertionsCounts(cases[|cases| - 1].assertions);
      OneMorePosition(cases, Passing);
    } else {
      assert Positions(cases, Passing) == {};
    }
  }

  // ---------------------------------------------------------------------------------------------
  // Rows
  // ---------------------------------------------------------------------------------------------

  ghost predicate RunFacts(i: RunIndex, m: Metadata)
  {
    && i.id == m.id && i.schemaVersion == m.schemaVersion && i.status == m.status
    && i.engine == m.configuration.engineId && i.provider == m.configuration.providerId
    && i.model == m.configuration.modelId && i.configSha == m.configurationHash
    && i.passed == (if m.passed then 1 else 0) && i.startedAt == m.startedAt && i.completedAt == m.completedAt
    && i.costUsd == m.summary.totalCostUsd && i.totalLatencyMs == m.summary.totalLatencyMs
  }

  ghost predicate RunCounts(i: RunIndex, cases: seq<RunCase>)
  {
    && i.caseCount == |cases|
    && i.passedCaseCount == |Positions(cases, Passing)| && i.failedCaseCount == |cases| - i.passedCaseCount
    && i.assertionCount == Sum(cases, AssertionsOf) && i.passedAssertionCount == Sum(cases, PassedOf)
    && i.failedAssertionCount == i.assertionCount - i.passedAssertionCount
    && i.inputTokens == Sum(cases, InputOf) && i.outputTokens == Sum(cases, OutputOf)
  }

  /** Every column of a run row. */
  lemma RunRowIsExact(env: Env, r: Report)
    ensures var row, m := RunRowOf(env, r), r.meta;
            var elapsed := env.instant(m.completedAt) - env.instant(m.startedAt);
            && RunFacts(row.index, m) && RunCounts(row.index, r.cases)
            && row.index.durationMs == (if elapsed >= 0 then elapsed else 0)
            && row.configSnapshot == Canonical.CanonicalJson(env.configuration(m.configuration))
            && row.metadata == Canonical.CanonicalJson(env.metadata.encode(m)) && row.reportSha == env.digest(r)
  {
    AggregatesAreSums(r.cases);
  }

  ghost predicate CaseFacts(i: CaseIndex, c: RunCase)
  {
    && i.status == c.observation.status && i.passed == (if c.passed then 1 else 0)
    && i.sourceCaseId == c.snapshot.caseId && i.sourceCaseRevision == c.snapshot.revision
    && i.caseSha == c.snapshot.documentHash
    && i.assertionCount == |c.assertions| && i.passedAssertionCount == |Positions(c.assertions, PassedOne)|
    && i.failedAssertionCount == i.assertionCount - i.passedAssertionCount
    && i.inputTokens == InputOf(c) && i.outputTokens == OutputOf(c)
    && i.costUsd == c.observation.costUsd && i.latencyMs == c.observation.latencyMs
  }

  /** Every column of a case row. */
  lemma CaseRowIsExact(env: Env, id: string, c: RunCase)
    ensures var row := CaseRowOf(env, id, c);
            && row.runId == id && row.position == c.position && CaseFacts(row.index, c)
            && row.snapshot == Canonical.CanonicalJson(env.snapshot(c.snapshot))
            && row.result == Canonical.CanonicalJson(env.result.encode(c))
            && row.assertions == Canonical.CanonicalJson(env.assertions(c.assertions))
            && row.usage == Canonical.CanonicalJson(env.usage(c.observation.usage))
  {
    PassedAssertionsCounts(c.assertions);
  }

  lemma CaseColumnsDetermine(i: CaseIndex, c: RunCase)
    ensures i == CaseIndexOf(c) <==> CaseFacts(i, c)
  {
    PassedAssertionsCounts(c.assertions);
  }

  // ---------------------------------------------------------------------------------------------
  // Inserting
  // ---------------------------------------------------------------------------------------------

  /** The summary counts the cases. */
  ghost predicate SummaryCounts(m: Metadata, cases: seq<RunCase>)
  {
    && m.summary.total == |cases|
    && m.summary.passed == |Positions(cases, Passing)| && m.summary.failed == |Positions(cases, Failing)|
    && m.summary.criticalFailed == |Positions(cases, FailingCritical)|
    && (m.passed <==> forall i :: 0 <= i < |cases| ==> !FailingCritical(cases[i]))
    && m.summary.totalLatencyMs == Sum(cases, LatencyOf)
    && (m.summary.totalCostUsd.Some? <==> forall i :: 0 <= i < |cases| ==> cases[i].observation.costUsd.Some?)
  }

  lemma {:induction false} PassingAndFailing(cases: seq<RunCase>)
    ensures |Positions(cases, Passing)| + |Positions(cases, Failing)| == |cases|
    decreases |cases|
  {
    if cases != [] {
      PassingAndFailing(cases[..|cases| - 1]);
      OneMorePosition(cases, Passing);
      OneMorePosition(cases, Failing);
    } else {
      assert Positions(cases, Passing) == {} && Positions(cases, Failing) == {};
    }
  }

  lemma NoPositions<T>(s: seq<T>, p: T -> bool)
    ensures |Positions(s, p)| == 0 <==> forall i :: 0 <= i < |s| ==> !p(s[i])
  {
    if i :| 0 <= i < |s| && p(s[i]) {
      assert i in Positions(s, p);
    } else {
      assert Positions(s, p) == {};
    }
  }

  lemma SummaryIsCounted(r: Report)
    ensures SummaryOk(r) <==> SummaryCounts(r.meta, r.cases)
  {
    var cases := r.cases;
    SumCountsPositions(cases, (c: RunCase) => if c.passed then 1 else 0, Passing);
    SumCountsPositions(cases, (c: RunCase) => if c.snapshot.critical && !c.passed then 1 else 0, FailingCritical);
    SumsOfSame(cases, (c: RunCase) => c.observation.latencyMs, LatencyOf);
    PassingAndFailing(cases);
    NoPositions(cases, FailingCritical);
    assert forall i :: 0 <= i < |cases| ==> cases[i] in cases;
  }

  /** What the report schema accepts. */
  ghost predicate Acceptable(env: Env, r: Report)
  {
    && env.metadata.accepts(r.meta)
    && 1 <= |r.cases| <= 100
    && (forall i :: 0 <= i < |r.cases| ==> env.result.accepts(r.cases[i]) && r.cases[i].position == i)
    && SummaryCounts(r.meta, r.cases)
    && env.instant(r.meta.startedAt) <= env.instant(r.meta.completedAt)
  }

  /** What the CHECK constraints and keys of the case table demand of a case. */
  ghost predicate CaseAdmitted(stored: seq<CaseRow>, id: string, c: RunCase)
  {
    && InputOf(c) <= 9007199254740991 && OutputOf(c) <= 9007199254740991
    && (c.snapshot.caseId.Some? <==> c.snapshot.revision.Some?)
    && (c.snapshot.revision.Some? ==> 1 <= c.snapshot.revision.value <= 2147483647)
    && (forall k :: 0 <= k < |stored| ==> stored[k].runId != id || stored[k].position != c.position)
  }

  /** What the run table demands: a new ID, at most 31 days, and bounded counts. */
  ghost predicate RunAdmitted(env: Env, t: Tables, r: Report)
  {
    && r.meta.id !in t.runs
    && env.instant(r.meta.completedAt) - env.instant(r.meta.startedAt) <= 31 * 24 * 60 * 60 * 1000
    && Sum(r.cases, InputOf) <= 9007199254740991 && Sum(r.cases, OutputOf) <= 9007199254740991
    && 1 <= Sum(r.cases, AssertionsOf) <= 50000
  }

  lemma AcceptableIsOk(env: Env, r: Report)
    ensures ReportOk(env, r) <==> Acceptable(env, r)
  {
    SummaryIsCounted(r);
    assert forall i :: 0 <= i < |r.cases| ==> r.cases[i] in r.cases;
  }

  lemma CaseIsAdmitted(env: Env, stored: seq<CaseRow>, id: string, c: RunCase)
    requires c.position <= 99
    ensures CaseFits(env, stored, id, c) <==> CaseAdmitted(stored, id, c)
  {
  }

  lemma CasesAreAdmitted(env: Env, t: Tables, r: Report)
    requires Acceptable(env, r)
    ensures (exists c :: c in r.cases && !CaseFits(env, t.cases, r.meta.id, c)) <==>
            !forall i :: 0 <= i < |r.cases| ==> CaseAdmitted(t.cases, r.meta.id, r.cases[i])
  {
    forall i | 0 <= i < |r.cases|
      ensures CaseFits(env, t.cases, r.meta.id, r.cases[i]) <==> CaseAdmitted(t.cases, r.meta.id, r.cases[i])
    {
      CaseIsAdmitted(env, t.cases, r.meta.id, r.cases[i]);
    }
    assert forall i :: 0 <= i < |r.cases| ==> r.cases[i] in r.cases;
  }

  ghost predicate Admitted(env: Env, t: Tables, r: Report)
  {
    RunAdmitted(env, t, r) && forall i :: 0 <= i < |r.cases| ==> CaseAdmitted(t.cases, r.meta.id, r.cases[i])
  }

  lemma RunIsAdmitted(env: Env, t: Tables, r: Report)
    requires Acceptable(env, r)
    ensures r.meta.id !in t.runs && RunStorable(RunIndexOf(env, r)) <==> RunAdmitted(env, t, r)
  {
    AggregatesAreSums(r.cases);
  }

  lemma StoredRows(env: Env, t: Tables, r: Report)
    requires Insert(env, t, r).Ok?
    ensures var after := Insert(env, t, r).tables;
            && after.runs == t.runs[r.meta.id := RunRowOf(env, r)]
            && |after.cases| == |t.cases| + |r.cases| && after.cases[..|t.cases|] == t.cases
            && forall i :: 0 <= i < |r.cases| ==> after.cases[|t.cases| + i] == CaseRowOf(env, r.meta.id, r.cases[i])
  {
  }

  /** When a report is stored, why not, and what is stored of it. */
  lemma InsertAnswersExactly(env: Env, t: Tables, r: Report)
    ensures Insert(env, t, r) == Err(InvalidReport) <==> !Acceptable(env, r)
    ensures Insert(env, t, r) == Err(ConstraintViolation) <==> Acceptable(env, r) && !Admitted(env, t, r)
    ensures Acceptable(env, r) && Admitted(env, t, r) ==>
            var after := Insert(env, t, r).tables;
            && after.runs == t.runs[r.meta.id := RunRowOf(env, r)]
            && |after.cases| == |t.cases| + |r.cases| && after.cases[..|t.cases|] == t.cases
            && forall i :: 0 <= i < |r.cases| ==> after.cases[|t.cases| + i] == CaseRowOf(env, r.meta.id, r.cases[i])
  {
    AcceptableIsOk(env, r);
    if Acceptable(env, r) {
      CasesAreAdmitted(env, t, r);
      RunIsAdmitted(env, t, r);
      if Insert(env, t, r).Ok? {
        StoredRows(env, t, r);
      }
    }
  }

  // ---------------------------------------------------------------------------------------------
  // Reading
  // ---------------------------------------------------------------------------------------------

  /** A case row that decodes to the case, lies at its place and agrees with it in every column. */
  ghost predicate RowShows(env: Env, row: CaseRow, k: int, c: RunCase)
  {
    && ParseObject(env, env.result, row.result) == Some(c)
    && row.position == k == c.position && CaseFacts(row.index, c) && TextsDescribe(env, row, c)
  }

  /** A run row that decodes to the metadata and agrees with the report in every column. */
  ghost predicate RunShows(env: Env, row: RunRow, r: Report)
  {
    && ParseObject(env, env.metadata, row.metadata) == Some(r.meta)
    && TextMatches(env, row.configSnapshot, env.configuration(r.meta.configuration))
    && row.reportSha == env.digest(r) && RunFacts(row.index, r.meta) && RunCounts(row.index, r.cases)
    && row.index.durationMs == env.instant(r.meta.completedAt) - env.instant(r.meta.startedAt)
  }

  ghost predicate Shows(env: Env, t: Tables, id: string, r: Report)
    requires id in t.runs
  {
    var rows := CasesInOrder(t, id);
    && Acceptable(env, r) && RunShows(env, t.runs[id], r) && |rows| == |r.cases|
    && forall k :: 0 <= k < |rows| ==> RowShows(env, rows[k].value, k, r.cases[k])
  }

  lemma ParsedRowIsShown(env: Env, row: CaseRow, c: RunCase)
    ensures ParseCaseRow(env, row) == Some(c) <==> RowShows(env, row, row.position, c)
  {
    CaseColumnsDetermine(row.index, c);
  }

  lemma ParsedRowsAreShown(env: Env, rows: CaseRows, cases: seq<RunCase>)
    requires |rows| == |cases|
    ensures ParseCases(env, rows) == Some(cases) <==>
            forall k :: 0 <= k < |rows| ==> RowShows(env, rows[k].value, rows[k].value.position, cases[k])
  {
    var f := (r: Keyset.Row<int, CaseRow>) => ParseCaseRow(env, r.value);
    forall k | 0 <= k < |rows|
      ensures f(rows[k]) == Some(cases[k]) <==> RowShows(env, rows[k].value, rows[k].value.position, cases[k])
    {
      ParsedRowIsShown(env, rows[k].value, cases[k]);
    }
    if forall k :: 0 <= k < |rows| ==> RowShows(env, rows[k].value, rows[k].value.position, cases[k]) {
      CollectsAll(rows, f, cases);
    }
    if ParseCases(env, rows) == Some(cases) {
      CollectedOneByOne(rows, f);
    }
  }

  lemma RunColumnsDetermine(env: Env, row: RunRow, r: Report)
    requires Acceptable(env, r)
    ensures ParseObject(env, env.metadata, row.metadata) == Some(r.meta) ==>
              (Verified(env, row, r) == Found(r) <==> RunShows(env, row, r))
  {
    AcceptableIsOk(env, r);
    AggregatesAreSums(r.cases);
  }

  /** A run is missing without its row or with a blank text in it; it is found with the one report that its
      rows show, and corrupt when they show none. */
  lemma ReadingIsExact(env: Env, t: Tables, id: string)
    ensures Get(env, t, id) == Missing <==>
            id !in t.runs || t.runs[id].metadata == [] || t.runs[id].configSnapshot == []
    ensures Get(env, t, id) != Missing ==>
            forall r :: Get(env, t, id) == Found(r) <==> Shows(env, t, id, r)
  {
    if Get(env, t, id) != Missing {
      forall r ensures Get(env, t, id) == Found(r) <==> Shows(env, t, id, r) {
        if Get(env, t, id) == Found(r) {
          FoundIsShown(env, t, id, r);
        }
        if Shows(env, t, id, r) {
          ShownIsFound(env, t, id, r);
        }
      }
    }
  }

  lemma FoundIsShown(env: Env, t: Tables, id: string, r: Report)
    requires Get(env, t, id) == Found(r)
    ensures Shows(env, t, id, r)
  {
    var rows := CasesInOrder(t, id);
    ParsedRowsDescribe(env, rows);
    ParsedRowsAreShown(env, rows, r.cases);
    AcceptableIsOk(env, r);
    RunColumnsDetermine(env, t.runs[id], r);
  }

  lemma ShownIsFound(env: Env, t: Tables, id: string, r: Report)
    requires Get(env, t, id) != Missing && Shows(env, t, id, r)
    ensures Get(env, t, id) == Found(r)
  {
    var rows := CasesInOrder(t, id);
    ParsedRowsAreShown(env, rows, r.cases);
    RunColumnsDetermine(env, t.runs[id], r);
    GetFinds(env, t, id, rows, r);
  }

  // ---------------------------------------------------------------------------------------------
  // The runner's summary
  // ---------------------------------------------------------------------------------------------

  /** The summary of the runner counts the cases. */
  lemma SummaryIsExact(judged: seq<Runner.Judged>, meta: Metadata)
    ensures var cases := Runner.CaseResults(judged);
            |Runner.FailedCases(cases)| <= |cases| &&
            var summary := Runner.Summarize(cases);
            && SummaryCounts(meta.(summary := summary, passed := Runner.RunPassed(cases)), cases)
            && (Runner.AllPriced(cases) ==> summary.totalCostUsd == Some(Runner.Costs(cases)))
  {
    var cases := Runner.CaseResults(judged);
    Runner.RunnerReportFitsSchema(judged, meta);
    SummaryIsCounted(Report(meta.(summary := Runner.Summarize(cases), passed := Runner.RunPassed(cases)), cases));
  }

  /** The total cost adds up the cases, and is unknown as soon as one cost is. */
  lemma CostsAddUp(cases: seq<RunCase>, c: RunCase)
    ensures Runner.AllPriced([]) && Runner.Costs([]) == 0.0
    ensures Runner.AllPriced(cases + [c]) <==> Runner.AllPriced(cases) && c.observation.costUsd.Some?
    ensures Runner.AllPriced(cases + [c]) ==>
            Runner.Costs(cases + [c]) == Runner.Costs(cases) + c.observation.costUsd.value
  {
    var all := cases + [c];
    assert all[|cases|] == c && c in all && forall x :: x in cases ==> x in all;
    assert all[..|all| - 1] == cases;
  }
}
