/** Reading a stored report gives back what was inserted, for good; and whatever is in the tables, a
    report that is read at all agrees with every indexed column of its run row and its case rows.
 */
module EvaluationRunLaws {
  import opened JsonText
  import Canonical = CanonicalJson
  import Keyset
  import opened EvaluationRunStore
  import opened Wrappers

  type CaseRows = seq<Keyset.Row<int, CaseRow>>

  // ---------------------------------------------------------------------------------------------
  // Round trip
  // ---------------------------------------------------------------------------------------------

  lemma EncodedParses<T(!new)>(env: Env, schema: Schema<T>, x: T)
    requires LawfulParse(env.parse) && LawfulSchema(schema) && schema.accepts(x)
    ensures ParseObject(env, schema, Canonical.CanonicalJson(schema.encode(x))) == Some(x)
  {
    var v := schema.encode(x);
    assert v.Obj? && Valid(v);
    var p := env.parse(Canonical.CanonicalJson(v));
    assert Canonical.Equal(v, p.value);
    assert schema.decode(p.value) == Some(x);
  }

  lemma TextMatchesItself(env: Env, v: Json)
    requires LawfulParse(env.parse) && Valid(v)
    ensures TextMatches(env, Canonical.CanonicalJson(v), v)
  {
  }

  lemma CaseRowParses(env: Env, id: string, c: RunCase)
    requires Lawful(env) && env.result.accepts(c)
    ensures ParseCaseRow(env, CaseRowOf(env, id, c)) == Some(c)
  {
    EncodedParses(env, env.result, c);
    TextMatchesItself(env, env.snapshot(c.snapshot));
    TextMatchesItself(env, env.assertions(c.assertions));
    TextMatchesItself(env, env.usage(c.observation.usage));
  }

  /** The rows of one run, paired with their positions, as a query sees them. */
  function Paired(rows: seq<CaseRow>): (r: CaseRows)
    ensures |r| == |rows| && forall i :: 0 <= i < |rows| ==> r[i] == Keyset.Row(rows[i].position, rows[i])
  {
    seq(|rows|, i requires 0 <= i < |rows| => Keyset.Row(rows[i].position, rows[i]))
  }

  lemma {:induction false} RowsOfConcat(rows: seq<CaseRow>, more: seq<CaseRow>, id: string)
    ensures RowsOf(rows + more, id) == RowsOf(rows, id) + RowsOf(more, id)
    decreases |more|
  {
    if more == [] {
      assert rows + more == rows;
    } else {
      var n := |more| - 1;
      RowsOfConcat(rows, more[..n], id);
      assert (rows + more)[..|rows + more| - 1] == rows + more[..n];
    }
  }

  lemma {:induction false} RowsOfOwner(rows: seq<CaseRow>, id: string)
    requires forall i :: 0 <= i < |rows| ==> rows[i].runId == id
    ensures RowsOf(rows, id) == Paired(rows)
    decreases |rows|
  {
    if rows != [] {
      RowsOfOwner(rows[..|rows| - 1], id);
    }
  }

  /** Case rows refer to run rows, and run rows are keyed by their ID column. */
  ghost predicate KeysHold(t: Tables)
  {
    && (forall i :: 0 <= i < |t.cases| ==> t.cases[i].runId in t.runs)
    && (forall id :: id in t.runs ==> t.runs[id].index.id == id)
  }

  lemma {:induction false} NoRunNoRows(cases: seq<CaseRow>, id: string)
    requires forall i :: 0 <= i < |cases| ==> cases[i].runId != id
    ensures RowsOf(cases, id) == []
    decreases |cases|
  {
    if cases != [] {
      NoRunNoRows(cases[..|cases| - 1], id);
    }
  }

  lemma {:induction false} AscendingStays(rows: CaseRows)
    requires forall i, j :: 0 <= i < j < |rows| ==> rows[i].key < rows[j].key
    ensures Keyset.OrderBy((a: int, b: int) => a < b, rows) == rows
    decreases |rows|
  {
    if rows != [] {
      assert forall i :: 0 <= i < |rows[1..]| ==> rows[1..][i] == rows[i + 1];
      AscendingStays(rows[1..]);
      assert rows == [rows[0]] + rows[1..];
    }
  }

  lemma NewRowsInOrder(before: seq<CaseRow>, rows: seq<CaseRow>, id: string)
    requires forall i :: 0 <= i < |before| ==> before[i].runId != id
    requires forall i :: 0 <= i < |rows| ==> rows[i].runId == id && rows[i].position == i
    ensures Keyset.OrderBy((a: int, b: int) => a < b, RowsOf(before + rows, id)) == Paired(rows)
  {
    NoRunNoRows(before, id);
    RowsOfConcat(before, rows, id);
    RowsOfOwner(rows, id);
    assert [] + Paired(rows) == Paired(rows);
    AscendingStays(Paired(rows));
  }

  lemma {:induction false} CollectsAll<A, B>(s: seq<A>, f: A -> Option<B>, r: seq<B>)
    requires |s| == |r| && forall i :: 0 <= i < |s| ==> f(s[i]) == Some(r[i])
    ensures Collect(s, f) == Some(r)
    decreases |s|
  {
    if s != [] {
      var n := |s| - 1;
      CollectsAll(s[..n], f, r[..n]);
      assert r == r[..n] + [r[n]];
    }
  }

  lemma {:induction false} CollectedOneByOne<A, B>(s: seq<A>, f: A -> Option<B>)
    requires Collect(s, f).Some?
    ensures |Collect(s, f).value| == |s|
    ensures forall i :: 0 <= i < |s| ==> f(s[i]) == Some(Collect(s, f).value[i])
    decreases |s|
  {
    if s != [] {
      CollectedOneByOne(s[..|s| - 1], f);
    }
  }

  lemma InsertedCasesParse(env: Env, id: string, cases: seq<RunCase>)
    requires Lawful(env) && forall c :: c in cases ==> env.result.accepts(c)
    ensures ParseCases(env, Paired(CaseRowsOf(env, id, cases))) == Some(cases)
  {
    var rows := Paired(CaseRowsOf(env, id, cases));
    forall i | 0 <= i < |cases| ensures ParseCaseRow(env, rows[i].value) == Some(cases[i]) {
      assert cases[i] in cases;
      CaseRowParses(env, id, cases[i]);
    }
    CollectsAll(rows, (r: Keyset.Row<int, CaseRow>) => ParseCaseRow(env, r.value), cases);
  }

  lemma InsertedReportVerifies(env: Env, r: Report)
    requires Lawful(env) && ReportOk(env, r)
    ensures Verified(env, RunRowOf(env, r), r) == Found(r)
    ensures ParseObject(env, env.metadata, RunRowOf(env, r).metadata) == Some(r.meta)
    ensures RunRowOf(env, r).metadata != [] && RunRowOf(env, r).configSnapshot != []
    ensures RunRowOf(env, r).index.caseCount == |r.cases|
  {
    TextMatchesItself(env, env.configuration(r.meta.configuration));
    EncodedParses(env, env.metadata, r.meta);
  }

  lemma GetFinds(env: Env, t: Tables, id: string, rows: CaseRows, r: Report)
    requires id in t.runs && t.runs[id].metadata != [] && t.runs[id].configSnapshot != []
    requires CasesInOrder(t, id) == rows && |rows| == t.runs[id].index.caseCount
    requires forall i :: 0 <= i < |rows| ==> rows[i].value.position == i
    requires ParseObject(env, env.metadata, t.runs[id].metadata) == Some(r.meta)
    requires ParseCases(env, rows) == Some(r.cases)
    ensures Get(env, t, id) == Verified(env, t.runs[id], r)
  {
  }

  lemma InsertedRowsInOrder(env: Env, before: seq<CaseRow>, id: string, cases: seq<RunCase>)
    requires PositionsContiguous(cases) && forall i :: 0 <= i < |before| ==> before[i].runId != id
    ensures Keyset.OrderBy((a: int, b: int) => a < b, RowsOf(before + CaseRowsOf(env, id, cases), id)) ==
            Paired(CaseRowsOf(env, id, cases))
    ensures forall i :: 0 <= i < |cases| ==> Paired(CaseRowsOf(env, id, cases))[i].value.position == i
  {
    NewRowsInOrder(before, CaseRowsOf(env, id, cases), id);
  }

  lemma WithRunReadsBack(env: Env, t: Tables, r: Report)
    requires Lawful(env) && ReportOk(env, r) && r.meta.id in t.runs && t.runs[r.meta.id] == RunRowOf(env, r)
    requires CasesInOrder(t, r.meta.id) == Paired(CaseRowsOf(env, r.meta.id, r.cases))
    requires forall i :: 0 <= i < |r.cases| ==> Paired(CaseRowsOf(env, r.meta.id, r.cases))[i].value.position == i
    ensures Get(env, t, r.meta.id) == Found(r)
  {
    InsertedCasesParse(env, r.meta.id, r.cases);
    InsertedReportVerifies(env, r);
    GetFinds(env, t, r.meta.id, CasesInOrder(t, r.meta.id), r);
  }

  /** An inserted report is read back unchanged. */
  lemma InsertedReportReadsBack(env: Env, t: Tables, r: Report)
    requires Lawful(env) && KeysHold(t) && Insert(env, t, r).Ok?
    ensures Get(env, Insert(env, t, r).tables, r.meta.id) == Found(r)
  {
    InsertedRowsInOrder(env, t.cases, r.meta.id, r.cases);
    WithRunReadsBack(env, Insert(env, t, r).tables, r);
  }

  lemma SameRowsSameReading(env: Env, t: Tables, t': Tables, id: string)
    requires id in t.runs <==> id in t'.runs
    requires id in t.runs ==> t.runs[id] == t'.runs[id]
    requires RowsOf(t.cases, id) == RowsOf(t'.cases, id)
    ensures Get(env, t, id) == Get(env, t', id)
  {
    assert CasesInOrder(t, id) == CasesInOrder(t', id);
  }

  lemma InsertLeavesOthers(env: Env, t: Tables, r: Report, id: string)
    requires Insert(env, t, r).Ok? && id != r.meta.id
    ensures Get(env, Insert(env, t, r).tables, id) == Get(env, t, id)
  {
    var t' := Insert(env, t, r).tables;
    var rows := CaseRowsOf(env, r.meta.id, r.cases);
    RowsOfConcat(t.cases, rows, id);
    NoRunNoRows(rows, id);
    SameRowsSameReading(env, t, t', id);
  }

  function Step(env: Env, t: Tables, r: Report): Tables
  {
    var o := Insert(env, t, r);
    if o.Ok? then o.tables else t
  }

  function Run(env: Env, t: Tables, reports: seq<Report>): Tables
    decreases |reports|
  {
    if reports == [] then t else Run(env, Step(env, t, reports[0]), reports[1..])
  }

  lemma InsertKeepsKeys(env: Env, t: Tables, r: Report)
    requires KeysHold(t)
    ensures KeysHold(Step(env, t, r))
  {
  }

  /** A stored report is permanent: later inserts, even of the same ID, do not change what is read. */
  lemma {:induction false} ReadingIsPermanent(env: Env, t: Tables, reports: seq<Report>, id: string)
    requires id in t.runs
    ensures id in Run(env, t, reports).runs && Get(env, Run(env, t, reports), id) == Get(env, t, id)
    decreases |reports|
  {
    if reports != [] {
      if Insert(env, t, reports[0]).Ok? {
        InsertLeavesOthers(env, t, reports[0], id);
      }
      ReadingIsPermanent(env, Step(env, t, reports[0]), reports[1..], id);
    }
  }

  const Empty := Tables(map[], [])

  lemma {:induction false} RunKeepsKeys(env: Env, t: Tables, reports: seq<Report>)
    requires KeysHold(t)
    ensures KeysHold(Run(env, t, reports))
    decreases |reports|
  {
    if reports != [] {
      InsertKeepsKeys(env, t, reports[0]);
      RunKeepsKeys(env, Step(env, t, reports[0]), reports[1..]);
    }
  }

  /** From an empty database, whatever was inserted before and is inserted later: a report whose insert
      succeeded is read back unchanged. */
  lemma InsertedReportStays(env: Env, earlier: seq<Report>, r: Report, later: seq<Report>)
    requires Lawful(env) && Insert(env, Run(env, Empty, earlier), r).Ok?
    ensures Get(env, Run(env, Insert(env, Run(env, Empty, earlier), r).tables, later), r.meta.id) == Found(r)
  {
    var t := Run(env, Empty, earlier);
    RunKeepsKeys(env, Empty, earlier);
    InsertedReportReadsBack(env, t, r);
    ReadingIsPermanent(env, Insert(env, t, r).tables, later, r.meta.id);
  }

  // ---------------------------------------------------------------------------------------------
  // Whatever is read agrees with the columns
  // ---------------------------------------------------------------------------------------------

  function RowPassed(r: Keyset.Row<int, CaseRow>): int { r.value.index.passed }
  function RowAssertions(r: Keyset.Row<int, CaseRow>): int { r.value.index.assertionCount }
  function RowPassedAssertions(r: Keyset.Row<int, CaseRow>): int { r.value.index.passedAssertionCount }
  function RowInputTokens(r: Keyset.Row<int, CaseRow>): int { r.value.index.inputTokens }
  function RowOutputTokens(r: Keyset.Row<int, CaseRow>): int { r.value.index.outputTokens }
  function RowLatency(r: Keyset.Row<int, CaseRow>): int { r.value.index.latencyMs }

  ghost predicate RowsDescribe(rows: CaseRows, cases: seq<RunCase>)
  {
    |rows| == |cases| && forall i :: 0 <= i < |rows| ==>
      rows[i].value.index == CaseIndexOf(cases[i]) && rows[i].value.position == cases[i].position
  }

  /** The JSON columns of a case row say what its case says. */
  predicate TextsDescribe(env: Env, row: CaseRow, c: RunCase)
  {
    && TextMatches(env, row.snapshot, env.snapshot(c.snapshot))
    && TextMatches(env, row.assertions, env.assertions(c.assertions))
    && TextMatches(env, row.usage, env.usage(c.observation.usage))
  }

  lemma ParsedRowDescribes(env: Env, row: CaseRow)
    requires ParseCaseRow(env, row).Some?
    ensures var c := ParseCaseRow(env, row).value;
            row.index == CaseIndexOf(c) && row.position == c.position && TextsDescribe(env, row, c)
  {
  }

  lemma ParsedRowsDescribe(env: Env, rows: CaseRows)
    requires ParseCases(env, rows).Some?
    ensures RowsDescribe(rows, ParseCases(env, rows).value)
    ensures forall i :: 0 <= i < |rows| ==> TextsDescribe(env, rows[i].value, ParseCases(env, rows).value[i])
  {
    var cases := ParseCases(env, rows).value;
    CollectedOneByOne(rows, (r: Keyset.Row<int, CaseRow>) => ParseCaseRow(env, r.value));
    forall i | 0 <= i < |rows|
      ensures rows[i].value.index == CaseIndexOf(cases[i]) && rows[i].value.position == cases[i].position
      ensures TextsDescribe(env, rows[i].value, cases[i])
    {
      ParsedRowDescribes(env, rows[i].value);
    }
  }

  lemma {:induction false} SumsAgree(rows: CaseRows, cases: seq<RunCase>)
    requires RowsDescribe(rows, cases)
    ensures var a := ReportAggregates(cases);
            && a.passedCases == Sum(rows, RowPassed) && a.assertions == Sum(rows, RowAssertions)
            && a.passedAssertions == Sum(rows, RowPassedAssertions)
            && a.inputTokens == Sum(rows, RowInputTokens) && a.outputTokens == Sum(rows, RowOutputTokens)
    ensures Sum(cases, (c: RunCase) => c.observation.latencyMs) == Sum(rows, RowLatency)
    ensures Sum(cases, (c: RunCase) => if c.passed then 1 else 0) == Sum(rows, RowPassed)
    decreases |rows|
  {
    if rows != [] {
      SumsAgree(rows[..|rows| - 1], cases[..|cases| - 1]);
    }
  }

  /** The columns of a run row, recomputed from its case rows alone. */
  ghost predicate IndexAddsUp(i: RunIndex, rows: CaseRows)
  {
    && i.caseCount == |rows|
    && i.passedCaseCount == Sum(rows, RowPassed)
    && i.failedCaseCount == |rows| - Sum(rows, RowPassed)
    && i.assertionCount == Sum(rows, RowAssertions)
    && i.passedAssertionCount == Sum(rows, RowPassedAssertions)
    && i.failedAssertionCount == Sum(rows, RowAssertions) - Sum(rows, RowPassedAssertions)
    && i.inputTokens == Sum(rows, RowInputTokens)
    && i.outputTokens == Sum(rows, RowOutputTokens)
    && i.totalLatencyMs == Sum(rows, RowLatency)
  }

  /** On any contents of the tables: a report that is returned agrees with every column of its run row, the
      hash among them, its case rows are numbered 0..n-1, every case column describes its case, and the
      run row is the sum of its case rows and agrees with the report's own summary. */
  lemma ReadReportAgreesWithRows(env: Env, t: Tables, id: string)
    requires Get(env, t, id).Found?
    ensures id in t.runs
    ensures var r, rows, row := Get(env, t, id).report, CasesInOrder(t, id), t.runs[id];
            && row.index == RunIndexOf(env, r) && row.reportSha == env.digest(r)
            && TextMatches(env, row.configSnapshot, env.configuration(r.meta.configuration))
            && RowsDescribe(rows, r.cases)
            && (forall k :: 0 <= k < |rows| ==> rows[k].value.position == k && TextsDescribe(env, rows[k].value, r.cases[k]))
            && IndexAddsUp(row.index, rows)
            && row.index.passedCaseCount == r.meta.summary.passed && row.index.failedCaseCount == r.meta.summary.failed
            && row.index.durationMs == env.instant(r.meta.completedAt) - env.instant(r.meta.startedAt)
            && (row.index.passed == 1 <==> r.meta.summary.criticalFailed == 0)
            && row.index.costUsd == r.meta.summary.totalCostUsd
  {
    var rows := CasesInOrder(t, id);
    ParsedRowsDescribe(env, rows);
    SumsAgree(rows, ParseCases(env, rows).value);
  }

  // ---------------------------------------------------------------------------------------------
  // The bounded list agrees with the full report
  // ---------------------------------------------------------------------------------------------

  /** A list entry is made from the index columns alone, without loading the report. */
  datatype ListRecord = ListRecord(
    id: string, engine: string, provider: string, model: string, status: string, passed: bool,
    startedAt: string, completedAt: string, caseCount: int, passedCaseCount: int, failedCaseCount: int,
    costUsd: Option<real>, totalLatencyMs: int)

  function RunListRecord(row: RunRow): ListRecord
  {
    var i := row.index;
    ListRecord(i.id, i.engine, i.provider, i.model, i.status, i.passed == 1, i.startedAt, i.completedAt,
               i.caseCount, i.passedCaseCount, i.failedCaseCount, i.costUsd, i.totalLatencyMs)
  }

  /** Listing a run shows exactly what loading and verifying its report would show. */
  lemma ListAgreesWithReport(env: Env, t: Tables, id: string)
    requires Get(env, t, id).Found?
    ensures id in t.runs
    ensures var e, m := RunListRecord(t.runs[id]), Get(env, t, id).report.meta;
            && e.id == m.id && e.engine == m.configuration.engineId && e.provider == m.configuration.providerId
            && e.model == m.configuration.modelId && e.status == m.status && e.passed == m.passed
            && e.startedAt == m.startedAt && e.completedAt == m.completedAt
            && e.caseCount == m.summary.total && e.passedCaseCount == m.summary.passed
            && e.failedCaseCount == m.summary.failed
            && e.costUsd == m.summary.totalCostUsd && e.totalLatencyMs == m.summary.totalLatencyMs
  {
    ReadReportAgreesWithRows(env, t, id);
    SumsAgree(CasesInOrder(t, id), Get(env, t, id).report.cases);
  }
}
