/** Completed evaluation reports, stored as one indexed run row and one row per case. Reading rebuilds
    the report from canonical JSON texts and checks every indexed column against it.
 */
module EvaluationRunStore {
  import opened JsonText
  import Canonical = CanonicalJson
  import Judge = EvaluationAssertions
  import Keyset
  import opened Wrappers

  // ---------------------------------------------------------------------------------------------
  // Reports. `rest` is the canonical text of the properties that have no member here.
  // ---------------------------------------------------------------------------------------------

  /** An assertion of the judged case with its message. */
  datatype Assertion = Assertion(result: Judge.Assertion, message: string)

  datatype Usage = Usage(inputTokens: nat, outputTokens: nat, totalTokens: nat)

  datatype Snapshot = Snapshot(caseId: Option<string>, revision: Option<nat>, documentHash: string, critical: bool, rest: Text)

  datatype Observation = Observation(status: string, usage: Option<Usage>, latencyMs: nat, costUsd: Option<real>, rest: Text)

  datatype RunCase = RunCase(
    position: nat, snapshot: Snapshot, observation: Observation, assertions: seq<Assertion>, passed: bool)

  datatype Configuration = Configuration(engineId: string, providerId: string, modelId: string, rest: Text)

  datatype Summary = Summary(
    total: nat, passed: nat, failed: nat, criticalFailed: nat, totalCostUsd: Option<real>, totalLatencyMs: nat)

  /** The report without its cases. */
  datatype Metadata = Metadata(
    schemaVersion: nat, id: string, configuration: Configuration, configurationHash: string,
    startedAt: string, completedAt: string, status: string, passed: bool, summary: Summary, rest: Text)

  datatype Report = Report(meta: Metadata, cases: seq<RunCase>)

  // ---------------------------------------------------------------------------------------------
  // The outside: JSON.parse, the schemas, the hash of the serialized report, Date.parse
  // ---------------------------------------------------------------------------------------------

  /** A schema writes accepted values as JSON objects and reads JSON back. */
  datatype Schema<!T> = Schema(accepts: T -> bool, encode: T -> Json, decode: Json -> Option<T>)

  datatype Env = Env(
    parse: Text -> Option<Json>,
    snapshot: Snapshot -> Json, assertions: seq<Assertion> -> Json, usage: Option<Usage> -> Json,
    configuration: Configuration -> Json,
    result: Schema<RunCase>, metadata: Schema<Metadata>,
    digest: Report -> string, instant: string -> int)

  /** Decoding does not depend on key order, and gives back what was encoded. */
  ghost predicate LawfulSchema<T(!new)>(s: Schema<T>)
  {
    forall x :: s.accepts(x) ==>
      s.encode(x).Obj? && Valid(s.encode(x)) && forall j {:trigger s.decode(j)} :: Canonical.Equal(s.encode(x), j) ==> s.decode(j) == Some(x)
  }

  /** Parsing a canonical text gives the value up to key order, and it prints to the same text. */
  ghost predicate LawfulParse(parse: Text -> Option<Json>)
  {
    forall v :: Valid(v) ==>
      var p := parse(Canonical.CanonicalJson(v));
      p.Some? && Canonical.Equal(v, p.value) && Canonical.CanonicalJson(p.value) == Canonical.CanonicalJson(v)
  }

  ghost predicate Lawful(env: Env)
  {
    && LawfulParse(env.parse) && LawfulSchema(env.result) && LawfulSchema(env.metadata)
    && (forall x :: Valid(env.snapshot(x))) && (forall x :: Valid(env.assertions(x)))
    && (forall x :: Valid(env.usage(x))) && (forall x :: Valid(env.configuration(x)))
  }

  /** The compact parser, allowing the final newline, is lawful. */
  function ParseLine(t: Text): Option<Json>
  {
    var p := ParseValue(t);
    if p.Success? && (p.rest == [] || p.rest == [Canonical.NEWLINE]) then Some(p.value) else None
  }

  lemma ParseLineIsLawful()
    ensures LawfulParse(ParseLine)
  {
    forall v | Valid(v)
      ensures var p := ParseLine(Canonical.CanonicalJson(v)); p.Some? && Canonical.Equal(v, p.value) && Canonical.CanonicalJson(p.value) == Canonical.CanonicalJson(v)
    {
      Canonical.CanonicalJsonRoundTrip(v);
    }
  }

  // ---------------------------------------------------------------------------------------------
  // Sums over cases
  // ---------------------------------------------------------------------------------------------

  datatype Aggregates = Aggregates(
    passedCases: nat, assertions: nat, passedAssertions: nat, inputTokens: nat, outputTokens: nat)

  function PassedAssertions(s: seq<Assertion>): nat
  {
    if s == [] then 0
    else PassedAssertions(s[..|s| - 1]) + if s[|s| - 1].result.status == Judge.Passed then 1 else 0
  }

  function InputTokens(c: RunCase): nat
  {
    if c.observation.usage.Some? then c.observation.usage.value.inputTokens else 0
  }

  function OutputTokens(c: RunCase): nat
  {
    if c.observation.usage.Some? then c.observation.usage.value.outputTokens else 0
  }

  /** One left fold over the cases. */
  function ReportAggregates(cases: seq<RunCase>): Aggregates
  {
    if cases == [] then Aggregates(0, 0, 0, 0, 0)
    else
      var total, c := ReportAggregates(cases[..|cases| - 1]), cases[|cases| - 1];
      Aggregates(
        total.passedCases + if c.passed then 1 else 0,
        total.assertions + |c.assertions|,
        total.passedAssertions + PassedAssertions(c.assertions),
        total.inputTokens + InputTokens(c),
        total.outputTokens + OutputTokens(c))
  }

  function Sum<T>(s: seq<T>, f: T -> int): int
  {
    if s == [] then 0 else Sum(s[..|s| - 1], f) + f(s[|s| - 1])
  }

  function DurationMs(env: Env, m: Metadata): nat
  {
    var d := env.instant(m.completedAt) - env.instant(m.startedAt);
    if d < 0 then 0 else d
  }

  // ---------------------------------------------------------------------------------------------
  // What the report schema demands
  // ---------------------------------------------------------------------------------------------

  predicate PositionsContiguous(cases: seq<RunCase>)
  {
    forall i :: 0 <= i < |cases| ==> cases[i].position == i
  }

  predicate SummaryOk(r: Report)
  {
    var s := r.meta.summary;
    var passed := Sum(r.cases, (c: RunCase) => if c.passed then 1 else 0);
    && s.total == |r.cases| && s.passed == passed && s.failed == |r.cases| - passed
    && s.criticalFailed == Sum(r.cases, (c: RunCase) => if c.snapshot.critical && !c.passed then 1 else 0)
    && r.meta.passed == (s.criticalFailed == 0)
    && s.totalLatencyMs == Sum(r.cases, (c: RunCase) => c.observation.latencyMs)
    && s.totalCostUsd.Some? == (forall c :: c in r.cases ==> c.observation.costUsd.Some?)
  }

  predicate ReportOk(env: Env, r: Report)
  {
    && env.metadata.accepts(r.meta) && (forall c :: c in r.cases ==> env.result.accepts(c))
    && 1 <= |r.cases| <= 100 && PositionsContiguous(r.cases) && SummaryOk(r)
    && env.instant(r.meta.startedAt) <= env.instant(r.meta.completedAt)
  }

  // ---------------------------------------------------------------------------------------------
  // Rows
  // ---------------------------------------------------------------------------------------------

  datatype RunIndex = RunIndex(
    id: string, schemaVersion: nat, engine: string, provider: string, model: string, status: string, passed: int,
    startedAt: string, completedAt: string, durationMs: int, configSha: string,
    caseCount: int, passedCaseCount: int, failedCaseCount: int,
    assertionCount: int, passedAssertionCount: int, failedAssertionCount: int,
    inputTokens: int, outputTokens: int, costUsd: Option<real>, totalLatencyMs: int)

  datatype RunRow = RunRow(index: RunIndex, configSnapshot: Text, metadata: Text, reportSha: string)

  datatype CaseIndex = CaseIndex(
    status: string, passed: int, sourceCaseId: Option<string>, sourceCaseRevision: Option<nat>, caseSha: string,
    assertionCount: int, passedAssertionCount: int, failedAssertionCount: int,
    inputTokens: int, outputTokens: int, costUsd: Option<real>, latencyMs: int)

  datatype CaseRow = CaseRow(
    runId: string, position: int, index: CaseIndex, snapshot: Text, result: Text, assertions: Text, usage: Text)

  /** Case rows are listed in insertion order. */
  datatype Tables = Tables(runs: map<string, RunRow>, cases: seq<CaseRow>)

  function Number(b: bool): int { if b then 1 else 0 }

  function RunIndexOf(env: Env, r: Report): RunIndex
  {
    var m, a := r.meta, ReportAggregates(r.cases);
    RunIndex(
      m.id, m.schemaVersion, m.configuration.engineId, m.configuration.providerId, m.configuration.modelId,
      m.status, Number(m.passed), m.startedAt, m.completedAt, DurationMs(env, m), m.configurationHash,
      |r.cases|, a.passedCases, |r.cases| - a.passedCases,
      a.assertions, a.passedAssertions, a.assertions - a.passedAssertions,
      a.inputTokens, a.outputTokens, m.summary.totalCostUsd, m.summary.totalLatencyMs)
  }

  function CaseIndexOf(c: RunCase): CaseIndex
  {
    var passed := PassedAssertions(c.assertions);
    CaseIndex(
      c.observation.status, Number(c.passed), c.snapshot.caseId, c.snapshot.revision, c.snapshot.documentHash,
      |c.assertions|, passed, |c.assertions| - passed,
      InputTokens(c), OutputTokens(c), c.observation.costUsd, c.observation.latencyMs)
  }

  function RunRowOf(env: Env, r: Report): RunRow
  {
    RunRow(RunIndexOf(env, r), Canonical.CanonicalJson(env.configuration(r.meta.configuration)),
           Canonical.CanonicalJson(env.metadata.encode(r.meta)), env.digest(r))
  }

  function CaseRowOf(env: Env, id: string, c: RunCase): CaseRow
  {
    CaseRow(id, c.position, CaseIndexOf(c), Canonical.CanonicalJson(env.snapshot(c.snapshot)), Canonical.CanonicalJson(env.result.encode(c)),
            Canonical.CanonicalJson(env.assertions(c.assertions)), Canonical.CanonicalJson(env.usage(c.observation.usage)))
  }

  function CaseRowsOf(env: Env, id: string, cases: seq<RunCase>): (r: seq<CaseRow>)
    ensures |r| == |cases| && forall i :: 0 <= i < |cases| ==> r[i] == CaseRowOf(env, id, cases[i])
  {
    seq(|cases|, i requires 0 <= i < |cases| => CaseRowOf(env, id, cases[i]))
  }

  // ---------------------------------------------------------------------------------------------
  // Writing
  // ---------------------------------------------------------------------------------------------

  datatype Error = InvalidReport | ConstraintViolation
  datatype Inserted = Ok(tables: Tables) | Err(error: Error)

  const MAX_SAFE_INTEGER := 9007199254740991
  const MAX_DURATION_MS := 2678400000
  const MAX_REVISION := 2147483647

  /** CHECK constraints that a report accepted by the schema can still break. */
  predicate RunStorable(i: RunIndex)
  {
    && i.durationMs <= MAX_DURATION_MS && i.inputTokens <= MAX_SAFE_INTEGER && i.outputTokens <= MAX_SAFE_INTEGER
    && 1 <= i.assertionCount <= 50000
  }

  predicate CaseStorable(r: CaseRow)
  {
    && 0 <= r.position <= 99
    && r.index.inputTokens <= MAX_SAFE_INTEGER && r.index.outputTokens <= MAX_SAFE_INTEGER
    && r.index.sourceCaseId.Some? == r.index.sourceCaseRevision.Some?
    && (r.index.sourceCaseRevision.Some? ==> 1 <= r.index.sourceCaseRevision.value <= MAX_REVISION)
  }

  predicate CaseTaken(cases: seq<CaseRow>, id: string, position: int)
  {
    exists k :: 0 <= k < |cases| && cases[k].runId == id && cases[k].position == position
  }

  predicate CaseFits(env: Env, stored: seq<CaseRow>, id: string, c: RunCase)
  {
    CaseStorable(CaseRowOf(env, id, c)) && !CaseTaken(stored, id, c.position)
  }

  function Insert(env: Env, t: Tables, r: Report): Inserted
  {
    if !ReportOk(env, r) then Err(InvalidReport)
    else if r.meta.id in t.runs || !RunStorable(RunIndexOf(env, r)) ||
            (exists c :: c in r.cases && !CaseFits(env, t.cases, r.meta.id, c))
    then Err(ConstraintViolation)
    else Ok(Tables(t.runs[r.meta.id := RunRowOf(env, r)], t.cases + CaseRowsOf(env, r.meta.id, r.cases)))
  }

  // ---------------------------------------------------------------------------------------------
  // Reading
  // ---------------------------------------------------------------------------------------------

  datatype Reading = Missing | Corrupt | Found(report: Report)

  function RowsOf(cases: seq<CaseRow>, id: string): seq<Keyset.Row<int, CaseRow>>
  {
    if cases == [] then []
    else
      var n := |cases| - 1;
      RowsOf(cases[..n], id) + if cases[n].runId == id then [Keyset.Row(cases[n].position, cases[n])] else []
  }

  /** WHERE run_id = ? ORDER BY position. */
  function CasesInOrder(t: Tables, id: string): seq<Keyset.Row<int, CaseRow>>
  {
    Keyset.OrderBy((a: int, b: int) => a < b, RowsOf(t.cases, id))
  }

  /** A stored JSON text prints canonically as expected. */
  predicate TextMatches(env: Env, stored: Text, expected: Json)
  {
    var p := env.parse(stored);
    p.Some? && Canonical.CanonicalJson(p.value) == Canonical.CanonicalJson(expected)
  }

  function ParseObject<T>(env: Env, schema: Schema<T>, stored: Text): Option<T>
  {
    var p := env.parse(stored);
    if p.Some? && p.value.Obj? then schema.decode(p.value) else None
  }

  function ParseCaseRow(env: Env, row: CaseRow): Option<RunCase>
  {
    var result := ParseObject(env, env.result, row.result);
    if result.None? then None
    else
      var c := result.value;
      if !TextMatches(env, row.snapshot, env.snapshot(c.snapshot)) ||
         !TextMatches(env, row.assertions, env.assertions(c.assertions)) ||
         !TextMatches(env, row.usage, env.usage(c.observation.usage)) ||
         row.position != c.position || row.index != CaseIndexOf(c) then None
      else result
  }

  /** All results, or nothing when one is missing. */
  function Collect<A, B>(s: seq<A>, f: A -> Option<B>): Option<seq<B>>
  {
    if s == [] then Some([])
    else
      var before, last := Collect(s[..|s| - 1], f), f(s[|s| - 1]);
      if before.None? || last.None? then None else Some(before.value + [last.value])
  }

  function ParseCases(env: Env, rows: seq<Keyset.Row<int, CaseRow>>): Option<seq<RunCase>>
  {
    Collect(rows, (r: Keyset.Row<int, CaseRow>) => ParseCaseRow(env, r.value))
  }

  function Get(env: Env, t: Tables, id: string): Reading
  {
    if id !in t.runs || t.runs[id].metadata == [] || t.runs[id].configSnapshot == [] then Missing
    else
      var run, rows := t.runs[id], CasesInOrder(t, id);
      if |rows| != run.index.caseCount || (exists i :: 0 <= i < |rows| && rows[i].value.position != i) then Corrupt
      else
        var meta, cases := ParseObject(env, env.metadata, run.metadata), ParseCases(env, rows);
        if meta.None? || cases.None? then Corrupt else Verified(env, run, Report(meta.value, cases.value))
  }

  function Verified(env: Env, run: RunRow, r: Report): Reading
  {
    if !ReportOk(env, r) || !TextMatches(env, run.configSnapshot, env.configuration(r.meta.configuration)) ||
       env.digest(r) != run.reportSha || run.index != RunIndexOf(env, r) then Corrupt
    else Found(r)
  }

  // ---------------------------------------------------------------------------------------------
  // The store as the program runs it
  // ---------------------------------------------------------------------------------------------

  class RunDatabase {
    var runs: map<string, RunRow>
    var cases: seq<CaseRow>

    function State(): Tables
      reads this
    {
      Tables(runs, cases)
    }

    constructor ()
      ensures State() == Tables(map[], [])
    {
      runs, cases := map[], [];
    }

    /** One transaction: the run row, then one row per case; any failure rolls all of it back. */
    method InsertEvaluationRun(env: Env, r: Report) returns (error: Option<Error>)
      modifies this
      ensures match Insert(env, old(State()), r)
              case Ok(t) => error == None && State() == t
              case Err(e) => error == Some(e) && State() == old(State())
    {
      if !ReportOk(env, r) {
        return Some(InvalidReport);
      }
      if r.meta.id in runs || !RunStorable(RunIndexOf(env, r)) {
        return Some(ConstraintViolation);
      }
      var runsBefore, casesBefore := runs, cases;
      runs := runs[r.meta.id := RunRowOf(env, r)];
      var ok := InsertCases(env, r.meta.id, r.cases);
      if !ok {
        runs, cases := runsBefore, casesBefore;
        return Some(ConstraintViolation);
      }
      return None;
    }

    method InsertCases(env: Env, id: string, items: seq<RunCase>) returns (ok: bool)
      requires PositionsContiguous(items)
      modifies this`cases
      ensures ok == (forall c :: c in items ==> CaseFits(env, old(cases), id, c))
      ensures ok ==> cases == old(cases) + CaseRowsOf(env, id, items)
    {
      ghost var rows := CaseRowsOf(env, id, items);
      for i := 0 to |items|
        invariant cases == old(cases) + rows[..i]
        invariant forall k :: 0 <= k < i ==> CaseFits(env, old(cases), id, items[k])
      {
        TakenIsTakenBefore(env, old(cases), id, items, i);
        if !CaseStorable(CaseRowOf(env, id, items[i])) || CaseTaken(cases, id, items[i].position) {
          assert items[i] in items;
          return false;
        }
        cases := cases + [CaseRowOf(env, id, items[i])];
        assert rows[..i + 1] == rows[..i] + [rows[i]];
      }
      assert rows[..|items|] == rows;
      return true;
    }
  }

  /** Positions within one report are distinct, so a case can only collide with a stored row. */
  lemma TakenIsTakenBefore(env: Env, before: seq<CaseRow>, id: string, cases: seq<RunCase>, i: nat)
    requires i < |cases| && PositionsContiguous(cases)
    ensures CaseTaken(before + CaseRowsOf(env, id, cases)[..i], id, cases[i].position) <==>
            CaseTaken(before, id, cases[i].position)
  {
    var rows := CaseRowsOf(env, id, cases);
    var all := before + rows[..i];
    assert forall j :: 0 <= j < i ==> all[|before| + j] == rows[j] && rows[j].position == j;
    if CaseTaken(all, id, cases[i].position) {
      var k :| 0 <= k < |all| && all[k].runId == id && all[k].position == cases[i].position;
      assert k < |before|;
      assert all[k] == before[k];
    }
    if CaseTaken(before, id, cases[i].position) {
      var k :| 0 <= k < |before| && before[k].runId == id && before[k].position == cases[i].position;
      assert all[k] == before[k];
    }
  }
}
