/** Comparison of two completed evaluation reports, case by case over the union of their keys. */
module EvaluationComparison {
  import opened Wrappers

  datatype Case = Case(
    caseId: Option<string>, revision: Option<nat>, documentHash: string, name: string, critical: bool,
    passed: bool, costUsd: Option<real>, latencyMs: int)

  datatype Report = Report(id: string, completed: bool, cases: seq<Case>)

  datatype Classification = CandidateOnly | BaselineOnly | Regression | Improvement | UnchangedPassed | UnchangedFailed

  datatype Row = Row(
    position: nat, caseName: string, classification: Classification,
    baselinePassed: Option<bool>, candidatePassed: Option<bool>, costDelta: Option<real>, latencyDelta: Option<int>)

  datatype Comparison = Comparison(
    baselineId: string, candidateId: string, regressions: nat, improvements: nat, rows: seq<Row>)

  function Decimal(n: nat): string
  {
    if n < 10 then ["0123456789"[n]] else Decimal(n / 10) + ["0123456789"[n % 10]]
  }

  function Key(c: Case): string
  {
    (if c.caseId.Some? then c.caseId.value else "inline") + ":" +
    (if c.revision.Some? then Decimal(c.revision.value) else "inline") + ":" + c.documentHash
  }

  function Keys(cases: seq<Case>): (ks: seq<string>)
    ensures |ks| == |cases| && forall i :: 0 <= i < |cases| ==> ks[i] == Key(cases[i])
  {
    if cases == [] then [] else [Key(cases[0])] + Keys(cases[1..])
  }

  /** The lookup table of a report; a repeated key keeps its last case. */
  function ByKey(cases: seq<Case>): map<string, Case>
  {
    if cases == [] then map[] else map[Key(cases[0]) := cases[0]] + ByKey(cases[1..])
  }

  function Without(ks: seq<string>, m: map<string, Case>): seq<string>
  {
    if ks == [] then [] else (if ks[0] in m then [] else [ks[0]]) + Without(ks[1..], m)
  }

  function OrderedKeys(b: Report, c: Report): seq<string>
  {
    Keys(b.cases) + Without(Keys(c.cases), ByKey(b.cases))
  }

  function Lookup(m: map<string, Case>, k: string): Option<Case>
  {
    if k in m then Some(m[k]) else None
  }

  function Classify(before: Option<Case>, after: Option<Case>): Classification
  {
    if before.None? then CandidateOnly
    else if after.None? then BaselineOnly
    else if before.value.passed && !after.value.passed then Regression
    else if !before.value.passed && after.value.passed then Improvement
    else if before.value.passed then UnchangedPassed
    else UnchangedFailed
  }

  function CostDelta(before: Option<Case>, after: Option<Case>): Option<real>
  {
    if before.Some? && after.Some? && before.value.costUsd.Some? && after.value.costUsd.Some?
    then Some(after.value.costUsd.value - before.value.costUsd.value)
    else None
  }

  function RowFor(position: nat, before: Option<Case>, after: Option<Case>): Row
  {
    Row(position,
        if after.Some? then after.value.name else if before.Some? then before.value.name else "Unknown case",
        Classify(before, after),
        if before.Some? then Some(before.value.passed) else None,
        if after.Some? then Some(after.value.passed) else None,
        CostDelta(before, after),
        if before.Some? && after.Some? then Some(after.value.latencyMs - before.value.latencyMs) else None)
  }

  function Rows(ks: seq<string>, b: map<string, Case>, c: map<string, Case>): (rows: seq<Row>)
    ensures |rows| == |ks|
    ensures forall i :: 0 <= i < |ks| ==> rows[i] == RowFor(i, Lookup(b, ks[i]), Lookup(c, ks[i]))
  {
    seq(|ks|, i requires 0 <= i < |ks| => RowFor(i, Lookup(b, ks[i]), Lookup(c, ks[i])))
  }

  function CountRows(rows: seq<Row>, cls: Classification): nat
  {
    if rows == [] then 0
    else CountRows(rows[..|rows| - 1], cls) + if rows[|rows| - 1].classification == cls then 1 else 0
  }

  /** `None` when a report is not completed. */
  function Compare(b: Report, c: Report): Option<Comparison>
  {
    if !b.completed || !c.completed then None
    else
      var rows := Rows(OrderedKeys(b, c), ByKey(b.cases), ByKey(c.cases));
      Some(Comparison(b.id, c.id, CountRows(rows, Regression), CountRows(rows, Improvement), rows))
  }

  // ---------------------------------------------------------------------------------------------
  // Distinct keys and sums over them
  // ---------------------------------------------------------------------------------------------

  ghost predicate Distinct(ks: seq<string>)
  {
    forall i, j :: 0 <= i < j < |ks| ==> ks[i] != ks[j]
  }

  ghost predicate DistinctKeys(r: Report)
  {
    Distinct(Keys(r.cases))
  }

  lemma DistinctSoFar(ks: seq<string>, i: nat)
    requires i < |ks| && Distinct(ks[..i])
    ensures if ks[i] in ks[..i] then !Distinct(ks) else Distinct(ks[..i + 1])
  {
    if ks[i] in ks[..i] {
      var j :| 0 <= j < i && ks[..i][j] == ks[i];
      assert ks[j] == ks[i];
    } else {
      assert forall j :: 0 <= j < i ==> ks[..i][j] != ks[i] && ks[..i + 1][j] == ks[..i][j];
    }
  }

  // ---------------------------------------------------------------------------------------------
  // The runner's own key
  // ---------------------------------------------------------------------------------------------

  /** A template literal prints a missing case ID and a missing revision as "null". */
  function RunnerKey(c: Case): string
  {
    (if c.caseId.Some? then c.caseId.value else "null") + ":" +
    (if c.revision.Some? then Decimal(c.revision.value) else "null") + ":" + c.documentHash
  }

  function RunnerKeys(cases: seq<Case>): (ks: seq<string>)
    ensures |ks| == |cases| && forall i :: 0 <= i < |cases| ==> ks[i] == RunnerKey(cases[i])
  {
    seq(|cases|, i requires 0 <= i < |cases| => RunnerKey(cases[i]))
  }

  /** What the snapshot schema demands: case ID and revision come together, and a hash is hexadecimal. */
  predicate SnapshotOk(c: Case)
  {
    c.caseId.Some? == c.revision.Some? && ':' !in c.documentHash
  }

  lemma NoColonAfterLast(a: string, x: string, n: nat)
    requires ':' !in x && n < |a + ":" + x|
    ensures (a + ":" + x)[n] == ':' ==> n <= |a|
  {
    if n > |a| {
      assert (a + ":" + x)[n] == x[n - |a| - 1];
    }
  }

  lemma LastColonSplits(a: string, x: string, b: string, y: string)
    requires ':' !in x && ':' !in y && a + ":" + x == b + ":" + y
    ensures a == b && x == y
  {
    var s, t := a + ":" + x, b + ":" + y;
    assert s[|a|] == ':' && t[|b|] == ':';
    NoColonAfterLast(a, x, |b|);
    NoColonAfterLast(b, y, |a|);
    assert s[..|a|] == a && t[..|b|] == b && s[|a| + 1..] == x && t[|b| + 1..] == y;
  }

  lemma {:induction false} DecimalIsDigits(n: nat)
    ensures Decimal(n) != [] && forall i :: 0 <= i < |Decimal(n)| ==> '0' <= Decimal(n)[i] <= '9'
  {
    if n >= 10 {
      DecimalIsDigits(n / 10);
    }
  }

  /** The middle part of either key: never a colon, and a decimal exactly when there is a revision. */
  lemma MiddlePart(c: Case, missing: string)
    requires missing == "null" || missing == "inline"
    ensures var m := if c.revision.Some? then Decimal(c.revision.value) else missing;
            ':' !in m && m != [] && ('0' <= m[0] <= '9' <==> c.revision.Some?)
  {
    if c.revision.Some? {
      DecimalIsDigits(c.revision.value);
    }
  }

  /** A key is equal to another exactly when its three parts are. */
  lemma PartsOfKeys(a: string, m: string, x: string, b: string, n: string, y: string)
    requires ':' !in m && ':' !in x && ':' !in n && ':' !in y
    ensures a + ":" + m + ":" + x == b + ":" + n + ":" + y <==> a == b && m == n && x == y
  {
    if a + ":" + m + ":" + x == b + ":" + n + ":" + y {
      LastColonSplits(a + ":" + m, x, b + ":" + n, y);
      LastColonSplits(a, m, b, n);
    }
  }

  lemma DecimalEnds(n: nat)
    ensures var k := |Decimal(n)| - 1;
            k >= 0 && Decimal(n)[k] == "0123456789"[n % 10] && (k > 0 <==> n >= 10) &&
            (n >= 10 ==> Decimal(n)[..k] == Decimal(n / 10))
  {
    DecimalIsDigits(n / 10);
  }

  lemma {:induction false} DecimalsDiffer(m: nat, n: nat)
    ensures Decimal(m) == Decimal(n) <==> m == n
    decreases m
  {
    if Decimal(m) == Decimal(n) {
      DecimalEnds(m);
      DecimalEnds(n);
      if m >= 10 {
        DecimalsDiffer(m / 10, n / 10);
      }
    }
  }

  /** Two snapshots share a key exactly when they agree in case ID, revision and document hash. */
  lemma KeysIdentifySnapshots(c: Case, d: Case)
    requires SnapshotOk(c) && SnapshotOk(d)
    ensures Key(c) == Key(d) <==> c.caseId == d.caseId && c.revision == d.revision && c.documentHash == d.documentHash
  {
    MiddlePart(c, "inline");
    MiddlePart(d, "inline");
    PartsOfKeys(
      if c.caseId.Some? then c.caseId.value else "inline",
      if c.revision.Some? then Decimal(c.revision.value) else "inline", c.documentHash,
      if d.caseId.Some? then d.caseId.value else "inline",
      if d.revision.Some? then Decimal(d.revision.value) else "inline", d.documentHash);
    if c.revision.Some? && d.revision.Some? {
      DecimalsDiffer(c.revision.value, d.revision.value);
    }
  }

  /** The runner and the comparison tell the same snapshots apart. */
  lemma RunnerKeysAgree(c: Case, d: Case)
    requires SnapshotOk(c) && SnapshotOk(d)
    ensures RunnerKey(c) == RunnerKey(d) <==> Key(c) == Key(d)
  {
    MiddlePart(c, "null");
    MiddlePart(d, "null");
    MiddlePart(c, "inline");
    MiddlePart(d, "inline");
    PartsOfKeys(
      if c.caseId.Some? then c.caseId.value else "null",
      if c.revision.Some? then Decimal(c.revision.value) else "null", c.documentHash,
      if d.caseId.Some? then d.caseId.value else "null",
      if d.revision.Some? then Decimal(d.revision.value) else "null", d.documentHash);
    PartsOfKeys(
      if c.caseId.Some? then c.caseId.value else "inline",
      if c.revision.Some? then Decimal(c.revision.value) else "inline", c.documentHash,
      if d.caseId.Some? then d.caseId.value else "inline",
      if d.revision.Some? then Decimal(d.revision.value) else "inline", d.documentHash);
  }

  /** The runner refuses a dataset in which two snapshots resolve to one key. */
  method ResolveSelections(snapshots: seq<Case>) returns (ok: bool)
    ensures ok <==> Distinct(RunnerKeys(snapshots))
  {
    var resolved: set<string> := {};
    ghost var ks := RunnerKeys(snapshots);
    for i := 0 to |snapshots|
      invariant forall k :: k in resolved <==> k in ks[..i]
      invariant Distinct(ks[..i])
    {
      var key := RunnerKey(snapshots[i]);
      assert key == ks[i];
      DistinctSoFar(ks, i);
      if key in resolved {
        return false;
      }
      resolved := resolved + {key};
      assert ks[..i + 1] == ks[..i] + [key];
    }
    assert ks[..|snapshots|] == ks;
    ok := true;
  }

  lemma SameDistinctions(ks: seq<string>, ls: seq<string>)
    requires |ks| == |ls| && forall i, j :: 0 <= i < j < |ks| ==> (ks[i] == ks[j] <==> ls[i] == ls[j])
    ensures Distinct(ks) <==> Distinct(ls)
  {
  }

  /** So a dataset is accepted exactly when its report has distinct keys for every comparison. */
  lemma AcceptedDatasetsHaveDistinctKeys(snapshots: seq<Case>)
    requires forall i :: 0 <= i < |snapshots| ==> SnapshotOk(snapshots[i])
    ensures Distinct(RunnerKeys(snapshots)) <==> Distinct(Keys(snapshots))
  {
    var ks, ls := RunnerKeys(snapshots), Keys(snapshots);
    forall i, j | 0 <= i < j < |snapshots| ensures ks[i] == ks[j] <==> ls[i] == ls[j] {
      RunnerKeysAgree(snapshots[i], snapshots[j]);
    }
    SameDistinctions(ks, ls);
  }

  function Sum(ks: seq<string>, f: string -> int): int
  {
    if ks == [] then 0 else f(ks[0]) + Sum(ks[1..], f)
  }

  function Remove(s: seq<string>, i: nat): seq<string>
    requires i < |s|
  {
    s[..i] + s[i + 1..]
  }

  lemma {:induction false} SumRemove(s: seq<string>, i: nat, f: string -> int)
    requires i < |s|
    ensures Sum(s, f) == f(s[i]) + Sum(Remove(s, i), f)
    decreases i
  {
    if i == 0 {
      assert Remove(s, 0) == s[1..];
    } else {
      SumRemove(s[1..], i - 1, f);
      assert Remove(s, i) == [s[0]] + Remove(s[1..], i - 1);
    }
  }

  lemma RemoveKeepsOthers(s: seq<string>, i: nat)
    requires i < |s| && Distinct(s)
    ensures Distinct(Remove(s, i)) && forall k :: k in Remove(s, i) <==> k in s && k != s[i]
  {
    var r := Remove(s, i);
    assert forall j :: 0 <= j < |r| ==> r[j] == s[if j < i then j else j + 1];
    forall k | k in s && k != s[i] ensures k in r {
      var j :| 0 <= j < |s| && s[j] == k;
      assert r[if j < i then j else j - 1] == k;
    }
  }

  lemma {:induction false} SumOfZeros(s: seq<string>, f: string -> int)
    requires forall k :: k in s ==> f(k) == 0
    ensures Sum(s, f) == 0
    decreases |s|
  {
    if s != [] {
      assert s[0] in s;
      SumOfZeros(s[1..], f);
    }
  }

  /** Summing over more keys changes nothing when the extra keys contribute nothing. */
  lemma {:induction false} SumOverMoreKeys(all: seq<string>, own: seq<string>, f: string -> int)
    requires Distinct(all) && Distinct(own) && (forall k :: k in own ==> k in all)
    requires forall k :: k in all && k !in own ==> f(k) == 0
    ensures Sum(all, f) == Sum(own, f)
    decreases |own|
  {
    if own == [] {
      SumOfZeros(all, f);
    } else {
      assert own[0] in own;
      var i :| 0 <= i < |all| && all[i] == own[0];
      SumRemove(all, i, f);
      RemoveKeepsOthers(all, i);
      RemoveKeepsOthers(own, 0);
      assert Remove(own, 0) == own[1..];
      SumOverMoreKeys(Remove(all, i), own[1..], f);
    }
  }

  lemma {:induction false} DistinctCounts(s: seq<string>)
    requires Distinct(s)
    ensures |set k | k in s| == |s|
    decreases |s|
  {
    if s != [] {
      RemoveKeepsOthers(s, 0);
      assert Remove(s, 0) == s[1..];
      DistinctCounts(s[1..]);
      assert (set k | k in s) == (set k | k in s[1..]) + {s[0]};
    }
  }

  lemma {:induction false} WithoutHas(ks: seq<string>, m: map<string, Case>)
    requires Distinct(ks)
    ensures forall k :: k in Without(ks, m) <==> k in ks && k !in m
    ensures Distinct(Without(ks, m))
    decreases |ks|
  {
    if ks != [] {
      RemoveKeepsOthers(ks, 0);
      assert Remove(ks, 0) == ks[1..];
      WithoutHas(ks[1..], m);
    }
  }

  lemma {:induction false} ByKeyHas(cases: seq<Case>)
    requires Distinct(Keys(cases))
    ensures forall k :: k in ByKey(cases) <==> k in Keys(cases)
    ensures forall i :: 0 <= i < |cases| ==> ByKey(cases)[Key(cases[i])] == cases[i]
    decreases |cases|
  {
    if cases != [] {
      var ks := Keys(cases);
      RemoveKeepsOthers(ks, 0);
      assert Remove(ks, 0) == ks[1..] == Keys(cases[1..]);
      ByKeyHas(cases[1..]);
      forall i | 0 <= i < |cases| ensures ByKey(cases)[Key(cases[i])] == cases[i] {
        assert ks[i] in ks;
        if i > 0 {
          assert cases[i] == cases[1..][i - 1] && ks[1..][i - 1] in ks[1..];
        }
      }
    }
  }

  /** The union of the keys is listed, each key once. */
  lemma UnionListedOnce(b: Report, c: Report)
    requires DistinctKeys(b) && DistinctKeys(c)
    ensures Distinct(OrderedKeys(b, c))
    ensures forall k :: k in OrderedKeys(b, c) <==> k in Keys(b.cases) || k in Keys(c.cases)
  {
    var ks, more := Keys(b.cases), Without(Keys(c.cases), ByKey(b.cases));
    WithoutHas(Keys(c.cases), ByKey(b.cases));
    ByKeyHas(b.cases);
    var all := ks + more;
    forall i, j | 0 <= i < j < |all| ensures all[i] != all[j] {
      if i < |ks| <= j {
        assert all[i] in ks && all[j] in more;
      }
    }
  }

  /** Row i is about the i-th of the listed keys, and these are the union of both reports' keys, each once. */
  lemma RowsCoverUnionOnce(b: Report, c: Report)
    requires DistinctKeys(b) && DistinctKeys(c) && b.completed && c.completed
    ensures var rows, ks := Compare(b, c).value.rows, OrderedKeys(b, c);
            && Distinct(ks) && (forall k :: k in ks <==> k in Keys(b.cases) || k in Keys(c.cases))
            && |rows| == |ks| == |(set k | k in Keys(b.cases)) + (set k | k in Keys(c.cases))|
            && (forall i :: 0 <= i < |rows| ==> RowIsAbout(rows[i], i, ks[i], b, c))
  {
    UnionListedOnce(b, c);
    var all := OrderedKeys(b, c);
    DistinctCounts(all);
    assert (set k | k in all) == (set k | k in Keys(b.cases)) + (set k | k in Keys(c.cases));
    forall i | 0 <= i < |all| ensures RowIsAbout(Compare(b, c).value.rows[i], i, all[i], b, c) {
      RowReportsCases(i, all[i], b, c);
    }
  }

  /** `o` is the report's own case with the key, if it has one. */
  ghost predicate IsCaseOf(o: Option<Case>, k: string, cases: seq<Case>)
  {
    && (o == None <==> k !in Keys(cases))
    && forall i :: 0 <= i < |cases| && Key(cases[i]) == k ==> o == Some(cases[i])
  }

  lemma LookupIsCase(cases: seq<Case>, k: string)
    requires Distinct(Keys(cases))
    ensures IsCaseOf(Lookup(ByKey(cases), k), k, cases)
  {
    ByKeyHas(cases);
  }

  lemma RowReportsCases(position: nat, k: string, b: Report, c: Report)
    requires DistinctKeys(b) && DistinctKeys(c) && (k in Keys(b.cases) || k in Keys(c.cases))
    ensures RowIsAbout(RowFor(position, Lookup(ByKey(b.cases), k), Lookup(ByKey(c.cases), k)), position, k, b, c)
  {
    LookupIsCase(b.cases, k);
    LookupIsCase(c.cases, k);
  }

  /** What a row shows of the two cases, or of the one there is. Deltas are candidate minus baseline; costs are
      compared only when both are known. */
  predicate RowShows(r: Row, before: Option<Case>, after: Option<Case>)
  {
    match (before, after)
    case (None, None) => false
    case (None, Some(y)) =>
      && r.caseName == y.name && r.classification == CandidateOnly
      && r.baselinePassed == None && r.candidatePassed == Some(y.passed) && r.costDelta == None && r.latencyDelta == None
    case (Some(x), None) =>
      && r.caseName == x.name && r.classification == BaselineOnly
      && r.baselinePassed == Some(x.passed) && r.candidatePassed == None && r.costDelta == None && r.latencyDelta == None
    case (Some(x), Some(y)) =>
      && r.caseName == y.name && r.baselinePassed == Some(x.passed) && r.candidatePassed == Some(y.passed)
      && (r.classification == Regression <==> x.passed && !y.passed)
      && (r.classification == Improvement <==> !x.passed && y.passed)
      && (r.classification == UnchangedPassed <==> x.passed && y.passed)
      && (r.classification == UnchangedFailed <==> !x.passed && !y.passed)
      && r.latencyDelta == Some(y.latencyMs - x.latencyMs)
      && (x.costUsd.Some? && y.costUsd.Some? ==> r.costDelta == Some(y.costUsd.value - x.costUsd.value))
      && (x.costUsd.None? || y.costUsd.None? ==> r.costDelta == None)
  }

  /** The row stands at its position and shows what the two reports' own cases with the key say. */
  ghost predicate RowIsAbout(r: Row, position: nat, k: string, b: Report, c: Report)
  {
    var before, after := Lookup(ByKey(b.cases), k), Lookup(ByKey(c.cases), k);
    && r.position == position && IsCaseOf(before, k, b.cases) && IsCaseOf(after, k, c.cases) && RowShows(r, before, after)
  }

  // ---------------------------------------------------------------------------------------------
  // Conservation
  // ---------------------------------------------------------------------------------------------

  function One(b: bool): int { if b then 1 else 0 }

  function Passed(o: Option<Case>): bool { o.Some? && o.value.passed }

  function PassesAt(m: map<string, Case>): string -> int
  {
    k => One(Passed(Lookup(m, k)))
  }

  function Passes(cases: seq<Case>): int
  {
    if cases == [] then 0 else One(cases[0].passed) + Passes(cases[1..])
  }

  lemma {:induction false} PassesAsSum(cases: seq<Case>, m: map<string, Case>)
    requires forall i :: 0 <= i < |cases| ==> Key(cases[i]) in m && m[Key(cases[i])] == cases[i]
    ensures Passes(cases) == Sum(Keys(cases), PassesAt(m))
    decreases |cases|
  {
    if cases != [] {
      assert forall i :: 0 <= i < |cases[1..]| ==> cases[1..][i] == cases[i + 1];
      PassesAsSum(cases[1..], m);
      assert Keys(cases)[1..] == Keys(cases[1..]);
    }
  }

  /** A report's passes can be summed over the keys of any comparison it takes part in. */
  lemma PassesOverUnion(b: Report, c: Report, r: Report)
    requires DistinctKeys(b) && DistinctKeys(c) && (r == b || r == c)
    ensures Sum(OrderedKeys(b, c), PassesAt(ByKey(r.cases))) == Passes(r.cases)
  {
    var own := Keys(r.cases);
    ByKeyHas(r.cases);
    forall i | 0 <= i < |r.cases| ensures Key(r.cases[i]) in ByKey(r.cases) {
      assert own[i] in own;
    }
    PassesAsSum(r.cases, ByKey(r.cases));
    UnionListedOnce(b, c);
    SumOverMoreKeys(OrderedKeys(b, c), own, PassesAt(ByKey(r.cases)));
  }

  function ClassAt(b: map<string, Case>, c: map<string, Case>, cls: Classification): string -> int
  {
    k => One(Classify(Lookup(b, k), Lookup(c, k)) == cls)
  }

  lemma {:induction false} SumAppendOne(s: seq<string>, k: string, f: string -> int)
    ensures Sum(s + [k], f) == Sum(s, f) + f(k)
  {
    SumRemove(s + [k], |s|, f);
    assert Remove(s + [k], |s|) == s;
  }

  lemma {:induction false} CountAsSum(ks: seq<string>, b: map<string, Case>, c: map<string, Case>, cls: Classification)
    ensures CountRows(Rows(ks, b, c), cls) == Sum(ks, ClassAt(b, c, cls))
    decreases |ks|
  {
    if ks != [] {
      var n := |ks| - 1;
      CountAsSum(ks[..n], b, c, cls);
      assert Rows(ks, b, c)[..n] == Rows(ks[..n], b, c);
      SumAppendOne(ks[..n], ks[n], ClassAt(b, c, cls));
      assert ks[..n] + [ks[n]] == ks;
    }
  }

  /** Passing cases that only one report has. */
  function OnlyPassedAt(has: map<string, Case>, lacks: map<string, Case>): string -> int
  {
    k => One(Passed(Lookup(has, k)) && k !in lacks)
  }

  lemma {:induction false} BalancePerKey(ks: seq<string>, b: map<string, Case>, c: map<string, Case>)
    requires forall k :: k in ks ==> k in b || k in c
    ensures Sum(ks, PassesAt(c)) - Sum(ks, PassesAt(b)) ==
            Sum(ks, ClassAt(b, c, Improvement)) - Sum(ks, ClassAt(b, c, Regression)) +
            Sum(ks, OnlyPassedAt(c, b)) - Sum(ks, OnlyPassedAt(b, c))
    decreases |ks|
  {
    if ks != [] {
      assert ks[0] in ks;
      BalancePerKey(ks[1..], b, c);
    }
  }

  /** Passing cases of a list whose keys a table lacks. */
  function PassesOutside(cases: seq<Case>, m: map<string, Case>): int
  {
    if cases == [] then 0
    else One(cases[0].passed && Key(cases[0]) !in m) + PassesOutside(cases[1..], m)
  }

  function OnlyPassed(r: Report, other: Report): int
  {
    PassesOutside(r.cases, ByKey(other.cases))
  }

  lemma {:induction false} OnlyPassedAsSum(cases: seq<Case>, has: map<string, Case>, lacks: map<string, Case>)
    requires forall i :: 0 <= i < |cases| ==> Key(cases[i]) in has && has[Key(cases[i])] == cases[i]
    ensures PassesOutside(cases, lacks) == Sum(Keys(cases), OnlyPassedAt(has, lacks))
    decreases |cases|
  {
    if cases != [] {
      assert forall i :: 0 <= i < |cases[1..]| ==> cases[1..][i] == cases[i + 1];
      OnlyPassedAsSum(cases[1..], has, lacks);
      assert Keys(cases)[1..] == Keys(cases[1..]);
    }
  }

  lemma OnlyPassedOverUnion(b: Report, c: Report, r: Report, other: Report)
    requires DistinctKeys(b) && DistinctKeys(c) && ((r == b && other == c) || (r == c && other == b))
    ensures Sum(OrderedKeys(b, c), OnlyPassedAt(ByKey(r.cases), ByKey(other.cases))) == OnlyPassed(r, other)
  {
    var own := Keys(r.cases);
    ByKeyHas(r.cases);
    forall i | 0 <= i < |r.cases| ensures Key(r.cases[i]) in ByKey(r.cases) {
      assert own[i] in own;
    }
    OnlyPassedAsSum(r.cases, ByKey(r.cases), ByKey(other.cases));
    UnionListedOnce(b, c);
    SumOverMoreKeys(OrderedKeys(b, c), own, OnlyPassedAt(ByKey(r.cases), ByKey(other.cases)));
  }

  /** Every change in the number of passing cases is accounted for: by improvements, regressions and
      the passing cases that only one report has. */
  lemma ComparisonConservesPasses(b: Report, c: Report)
    requires DistinctKeys(b) && DistinctKeys(c) && b.completed && c.completed
    ensures var d := Compare(b, c).value;
            Passes(c.cases) - Passes(b.cases) ==
            d.improvements - d.regressions + OnlyPassed(c, b) - OnlyPassed(b, c)
  {
    var ks, mb, mc := OrderedKeys(b, c), ByKey(b.cases), ByKey(c.cases);
    PassesOverUnion(b, c, b);
    PassesOverUnion(b, c, c);
    OnlyPassedOverUnion(b, c, b, c);
    OnlyPassedOverUnion(b, c, c, b);
    UnionListedOnce(b, c);
    ByKeyHas(b.cases);
    ByKeyHas(c.cases);
    BalancePerKey(ks, mb, mc);
    CountAsSum(ks, mb, mc, Improvement);
    CountAsSum(ks, mb, mc, Regression);
  }

  // ---------------------------------------------------------------------------------------------
  // Antisymmetry and additivity
  // ---------------------------------------------------------------------------------------------

  lemma {:induction false} SumCongruent(ks: seq<string>, f: string -> int, g: string -> int)
    requires forall k :: k in ks ==> f(k) == g(k)
    ensures Sum(ks, f) == Sum(ks, g)
    decreases |ks|
  {
    if ks != [] {
      assert ks[0] in ks;
      SumCongruent(ks[1..], f, g);
    }
  }

  function Mirror(cls: Classification): Classification
  {
    match cls
    case CandidateOnly => BaselineOnly
    case BaselineOnly => CandidateOnly
    case Regression => Improvement
    case Improvement => Regression
    case _ => cls
  }

  lemma ClassMirrors(b: map<string, Case>, c: map<string, Case>, cls: Classification, k: string)
    requires cls == Improvement || cls == Regression
    ensures ClassAt(b, c, cls)(k) == ClassAt(c, b, Mirror(cls))(k)
  {
  }

  lemma SumOverSameSet(s: seq<string>, t: seq<string>, f: string -> int)
    requires Distinct(s) && Distinct(t) && forall k :: k in s <==> k in t
    ensures Sum(s, f) == Sum(t, f)
  {
    SumOverMoreKeys(s, t, f);
  }

  lemma SameUnionSwapped(b: Report, c: Report)
    requires DistinctKeys(b) && DistinctKeys(c)
    ensures Distinct(OrderedKeys(b, c)) && Distinct(OrderedKeys(c, b))
    ensures forall k :: k in OrderedKeys(b, c) <==> k in OrderedKeys(c, b)
  {
    UnionListedOnce(b, c);
    UnionListedOnce(c, b);
  }

  lemma ClassesMirror(b: Report, c: Report, cls: Classification)
    requires DistinctKeys(b) && DistinctKeys(c) && (cls == Improvement || cls == Regression)
    ensures Sum(OrderedKeys(b, c), ClassAt(ByKey(b.cases), ByKey(c.cases), cls)) ==
            Sum(OrderedKeys(c, b), ClassAt(ByKey(c.cases), ByKey(b.cases), Mirror(cls)))
  {
    var mb, mc, ls := ByKey(b.cases), ByKey(c.cases), OrderedKeys(c, b);
    SameUnionSwapped(b, c);
    SumOverSameSet(OrderedKeys(b, c), ls, ClassAt(mb, mc, cls));
    forall k | k in ls ensures ClassAt(mb, mc, cls)(k) == ClassAt(mc, mb, Mirror(cls))(k) {
      ClassMirrors(mb, mc, cls, k);
    }
    SumCongruent(ls, ClassAt(mb, mc, cls), ClassAt(mc, mb, Mirror(cls)));
  }

  lemma CountsMirror(b: Report, c: Report, cls: Classification)
    requires DistinctKeys(b) && DistinctKeys(c) && (cls == Improvement || cls == Regression)
    ensures CountRows(Rows(OrderedKeys(b, c), ByKey(b.cases), ByKey(c.cases)), cls) ==
            CountRows(Rows(OrderedKeys(c, b), ByKey(c.cases), ByKey(b.cases)), Mirror(cls))
  {
    ClassesMirror(b, c, cls);
    CountAsSum(OrderedKeys(b, c), ByKey(b.cases), ByKey(c.cases), cls);
    CountAsSum(OrderedKeys(c, b), ByKey(c.cases), ByKey(b.cases), Mirror(cls));
  }

  /** Swapping the reports swaps regressions with improvements. */
  lemma SwapSwapsCounts(b: Report, c: Report)
    requires DistinctKeys(b) && DistinctKeys(c) && b.completed && c.completed
    ensures var d, e := Compare(b, c).value, Compare(c, b).value;
            d.improvements == e.regressions && d.regressions == e.improvements
  {
    CountsMirror(b, c, Improvement);
    CountsMirror(b, c, Regression);
  }

  /** Two rows about one case seen from either side. */
  ghost predicate Mirrored(r: Row, q: Row)
  {
    && q.classification == Mirror(r.classification)
    && q.baselinePassed == r.candidatePassed && q.candidatePassed == r.baselinePassed
    && (r.costDelta.Some? <==> q.costDelta.Some?)
    && (r.costDelta.Some? ==> q.costDelta.value == -r.costDelta.value)
    && (r.latencyDelta.Some? <==> q.latencyDelta.Some?)
    && (r.latencyDelta.Some? ==> q.latencyDelta.value == -r.latencyDelta.value)
  }

  lemma RowsMirror(i: nat, j: nat, before: Option<Case>, after: Option<Case>)
    requires before.Some? || after.Some?
    ensures Mirrored(RowFor(i, before, after), RowFor(j, after, before))
  {
  }

  lemma SharedKeyPosition(b: Report, c: Report, i: nat) returns (j: nat)
    requires DistinctKeys(b) && DistinctKeys(c) && i < |OrderedKeys(b, c)|
    ensures j < |OrderedKeys(c, b)| && OrderedKeys(c, b)[j] == OrderedKeys(b, c)[i]
    ensures var k := OrderedKeys(b, c)[i]; k in ByKey(b.cases) || k in ByKey(c.cases)
  {
    UnionListedOnce(b, c);
    UnionListedOnce(c, b);
    ByKeyHas(b.cases);
    ByKeyHas(c.cases);
    var k := OrderedKeys(b, c)[i];
    assert k in OrderedKeys(b, c);
    j :| 0 <= j < |OrderedKeys(c, b)| && OrderedKeys(c, b)[j] == k;
  }

  /** Every row of a comparison has its mirror image, for the same case, in the swapped one. */
  lemma SwapMirrorsRows(b: Report, c: Report, i: nat) returns (j: nat)
    requires DistinctKeys(b) && DistinctKeys(c) && b.completed && c.completed
    requires i < |Compare(b, c).value.rows|
    ensures i < |OrderedKeys(b, c)| && j < |OrderedKeys(c, b)| == |Compare(c, b).value.rows|
    ensures OrderedKeys(c, b)[j] == OrderedKeys(b, c)[i]
    ensures Mirrored(Compare(b, c).value.rows[i], Compare(c, b).value.rows[j])
  {
    j := SharedKeyPosition(b, c, i);
    var k := OrderedKeys(b, c)[i];
    RowsMirror(i, j, Lookup(ByKey(b.cases), k), Lookup(ByKey(c.cases), k));
  }

  ghost predicate SameKeys(b: Report, c: Report)
  {
    forall k :: k in Keys(b.cases) <==> k in Keys(c.cases)
  }

  lemma {:induction false} NothingOutside(cases: seq<Case>, m: map<string, Case>)
    requires forall i :: 0 <= i < |cases| ==> Key(cases[i]) in m
    ensures PassesOutside(cases, m) == 0
    decreases |cases|
  {
    if cases != [] {
      assert forall i :: 0 <= i < |cases[1..]| ==> cases[1..][i] == cases[i + 1];
      NothingOutside(cases[1..], m);
    }
  }

  lemma SameKeysNothingOnly(r: Report, other: Report)
    requires DistinctKeys(other) && SameKeys(r, other)
    ensures OnlyPassed(r, other) == 0
  {
    ByKeyHas(other.cases);
    forall i | 0 <= i < |r.cases| ensures Key(r.cases[i]) in ByKey(other.cases) {
      assert Keys(r.cases)[i] in Keys(r.cases);
    }
    NothingOutside(r.cases, ByKey(other.cases));
  }

  /** Over three reports with the same keys net change is additive. */
  lemma NetChangeIsAdditive(a: Report, b: Report, c: Report)
    requires DistinctKeys(a) && DistinctKeys(b) && DistinctKeys(c) && a.completed && b.completed && c.completed
    requires SameKeys(a, b) && SameKeys(b, c)
    ensures var d, e, f := Compare(a, b).value, Compare(b, c).value, Compare(a, c).value;
            f.improvements - f.regressions == (d.improvements - d.regressions) + (e.improvements - e.regressions)
  {
    assert SameKeys(a, c);
    SameKeysNothingOnly(a, b);
    SameKeysNothingOnly(b, a);
    SameKeysNothingOnly(b, c);
    SameKeysNothingOnly(c, b);
    SameKeysNothingOnly(a, c);
    SameKeysNothingOnly(c, a);
    ComparisonConservesPasses(a, b);
    ComparisonConservesPasses(b, c);
    ComparisonConservesPasses(a, c);
  }

  /** The positions of the rows that are so classified. */
  function ClassifiedAs(rows: seq<Row>, cls: Classification): set<nat>
  {
    set i: nat | i < |rows| && rows[i].classification == cls
  }

  lemma OneMoreRow(rows: seq<Row>, row: Row, cls: Classification)
    ensures |ClassifiedAs(rows + [row], cls)| == |ClassifiedAs(rows, cls)| + if row.classification == cls then 1 else 0
  {
    var before, all := ClassifiedAs(rows, cls), rows + [row];
    assert forall i: nat :: i < |rows| ==> all[i] == rows[i];
    assert |rows| !in before;
    assert ClassifiedAs(all, cls) == if row.classification == cls then before + {|rows|} else before;
  }

  lemma {:induction false} CountRowsCounts(rows: seq<Row>, cls: Classification)
    ensures CountRows(rows, cls) == |ClassifiedAs(rows, cls)|
    decreases |rows|
  {
    if rows == [] {
      assert ClassifiedAs(rows, cls) == {};
    } else {
      var n := |rows| - 1;
      CountRowsCounts(rows[..n], cls);
      OneMoreRow(rows[..n], rows[n], cls);
      assert rows == rows[..n] + [rows[n]];
    }
  }

  /** Two completed reports and no others are compared, and the counts are those of the rows. */
  lemma CompareIsExact(b: Report, c: Report)
    ensures Compare(b, c).Some? <==> b.completed && c.completed
    ensures b.completed && c.completed ==>
            var r := Compare(b, c).value;
            && r.baselineId == b.id && r.candidateId == c.id
            && r.regressions == |ClassifiedAs(r.rows, Regression)|
            && r.improvements == |ClassifiedAs(r.rows, Improvement)|
  {
    if b.completed && c.completed {
      var rows := Compare(b, c).value.rows;
      CountRowsCounts(rows, Regression);
      CountRowsCounts(rows, Improvement);
    }
  }
}
