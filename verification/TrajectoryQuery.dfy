/** Listing trajectories: optional filters become clauses of one query, newest start first. */
module TrajectoryQuery {
  import opened Keyset
  import opened TrajectoryTime
  import opened Wrappers

  /** The stored start key and the ID. */
  type Key = (string, string)

  /** What the filters look at in a trajectory and in its steps, and whether its row can be mapped to a
      record at all. */
  datatype Facts = Facts(
    sessionId: Option<string>, channelType: Option<string>, channelId: Option<string>, scheduleId: Option<string>,
    origin: string, status: string, startedAt: Timestamp, models: set<string>, stepModels: set<string>, tools: set<string>,
    corrupt: bool)

  type TrajectoryRow = Row<Key, Facts>

  /** The key column is computed from the start time on insert and by the migration. */
  predicate Keyed(r: TrajectoryRow)
  {
    r.key.0 == TimestampKey(r.value.startedAt)
  }

  datatype Query = Query(
    limit: nat, cursor: Option<Key>,
    sessionId: Option<string>, channelType: Option<string>, channelId: Option<string>, scheduleId: Option<string>,
    origin: Option<string>, status: Option<string>, model: Option<string>, tool: Option<string>,
    startedAfter: Option<Timestamp>, startedBefore: Option<Timestamp>)

  datatype Clause =
    | SessionIs(value: string) | ChannelTypeIs(value: string) | ChannelIs(value: string) | ScheduleIs(value: string)
    | OriginIs(value: string) | StatusIs(value: string)
    | StartedFrom(key: string) | StartedUntil(key: string)
    | UsesModel(value: string) | UsesTool(value: string)

  predicate Holds(c: Clause, r: TrajectoryRow)
  {
    match c
    case SessionIs(v) => r.value.sessionId == Some(v)
    case ChannelTypeIs(v) => r.value.channelType == Some(v)
    case ChannelIs(v) => r.value.channelId == Some(v)
    case ScheduleIs(v) => r.value.scheduleId == Some(v)
    case OriginIs(v) => r.value.origin == v
    case StatusIs(v) => r.value.status == v
    case StartedFrom(key) => !LexLess(r.key.0, key)
    case StartedUntil(key) => LexLess(r.key.0, key)
    case UsesModel(v) => v in r.value.models || v in r.value.stepModels
    case UsesTool(v) => v in r.value.tools
  }

  predicate AllHold(clauses: seq<Clause>, r: TrajectoryRow)
  {
    forall c :: c in clauses ==> Holds(c, r)
  }

  /** A missing or empty filter asks for nothing. */
  predicate Asked(filter: Option<string>)
  {
    filter.Some? && filter.value != ""
  }

  /** What a query asks of a row, filter by filter. */
  predicate Matches(q: Query, r: TrajectoryRow)
  {
    MatchesSource(q, r) && MatchesContent(q, r)
  }

  predicate MatchesSource(q: Query, r: TrajectoryRow)
  {
    && (Asked(q.sessionId) ==> r.value.sessionId == q.sessionId)
    && (Asked(q.channelType) ==> r.value.channelType == q.channelType)
    && (Asked(q.channelId) ==> r.value.channelId == q.channelId)
    && (Asked(q.scheduleId) ==> r.value.scheduleId == q.scheduleId)
    && (Asked(q.origin) ==> r.value.origin == q.origin.value)
    && (Asked(q.status) ==> r.value.status == q.status.value)
  }

  predicate MatchesContent(q: Query, r: TrajectoryRow)
  {
    && (q.startedAfter.Some? ==> Instant(q.startedAfter.value) <= Instant(r.value.startedAt))
    && (q.startedBefore.Some? ==> Instant(r.value.startedAt) < Instant(q.startedBefore.value))
    && (Asked(q.model) ==> q.model.value in r.value.models + r.value.stepModels)
    && (Asked(q.tool) ==> q.tool.value in r.value.tools)
  }

  /** The filter is open, or the row has just the text that it names. */
  predicate Fits(filter: Option<string>, text: Option<string>)
  {
    filter == None || |filter.value| == 0 || text == filter
  }

  predicate FitsOneOf(filter: Option<string>, texts: set<string>)
  {
    filter == None || |filter.value| == 0 || filter.value in texts
  }

  /** Which rows a query asks for: the start from one instant on and before another, a model of the trajectory or
      of one of its steps, a tool, and every other filter in its own column. */
  lemma FiltersAreExact(q: Query, r: TrajectoryRow)
    ensures var f := r.value;
            Matches(q, r) <==>
              && Fits(q.sessionId, f.sessionId) && Fits(q.channelType, f.channelType) && Fits(q.channelId, f.channelId)
              && Fits(q.scheduleId, f.scheduleId) && Fits(q.origin, Some(f.origin)) && Fits(q.status, Some(f.status))
              && (FitsOneOf(q.model, f.models) || FitsOneOf(q.model, f.stepModels)) && FitsOneOf(q.tool, f.tools)
              && (q.startedAfter.None? || Instant(f.startedAt) >= Instant(q.startedAfter.value))
              && (q.startedBefore.None? || Instant(f.startedAt) < Instant(q.startedBefore.value))
  {
  }

  /** started_at_key DESC, id DESC. */
  function Newest(idLess: (string, string) -> bool): (Key, Key) -> bool
  {
    (a: Key, b: Key) => NewestFirst(LexLess, idLess, a, b)
  }

  lemma NewestIsStrictTotal(idLess: (string, string) -> bool)
    requires StrictTotalOrder(idLess)
    ensures StrictTotalOrder(Newest(idLess))
  {
    LexIsStrictTotal();
    NewestFirstIsStrictTotal(LexLess, idLess);
    forall a: Key, b: Key ensures Newest(idLess)(a, b) == NewestFirst(LexLess, idLess, a, b) {
    }
  }

  lemma LexIsStrictTotal()
    ensures StrictTotalOrder(LexLess)
  {
    forall a, b ensures !LexLess(a, a) && (a != b ==> LexLess(a, b) || LexLess(b, a)) {
      LexIsTotal(a, a);
      LexIsTotal(a, b);
    }
    forall a, b, c | LexLess(a, b) && LexLess(b, c) ensures LexLess(a, c) {
      LexIsTransitive(a, b, c);
    }
  }

  /** A list in key order is newest first by instant, whatever precision the start times are written with,
      and descending by ID where instants agree. */
  lemma NewestIsByInstant(idLess: (string, string) -> bool, a: TrajectoryRow, b: TrajectoryRow)
    requires Keyed(a) && Keyed(b)
    ensures var s, t := Instant(a.value.startedAt), Instant(b.value.startedAt);
            Newest(idLess)(a.key, b.key) <==> s > t || (s == t && idLess(b.key.1, a.key.1))
  {
    KeysOrderAsInstants(b.value.startedAt, a.value.startedAt);
  }

  lemma TimeClausesCompareKeys(r: TrajectoryRow, key: string)
    ensures Holds(StartedFrom(key), r) <==> !LexLess(r.key.0, key)
    ensures Holds(StartedUntil(key), r) <==> LexLess(r.key.0, key)
  {
  }

  lemma TimeClausesCompareInstants(r: TrajectoryRow, at: Timestamp)
    requires Keyed(r)
    ensures Holds(StartedFrom(TimestampKey(at)), r) <==> Instant(at) <= Instant(r.value.startedAt)
    ensures Holds(StartedUntil(TimestampKey(at)), r) <==> Instant(r.value.startedAt) < Instant(at)
  {
    var key, bound := r.key.0, TimestampKey(at);
    assert LexLess(key, bound) <==> Instant(r.value.startedAt) < Instant(at) by {
      KeyBefore(r.value.startedAt, at);
    }
    TimeClausesCompareKeys(r, bound);
  }

  /** Push one clause for each filter that is present. */
  method Clauses(q: Query) returns (clauses: seq<Clause>)
    ensures forall r :: Keyed(r) ==> (AllHold(clauses, r) <==> Matches(q, r))
  {
    clauses := SourceClauses(q);
    if q.startedAfter.Some? {
      clauses := Add(clauses, StartedFrom(TimestampKey(q.startedAfter.value)));
      forall r | Keyed(r) ensures Holds(StartedFrom(TimestampKey(q.startedAfter.value)), r) <==>
                                  Instant(q.startedAfter.value) <= Instant(r.value.startedAt) {
        TimeClausesCompareInstants(r, q.startedAfter.value);
      }
    }
    if q.startedBefore.Some? {
      clauses := Add(clauses, StartedUntil(TimestampKey(q.startedBefore.value)));
      forall r | Keyed(r) ensures Holds(StartedUntil(TimestampKey(q.startedBefore.value)), r) <==>
                                  Instant(r.value.startedAt) < Instant(q.startedBefore.value) {
        TimeClausesCompareInstants(r, q.startedBefore.value);
      }
    }
    clauses := AddText(clauses, q.model, v => UsesModel(v));
    clauses := AddText(clauses, q.tool, v => UsesTool(v));
  }

  method SourceClauses(q: Query) returns (clauses: seq<Clause>)
    ensures forall r :: AllHold(clauses, r) <==> MatchesSource(q, r)
  {
    clauses := [];
    clauses := AddText(clauses, q.sessionId, v => SessionIs(v));
    clauses := AddText(clauses, q.channelType, v => ChannelTypeIs(v));
    clauses := AddText(clauses, q.channelId, v => ChannelIs(v));
    clauses := AddText(clauses, q.scheduleId, v => ScheduleIs(v));
    clauses := AddText(clauses, q.origin, v => OriginIs(v));
    clauses := AddText(clauses, q.status, v => StatusIs(v));
  }

  method Add(clauses: seq<Clause>, c: Clause) returns (r: seq<Clause>)
    ensures forall row :: AllHold(r, row) <==> AllHold(clauses, row) && Holds(c, row)
  {
    r := clauses + [c];
    assert c in r && forall d :: d in clauses ==> d in r;
  }

  method AddText(clauses: seq<Clause>, filter: Option<string>, clause: string -> Clause) returns (r: seq<Clause>)
    ensures forall row :: AllHold(r, row) <==> AllHold(clauses, row) && (Asked(filter) ==> Holds(clause(filter.value), row))
  {
    if Asked(filter) {
      r := Add(clauses, clause(filter.value));
    } else {
      r := clauses;
    }
  }

  lemma {:induction false} WhereSame<K, V>(
      table: seq<Row<K, V>>, keep: Row<K, V> -> bool, keep': Row<K, V> -> bool, before: (K, K) -> bool, cursor: Option<K>)
    requires forall r :: r in table ==> keep(r) == keep'(r)
    ensures Where(table, keep, before, cursor) == Where(table, keep', before, cursor)
    decreases |table|
  {
    if table != [] {
      assert table[0] in table;
      assert forall r :: r in table[1..] ==> r in table;
      WhereSame(table[1..], keep, keep', before, cursor);
    }
  }

  datatype Listing = Listed(page: Page<Key, Facts>) | CorruptRow(id: string)

  /** The first row of the page that cannot be mapped, if there is one. */
  function FirstCorrupt(rows: seq<TrajectoryRow>): Option<string>
  {
    if rows == [] then None
    else if rows[0].value.corrupt then Some(rows[0].key.1)
    else FirstCorrupt(rows[1..])
  }

  lemma {:induction false} NoneCorrupt(rows: seq<TrajectoryRow>)
    ensures FirstCorrupt(rows) == None <==> forall r :: r in rows ==> !r.value.corrupt
    decreases |rows|
  {
    if rows != [] {
      NoneCorrupt(rows[1..]);
      assert rows == [rows[0]] + rows[1..];
    }
  }

  method RecordsFromRows(rows: seq<TrajectoryRow>) returns (corrupt: Option<string>)
    ensures corrupt == FirstCorrupt(rows)
  {
    for i := 0 to |rows|
      invariant FirstCorrupt(rows) == FirstCorrupt(rows[i..])
    {
      if rows[i].value.corrupt {
        return Some(rows[i].key.1);
      }
      assert rows[i..][1..] == rows[i + 1..];
    }
    assert rows[|rows|..] == [];
    corrupt := None;
  }

  /** One page of the list: exactly the rows that the query asks for, after the cursor, newest first; or
      the first of them that is corrupt. The extra row is never mapped. */
  method ListTrajectories(table: seq<TrajectoryRow>, idLess: (string, string) -> bool, q: Query)
    returns (r: Listing)
    requires forall r :: r in table ==> Keyed(r)
    ensures var page := FetchPage(table, r => Matches(q, r), Newest(idLess), q.limit, q.cursor);
            r == match FirstCorrupt(page.rows) case Some(id) => CorruptRow(id) case None => Listed(page)
  {
    var clauses := Clauses(q);
    var rows := Limit(Scan(table, r => AllHold(clauses, r), Newest(idLess), q.cursor), q.limit + 1);
    WhereSame(table, r => AllHold(clauses, r), r => Matches(q, r), Newest(idLess), q.cursor);
    var hasMore := |rows| > q.limit;
    var records := if hasMore then rows[..q.limit] else rows;
    var corrupt := RecordsFromRows(records);
    if corrupt.Some? {
      return CorruptRow(corrupt.value);
    }
    r := Listed(Page(records, if hasMore && records != [] then Some(records[|records| - 1].key) else None));
  }

  lemma PageIsOfTable(table: seq<TrajectoryRow>, keep: TrajectoryRow -> bool, before: (Key, Key) -> bool,
      limit: nat, cursor: Option<Key>)
    ensures forall r :: r in FetchPage(table, keep, before, limit, cursor).rows ==> r in table && keep(r)
  {
    forall r | r in FetchPage(table, keep, before, limit, cursor).rows ensures r in table && keep(r) {
      ScanHas(table, keep, before, cursor, r);
    }
  }

  /** A corrupt row that the filters leave out never makes a list fail. */
  lemma ListsWithoutCorruptMatches(table: seq<TrajectoryRow>, idLess: (string, string) -> bool, q: Query)
    requires forall r :: r in table && Matches(q, r) ==> !r.value.corrupt
    ensures FirstCorrupt(FetchPage(table, r => Matches(q, r), Newest(idLess), q.limit, q.cursor).rows) == None
  {
    var page := FetchPage(table, r => Matches(q, r), Newest(idLess), q.limit, q.cursor);
    PageIsOfTable(table, r => Matches(q, r), Newest(idLess), q.limit, q.cursor);
    NoneCorrupt(page.rows);
  }

  /** Following the cursors of a filtered list gives every matching trajectory once, newest first. */
  lemma FilteredWalkIsComplete(table: seq<TrajectoryRow>, idLess: (string, string) -> bool, q: Query, r: TrajectoryRow)
    requires StrictTotalOrder(idLess) && DistinctKeys(table) && q.limit > 0
    requires forall x :: x in table ==> Keyed(x)
    ensures StrictTotalOrder(Newest(idLess))
    ensures var all := Walk(table, x => Matches(q, x), Newest(idLess), q.limit, None);
            && InOrder(Newest(idLess), all) && (r in all <==> r in table && Matches(q, r))
            && forall i, j :: 0 <= i < j < |all| ==> Instant(all[j].value.startedAt) <= Instant(all[i].value.startedAt)
  {
    NewestIsStrictTotal(idLess);
    var keep := x => Matches(q, x);
    WalkIsScan(table, keep, Newest(idLess), q.limit, None);
    ScanIsOrdered(table, keep, Newest(idLess), None);
    ScanHas(table, keep, Newest(idLess), None, r);
    var all := Scan(table, keep, Newest(idLess), None);
    forall i, j | 0 <= i < j < |all| ensures Instant(all[j].value.startedAt) <= Instant(all[i].value.startedAt) {
      ScanHas(table, keep, Newest(idLess), None, all[i]);
      ScanHas(table, keep, Newest(idLess), None, all[j]);
      NewestIsByInstant(idLess, all[i], all[j]);
    }
  }
}
