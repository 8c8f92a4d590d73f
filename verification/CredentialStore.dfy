/** Credential rows whose ciphertext doubles as an opaque row version: every data write encrypts
    afresh, so comparing ciphertexts is a compare-and-swap on the data.
 */
module CredentialStore {
  import opened Wrappers

  type CredentialId = string
  type Ciphertext = string
  type Data = map<string, string>

  /** One field of a patch: `None` deletes it, the empty string keeps it, anything else sets it. */
  datatype Field = Field(key: string, value: Option<string>)

  type Patch = seq<Field>

  /** A patch is an object, so no field occurs twice. */
  ghost predicate IsRecord(p: Patch)
  {
    forall i, j :: 0 <= i < j < |p| ==> p[i].key != p[j].key
  }

  datatype TestStatus = Untested | Success | Failed

  datatype Row = Row(ciphertext: Ciphertext, name: string, usageContext: Option<string>, testStatus: TestStatus)

  datatype SwapResult = Updated(data: Data) | Conflict | NotFound | DecryptFailed | Vetoed

  // ---------------------------------------------------------------------------------------------
  // Merging a patch
  // ---------------------------------------------------------------------------------------------

  function MergeField(d: Data, f: Field): Data
  {
    if f.value == None then d - {f.key}
    else if f.value.value == "" then d
    else d[f.key := f.value.value]
  }

  function Merged(d: Data, p: Patch): Data
  {
    if p == [] then d else MergeField(Merged(d, p[..|p| - 1]), p[|p| - 1])
  }

  method MergeCredentialDataPatch(existing: Data, p: Patch) returns (merged: Data)
    ensures merged == Merged(existing, p)
  {
    merged := existing;
    for i := 0 to |p|
      invariant merged == Merged(existing, p[..i])
    {
      assert p[..i + 1][..i] == p[..i];
      var f := p[i];
      if f.value == None {
        merged := merged - {f.key};
      } else if f.value.value != "" {
        merged := merged[f.key := f.value.value];
      }
    }
    assert p[..|p|] == p;
  }

  /** Does the patch write or delete key `k`? */
  ghost predicate Touches(p: Patch, k: string)
  {
    exists i :: 0 <= i < |p| && p[i].key == k && p[i].value != Some("")
  }

  /** What one field says after the merge: deletions delete, values win, blanks and absent fields keep. */
  ghost predicate MergedAt(d: Data, p: Patch, r: Data, k: string)
  {
    && (!Touches(p, k) ==> (k in r <==> k in d) && (k in d ==> r[k] == d[k]))
    && (forall i :: 0 <= i < |p| && p[i].key == k && p[i].value == None ==> k !in r)
    && (forall i :: 0 <= i < |p| && p[i].key == k && p[i].value != None && p[i].value.value != "" ==>
         k in r && r[k] == p[i].value.value)
  }

  lemma {:induction false} MergeIsFieldwise(d: Data, p: Patch, k: string)
    requires IsRecord(p)
    ensures MergedAt(d, p, Merged(d, p), k)
  {
    if p != [] {
      var q, f := p[..|p| - 1], p[|p| - 1];
      MergeIsFieldwise(d, q, k);
      if Touches(q, k) {
        var i :| 0 <= i < |q| && q[i].key == k && q[i].value != Some("");
        assert p[i] == q[i] && Touches(p, k) && f.key != k;
      } else if Touches(p, k) {
        assert f.key == k && f.value != Some("");
      }
    }
  }

  /** Field order is irrelevant: records with the same fields merge alike. */
  lemma MergeIgnoresFieldOrder(d: Data, p: Patch, q: Patch)
    requires IsRecord(p) && IsRecord(q) && (forall f :: f in p <==> f in q)
    ensures Merged(d, p) == Merged(d, q)
  {
    var r, s := Merged(d, p), Merged(d, q);
    forall k
      ensures k in r <==> k in s
      ensures k in r ==> r[k] == s[k]
    {
      MergeIsFieldwise(d, p, k);
      MergeIsFieldwise(d, q, k);
      if i :| 0 <= i < |p| && p[i].key == k && p[i].value != Some("") {
        assert p[i] in q;
      }
      if j :| 0 <= j < |q| && q[j].key == k && q[j].value != Some("") {
        assert q[j] in p;
      }
    }
    assert r.Keys == s.Keys;
  }

  /** Retrying a patch changes nothing. */
  lemma MergeIsIdempotent(d: Data, p: Patch)
    requires IsRecord(p)
    ensures Merged(Merged(d, p), p) == Merged(d, p)
  {
    var r := Merged(d, p);
    var s := Merged(r, p);
    forall k
      ensures k in r <==> k in s
      ensures k in r ==> r[k] == s[k]
    {
      MergeIsFieldwise(d, p, k);
      MergeIsFieldwise(r, p, k);
    }
    assert r.Keys == s.Keys;
  }

  // ---------------------------------------------------------------------------------------------
  // The tables and their transactions
  // ---------------------------------------------------------------------------------------------

  /** `vault` stands for the cipher: it gives the plaintext of every ciphertext that decrypts. */
  datatype Tables = Tables(rows: map<CredentialId, Row>, vault: map<Ciphertext, Data>)

  function SwapStep(t: Tables, id: CredentialId, expected: Ciphertext, p: Patch, newest: Ciphertext, veto: bool): (SwapResult, Tables)
  {
    if id !in t.rows then (NotFound, t)
    else if t.rows[id].ciphertext != expected then (Conflict, t)
    else if expected !in t.vault then (DecryptFailed, t)
    else if veto then (Vetoed, t)
    else
      var data := Merged(t.vault[expected], p);
      (Updated(data),
       Tables(t.rows[id := t.rows[id].(ciphertext := newest, testStatus := Untested)], t.vault[newest := data]))
  }

  function UpdateStep(t: Tables, id: CredentialId, name: Option<string>, p: Option<Patch>, usage: Option<string>, newest: Ciphertext)
    : (bool, Tables)
  {
    if id !in t.rows || t.rows[id].ciphertext !in t.vault then (false, t)
    else
      var row := t.rows[id];
      var renamed := row.(
        name := if name.Some? then name.value else row.name,
        usageContext := if usage.Some? then usage else row.usageContext);
      if p == None then (true, t.(rows := t.rows[id := renamed]))
      else
        (true, Tables(t.rows[id := renamed.(ciphertext := newest, testStatus := Untested)],
                      t.vault[newest := Merged(t.vault[row.ciphertext], p.value)]))
  }

  class CredentialTable {
    var rows: map<CredentialId, Row>
    var vault: map<Ciphertext, Data>

    constructor ()
      ensures Contents() == Tables(map[], map[])
    {
      rows, vault := map[], map[];
    }

    ghost function Contents(): Tables
      reads this
    {
      Tables(rows, vault)
    }

    method Create(id: CredentialId, name: string, data: Data, usage: Option<string>, newest: Ciphertext)
      requires id !in rows
      modifies this
      ensures Contents() == Tables(old(rows)[id := Row(newest, name, usage, Untested)], old(vault)[newest := data])
    {
      vault := vault[newest := data];
      rows := rows[id := Row(newest, name, usage, Untested)];
    }

    /** Update only while the row still carries the caller's ciphertext. `veto` is the exception
        that the caller's callback raises inside the transaction, for instance a lost lease. */
    method UpdateDataIfUnchanged(id: CredentialId, expected: Ciphertext, p: Patch, newest: Ciphertext, veto: bool)
      returns (r: SwapResult)
      modifies this
      ensures (r, Contents()) == SwapStep(old(Contents()), id, expected, p, newest, veto)
    {
      if id !in rows {
        return NotFound;
      }
      var row := rows[id];
      if row.ciphertext != expected {
        return Conflict;
      }
      if row.ciphertext !in vault {
        return DecryptFailed;
      }
      var data := MergeCredentialDataPatch(vault[row.ciphertext], p);
      if veto {
        return Vetoed;
      }
      vault := vault[newest := data];
      rows := rows[id := row.(ciphertext := newest, testStatus := Untested)];
      r := Updated(data);
    }

    method Update(id: CredentialId, name: Option<string>, p: Option<Patch>, usage: Option<string>, newest: Ciphertext)
      returns (ok: bool)
      modifies this
      ensures (ok, Contents()) == UpdateStep(old(Contents()), id, name, p, usage, newest)
    {
      if id !in rows || rows[id].ciphertext !in vault {
        return false;
      }
      var row := rows[id];
      if name.Some? {
        row := row.(name := name.value);
      }
      if usage.Some? {
        row := row.(usageContext := usage);
      }
      if p.Some? {
        var data := MergeCredentialDataPatch(vault[row.ciphertext], p.value);
        vault := vault[newest := data];
        row := row.(ciphertext := newest, testStatus := Untested);
      }
      rows := rows[id := row];
      ok := true;
    }

    method Delete(id: CredentialId) returns (deleted: bool)
      modifies this`rows
      ensures deleted == (id in old(rows)) && rows == old(rows) - {id}
    {
      deleted := id in rows;
      rows := rows - {id};
    }
  }

  // ---------------------------------------------------------------------------------------------
  // Runs
  // ---------------------------------------------------------------------------------------------

  datatype Event =
    | Create(id: CredentialId, data: Data, name: string, newest: Ciphertext)
    | Swap(id: CredentialId, expected: Ciphertext, patch: Patch, newest: Ciphertext, veto: bool)
    | Update(id: CredentialId, newName: Option<string>, change: Option<Patch>, usage: Option<string>, newest: Ciphertext)
    | SetTestStatus(id: CredentialId, status: TestStatus)
    | Delete(id: CredentialId)

  /** A committed data write: the version it was computed from, the patch, the version it produced. */
  datatype Commit = Commit(base: Ciphertext, patch: Patch, result: Ciphertext)

  datatype History = History(initial: Data, first: Ciphertext, commits: seq<Commit>)

  /** `used` and `history` record every ciphertext ever written and, per credential, its commits. */
  datatype World = World(tables: Tables, used: set<Ciphertext>, history: map<CredentialId, History>)

  ghost predicate Legal(w: World, e: Event)
  {
    match e
    case Create(id, _, _, newest) => id !in w.tables.rows && newest !in w.used
    case Swap(_, _, _, newest, _) => newest !in w.used
    case Update(_, _, _, _, newest) => newest !in w.used
    case _ => true
  }

  function Committed(w: World, id: CredentialId, p: Patch, newest: Ciphertext): map<CredentialId, History>
    requires id in w.tables.rows
  {
    if id !in w.history then w.history
    else
      var h := w.history[id];
      w.history[id := h.(commits := h.commits + [Commit(w.tables.rows[id].ciphertext, p, newest)])]
  }

  function Step(w: World, e: Event): World
  {
    match e
    case Create(id, data, name, newest) =>
      World(Tables(w.tables.rows[id := Row(newest, name, None, Untested)], w.tables.vault[newest := data]),
            w.used + {newest}, w.history[id := History(data, newest, [])])
    case Swap(id, expected, p, newest, veto) =>
      var (r, t) := SwapStep(w.tables, id, expected, p, newest, veto);
      World(t, w.used + {newest}, if r.Updated? then Committed(w, id, p, newest) else w.history)
    case Update(id, name, p, usage, newest) =>
      var (ok, t) := UpdateStep(w.tables, id, name, p, usage, newest);
      World(t, w.used + {newest}, if ok && p.Some? then Committed(w, id, p.value, newest) else w.history)
    case SetTestStatus(id, status) =>
      if id in w.tables.rows
      then w.(tables := w.tables.(rows := w.tables.rows[id := w.tables.rows[id].(testStatus := status)]))
      else w
    case Delete(id) => w.(tables := w.tables.(rows := w.tables.rows - {id}))
  }

  function Run(w: World, es: seq<Event>): World
    decreases |es|
  {
    if es == [] then w else Run(Step(w, es[0]), es[1..])
  }

  ghost predicate LegalRun(w: World, es: seq<Event>)
    decreases |es|
  {
    es == [] || (Legal(w, es[0]) && LegalRun(Step(w, es[0]), es[1..]))
  }

  /** The version that the first `n` commits leave behind. */
  function VersionAfter(h: History, n: nat): Ciphertext
    requires n <= |h.commits|
  {
    if n == 0 then h.first else h.commits[n - 1].result
  }

  function Latest(h: History): Ciphertext
  {
    VersionAfter(h, |h.commits|)
  }

  /** Each commit was computed from the version that its immediate predecessor produced. */
  ghost predicate Chained(h: History)
  {
    forall i :: 0 <= i < |h.commits| ==> h.commits[i].base == VersionAfter(h, i)
  }

  /** The committed patches merged in commit order. */
  function Replay(d: Data, commits: seq<Commit>): Data
  {
    if commits == [] then d
    else Merged(Replay(d, commits[..|commits| - 1]), commits[|commits| - 1].patch)
  }

  ghost predicate RowExplained(w: World, id: CredentialId)
    requires id in w.tables.rows
  {
    var c := w.tables.rows[id].ciphertext;
    && id in w.history && c in w.used && c in w.tables.vault
    && Chained(w.history[id]) && Latest(w.history[id]) == c
    && w.tables.vault[c] == Replay(w.history[id].initial, w.history[id].commits)
  }

  ghost predicate Invariant(w: World)
  {
    && w.tables.vault.Keys <= w.used
    && forall id :: id in w.tables.rows ==> RowExplained(w, id)
  }

  const Start := World(Tables(map[], map[]), {}, map[])

  lemma CommitExplains(w: World, id: CredentialId, p: Patch, newest: Ciphertext, row: Row)
    requires Invariant(w) && id in w.tables.rows && newest !in w.used && row.ciphertext == newest
    ensures var t := Tables(w.tables.rows[id := row],
                            w.tables.vault[newest := Merged(w.tables.vault[w.tables.rows[id].ciphertext], p)]);
            RowExplained(World(t, w.used + {newest}, Committed(w, id, p, newest)), id)
  {
    assert RowExplained(w, id);
    var h := w.history[id];
    var h' := Committed(w, id, p, newest)[id];
    assert h' == h.(commits := h.commits + [Commit(w.tables.rows[id].ciphertext, p, newest)]);
    assert h'.commits[..|h'.commits| - 1] == h.commits;
    forall i | 0 <= i < |h'.commits|
      ensures h'.commits[i].base == VersionAfter(h', i)
    {
      assert VersionAfter(h', i) == VersionAfter(h, i);
    }
  }

  /** A step that writes no new version for `id` leaves its row explained as before. */
  lemma UntouchedStaysExplained(w: World, e: Event, id: CredentialId)
    requires Invariant(w) && Legal(w, e) && id in w.tables.rows && id in Step(w, e).tables.rows
    requires Step(w, e).tables.rows[id].ciphertext == w.tables.rows[id].ciphertext
    ensures RowExplained(Step(w, e), id)
  {
    assert RowExplained(w, id);
    var w' := Step(w, e);
    assert w'.history[id] == w.history[id];
    assert w'.tables.vault[w.tables.rows[id].ciphertext] == w.tables.vault[w.tables.rows[id].ciphertext];
  }

  lemma StepExplainsRow(w: World, e: Event, id: CredentialId)
    requires Invariant(w) && Legal(w, e) && id in Step(w, e).tables.rows
    ensures RowExplained(Step(w, e), id)
  {
    var w' := Step(w, e);
    if id !in w.tables.rows {
      assert e.Create? && w'.history[id] == History(e.data, e.newest, []);
    } else {
      assert RowExplained(w, id);
      if w'.tables.rows[id].ciphertext == w.tables.rows[id].ciphertext {
        UntouchedStaysExplained(w, e, id);
      } else {
        var p := if e.Swap? then e.patch else e.change.value;
        CommitExplains(w, id, p, e.newest, w'.tables.rows[id]);
      }
    }
  }

  lemma StepKeepsInvariant(w: World, e: Event)
    requires Invariant(w) && Legal(w, e)
    ensures Invariant(Step(w, e))
  {
    forall id | id in Step(w, e).tables.rows
      ensures RowExplained(Step(w, e), id)
    {
      StepExplainsRow(w, e, id);
    }
  }

  /** In every reachable state a credential's data is the fold of its committed patches, in commit
      order, and every commit was computed from its immediate predecessor. */
  lemma {:induction false} DataIsFoldOfCommits(w: World, es: seq<Event>)
    requires Invariant(w) && LegalRun(w, es)
    ensures Invariant(Run(w, es))
    decreases |es|
  {
    if es != [] {
      StepKeepsInvariant(w, es[0]);
      DataIsFoldOfCommits(Step(w, es[0]), es[1..]);
    }
  }

  /** From empty tables on: what a credential's current version stands for is its first data with every
      committed patch merged in, in commit order, and each commit was based on the one before. */
  lemma ReachableDataIsFoldOfCommits(es: seq<Event>, id: CredentialId)
    requires LegalRun(Start, es) && id in Run(Start, es).tables.rows
    ensures var w := Run(Start, es);
            && id in w.history && Chained(w.history[id]) && Latest(w.history[id]) == w.tables.rows[id].ciphertext
            && w.tables.rows[id].ciphertext in w.tables.vault
            && w.tables.vault[w.tables.rows[id].ciphertext] == Replay(w.history[id].initial, w.history[id].commits)
  {
    DataIsFoldOfCommits(Start, es);
    assert RowExplained(Run(Start, es), id);
  }

  /** Version `v` of `id` has been overwritten or deleted. */
  ghost predicate Superseded(w: World, id: CredentialId, v: Ciphertext)
  {
    v in w.used && (id in w.tables.rows ==> w.tables.rows[id].ciphertext != v)
  }

  lemma {:induction false} SupersededForever(w: World, es: seq<Event>, id: CredentialId, v: Ciphertext)
    requires Invariant(w) && LegalRun(w, es) && Superseded(w, id, v)
    ensures Superseded(Run(w, es), id, v)
    decreases |es|
  {
    if es != [] {
      StepKeepsInvariant(w, es[0]);
      SupersededForever(Step(w, es[0]), es[1..], id, v);
    }
  }

  /** Of all swaps that expect one version at most one ever commits: after the first, every later
      one, in any interleaving, reports a conflict or a missing row. */
  lemma SwapCommitsOncePerVersion(
      w: World, first: Event, es: seq<Event>, later: Event)
    requires Invariant(w) && Legal(w, first) && first.Swap?
    requires SwapStep(w.tables, first.id, first.expected, first.patch, first.newest, first.veto).0.Updated?
    requires LegalRun(Step(w, first), es) && Legal(Run(Step(w, first), es), later)
    requires later.Swap? && later.id == first.id && later.expected == first.expected
    ensures var t := Run(Step(w, first), es).tables;
            var (r, t') := SwapStep(t, later.id, later.expected, later.patch, later.newest, later.veto);
            (r == Conflict || r == NotFound) && t' == t
  {
    StepKeepsInvariant(w, first);
    assert RowExplained(w, first.id);
    SupersededForever(Step(w, first), es, first.id, first.expected);
  }

  /** No lost update: if a caller's snapshot version is still current when its swap runs, then no
      write of any kind happened to that credential's data since the snapshot. */
  lemma {:induction false} UnchangedVersionMeansNoCommit(w: World, es: seq<Event>, id: CredentialId)
    requires Invariant(w) && LegalRun(w, es) && id in w.tables.rows && id in Run(w, es).tables.rows
    requires Run(w, es).tables.rows[id].ciphertext == w.tables.rows[id].ciphertext
    ensures id in w.history && id in Run(w, es).history && Run(w, es).history[id] == w.history[id]
    decreases |es|
  {
    var v := w.tables.rows[id].ciphertext;
    assert RowExplained(w, id);
    if es != [] {
      var w' := Step(w, es[0]);
      StepKeepsInvariant(w, es[0]);
      if id in w'.tables.rows && w'.tables.rows[id].ciphertext == v {
        assert w'.history[id] == w.history[id];
        UnchangedVersionMeansNoCommit(w', es[1..], id);
      } else {
        SupersededForever(w', es[1..], id, v);
        assert false;
      }
    }
  }
}
