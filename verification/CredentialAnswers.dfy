/** What each credential transaction answers: when it writes, what it then stores, and why it refuses. */
module CredentialAnswers {
  import opened CredentialStore
  import opened Wrappers

  ghost predicate OthersKept(t: Tables, t': Tables, id: CredentialId)
  {
    && (forall other :: other != id ==> (other in t'.rows <==> other in t.rows))
    && (forall other :: other != id && other in t.rows ==> t'.rows[other] == t.rows[other])
  }

  /** The new version is stored with the merged data; every older version still stands for what it stood for. */
  ghost predicate StoredAs(t: Tables, t': Tables, newest: Ciphertext, base: Ciphertext, p: Patch)
    requires base in t.vault
  {
    && newest in t'.vault && (forall k :: MergedAt(t.vault[base], p, t'.vault[newest], k))
    && (forall v :: v != newest ==> (v in t'.vault <==> v in t.vault))
    && (forall v :: v != newest && v in t.vault ==> t'.vault[v] == t.vault[v])
  }

  lemma MergedEverywhere(d: Data, p: Patch)
    requires IsRecord(p)
    ensures forall k :: MergedAt(d, p, Merged(d, p), k)
  {
    forall k ensures MergedAt(d, p, Merged(d, p), k) {
      MergeIsFieldwise(d, p, k);
    }
  }

  /** A swap commits if and only if the row still carries the expected version, that version decrypts and the
      callback does not object; every refusal names its own cause and leaves the tables alone. */
  lemma SwapAnswersExactly(t: Tables, id: CredentialId, expected: Ciphertext, p: Patch, newest: Ciphertext, veto: bool)
    ensures var (r, t') := SwapStep(t, id, expected, p, newest, veto);
            && (r.Updated? <==> id in t.rows && t.rows[id].ciphertext == expected && expected in t.vault && !veto)
            && (r == NotFound <==> id !in t.rows)
            && (r == Conflict <==> id in t.rows && t.rows[id].ciphertext != expected)
            && (r == DecryptFailed <==> id in t.rows && t.rows[id].ciphertext == expected && expected !in t.vault)
            && (r == Vetoed <==> id in t.rows && t.rows[id].ciphertext == expected && expected in t.vault && veto)
            && (!r.Updated? ==> t' == t)
  {
  }

  /** What a committed swap stores. */
  lemma SwapStoresMerge(t: Tables, id: CredentialId, expected: Ciphertext, p: Patch, newest: Ciphertext, veto: bool)
    requires IsRecord(p) && SwapStep(t, id, expected, p, newest, veto).0.Updated?
    ensures expected in t.vault && id in t.rows
    ensures var (r, t') := SwapStep(t, id, expected, p, newest, veto);
            && id in t'.rows && t'.rows[id] == Row(newest, t.rows[id].name, t.rows[id].usageContext, Untested)
            && StoredAs(t, t', newest, expected, p) && r.data == t'.vault[newest] && OthersKept(t, t', id)
  {
    MergedEverywhere(t.vault[expected], p);
  }

  /** An unconditional update succeeds if and only if the row exists and decrypts. A name, a usage context and
      data that are given replace, ones that are not stay; only new data makes a new, untested version. */
  lemma UpdateAnswersExactly(
      t: Tables, id: CredentialId, name: Option<string>, p: Option<Patch>, usage: Option<string>, newest: Ciphertext)
    requires p.Some? ==> IsRecord(p.value)
    ensures var (ok, t') := UpdateStep(t, id, name, p, usage, newest);
            && (ok <==> id in t.rows && t.rows[id].ciphertext in t.vault)
            && (!ok ==> t' == t)
            && (ok ==>
                 var row := t.rows[id];
                 && id in t'.rows && OthersKept(t, t', id)
                 && (name.None? ==> t'.rows[id].name == row.name) && (name.Some? ==> t'.rows[id].name == name.value)
                 && (usage.None? ==> t'.rows[id].usageContext == row.usageContext)
                 && (usage.Some? ==> t'.rows[id].usageContext == usage)
                 && (p.None? ==> t'.vault == t.vault && t'.rows[id].ciphertext == row.ciphertext
                                 && t'.rows[id].testStatus == row.testStatus)
                 && (p.Some? ==> t'.rows[id].ciphertext == newest && t'.rows[id].testStatus == Untested
                                 && StoredAs(t, t', newest, row.ciphertext, p.value)))
  {
    if id in t.rows && t.rows[id].ciphertext in t.vault && p.Some? {
      MergedEverywhere(t.vault[t.rows[id].ciphertext], p.value);
    }
  }
}
