/** What each lease transaction answers and what it leaves behind, in terms of the row that carries the
    lease and of what the process has seen, with every limit written out.
 */
module LeaseAnswers {
  import opened Alphabet
  import opened OAuthRefreshLease

  /** Releasing removes the one row that carries the lease ID and nothing else, and says whether there was
      one. */
  lemma ReleaseRemovesExactlyTheLease(t: Tables, id: LeaseId)
    requires WellFormed(t)
    ensures var (released, t') := ReleaseStep(t, id);
            && (released <==> exists c :: c in t.leases && t.leases[c].leaseId == id)
            && (forall c :: c in t'.leases <==> c in t.leases && t.leases[c].leaseId != id)
            && (forall c :: c in t'.leases ==> t'.leases[c] == t.leases[c])
            && !Held(t', id) && t'.credentials == t.credentials && WellFormed(t')
  {
    if Held(t, id) {
      var d := HolderOf(t, id);
      assert forall c :: c in t.leases && t.leases[c].leaseId == id ==> c == d;
    }
  }

  /** The call's own arguments and clock: a credential ID of 1 to 256 characters and dates within range. */
  predicate ArgumentsOk(c: CredentialId, wall: int)
  {
    1 <= |c| <= 256 && -8640000000000000 <= wall <= 8640000000000000 - 60000
  }

  /** Both stamps lie in the years 0000 to 9999. */
  predicate StampsOk(wall: int)
  {
    -62167219200000 <= wall <= 253402300799999 - 60000
  }

  /** The process has seen the row as it still is, a minute ago or longer. */
  predicate SeenForAMinute(obs: Observations, c: CredentialId, row: LeaseVersion, reading: real)
  {
    c in obs && obs[c].version == row && reading - obs[c].observedAt >= 60000.0
  }

  /** No row, or one that this process has watched for long enough. */
  predicate Free(t: Tables, obs: Observations, c: CredentialId, reading: real)
  {
    c in t.leases ==> SeenForAMinute(obs, c, t.leases[c], reading)
  }

  ghost predicate IdTaken(t: Tables, c: CredentialId, id: LeaseId)
  {
    exists d :: d in t.leases && d != c && t.leases[d].leaseId == id
  }

  lemma ElsewhereIsTaken(t: Tables, c: CredentialId, id: LeaseId)
    ensures Held(t.(leases := t.leases - {c}), id) <==> IdTaken(t, c, id)
  {
    var rest := t.leases - {c};
    if Held(t.(leases := rest), id) {
      var d :| d in rest && rest[d].leaseId == id;
      assert d in t.leases && d != c;
    }
    if d :| d in t.leases && d != c && t.leases[d].leaseId == id {
      assert d in rest && rest[d].leaseId == id;
    }
  }

  /** Each outcome of an acquire, exactly. */
  lemma AcquireAnswersExactly(t: Tables, obs: Observations, c: CredentialId, wall: int, reading: real, id: LeaseId)
    requires WellFormed(t)
    ensures var a, ok, free := AcquireStep(t, obs, c, wall, reading, id).0, ArgumentsOk(c, wall), Free(t, obs, c, reading);
            && (a.AcquireRejected? <==> !ok)
            && (a.Contended? <==> ok && !free)
            && (a.NotFound? <==> ok && free && c !in t.credentials)
            && (a.Acquired? <==> ok && free && c in t.credentials && !IdTaken(t, c, id) && StampsOk(wall))
            && (a.Acquired? ==> a.leaseId == id && a.expiresAt == wall + 60000)
            && (a.Contended? ==> c in t.leases && a.expiresAt == t.leases[c].expiresAt)
  {
    ElsewhereIsTaken(t, c, id);
  }

  /** Only a successful acquire changes a row, and only the credential's own. */
  lemma AcquireChangesOnlyItsRow(t: Tables, obs: Observations, c: CredentialId, wall: int, reading: real, id: LeaseId)
    requires WellFormed(t)
    ensures var (a, t', _) := AcquireStep(t, obs, c, wall, reading, id);
            && t'.credentials == t.credentials && WellFormed(t')
            && (forall d :: d != c ==> (d in t'.leases <==> d in t.leases) && (d in t.leases ==> t'.leases[d] == t.leases[d]))
            && if a.Acquired? then c in t'.leases && t'.leases[c] == LeaseVersion(id, wall, wall + 60000)
               else t' == t
  {
    ElsewhereIsTaken(t, c, id);
    if c !in t.leases {
      assert t.leases - {c} == t.leases;
    }
    AcquireAnswersExactly(t, obs, c, wall, reading, id);
  }

  /** What the process remembers afterwards: when contended, the earliest moment since which it has seen this
      very row; nothing of the credential once it found it free; and everything else as before. */
  lemma AcquireRemembers(t: Tables, obs: Observations, c: CredentialId, wall: int, reading: real, id: LeaseId)
    requires WellFormed(t)
    ensures var (a, _, obs') := AcquireStep(t, obs, c, wall, reading, id);
            && (forall d :: d != c ==> (d in obs' <==> d in obs) && (d in obs ==> obs'[d] == obs[d]))
            && (a.AcquireRejected? ==> obs' == obs)
            && (a.Contended? ==>
                 && c in t.leases && c in obs' && obs'[c].version == t.leases[c]
                 && obs'[c].observedAt ==
                    if c in obs && obs[c].version == t.leases[c] && obs[c].observedAt <= reading then obs[c].observedAt
                    else reading)
            && (!a.AcquireRejected? && !a.Contended? ==> c !in obs')
  {
  }

  /** Renewing moves the expiry to a minute from now, and at least one millisecond on, and changes nothing else. */
  lemma RenewAnswersExactly(t: Tables, c: CredentialId, wall: int)
    requires WellFormed(t) && c in t.leases && IsLeaseId(t.leases[c].leaseId)
    ensures var row := t.leases[c];
            var later := if wall + 60000 > row.expiresAt then wall + 60000 else row.expiresAt + 1;
            var (r, t') := RenewStep(t, row.leaseId, wall);
            var inRange := -8640000000000000 <= wall <= 8640000000000000 && -8640000000000000 <= later <= 8640000000000000;
            && (r.RenewRejected? <==> !inRange)
            && (r == Renewed(true) <==> inRange && -62167219200000 <= later <= 253402300799999)
            && t'.credentials == t.credentials
            && t'.leases == if r == Renewed(true) then t.leases[c := LeaseVersion(row.leaseId, row.acquiredAt, later)] else t.leases
  {
    assert HolderOf(t, t.leases[c].leaseId) == c;
  }

  /** A lease ID without a row is not renewed. */
  lemma RenewNeedsTheRow(t: Tables, id: LeaseId, wall: int)
    requires !Held(t, id)
    ensures var (r, t') := RenewStep(t, id, wall);
            t' == t && (r == Renewed(false) <==> IsLeaseId(id) && -8640000000000000 <= wall <= 8640000000000000) &&
            (r != Renewed(false) ==> r == RenewRejected)
  {
  }

  /** Once a lease is released, whoever asks next with a fresh ID gets the credential, whatever it has seen
      and without waiting. */
  lemma ReleasedIsAcquiredNext(
      t: Tables, c: CredentialId, obs: Observations, wall: int, reading: real, drawn: LeaseId)
    requires WellFormed(t) && c in t.leases && !Held(t, drawn) && ArgumentsOk(c, wall) && StampsOk(wall)
    ensures AcquireStep(ReleaseStep(t, t.leases[c].leaseId).1, obs, c, wall, reading, drawn).0 == Acquired(drawn, wall + 60000)
  {
    var t' := ReleaseStep(t, t.leases[c].leaseId).1;
    ReleaseRemovesExactlyTheLease(t, t.leases[c].leaseId);
    assert c !in t'.leases;
    AcquireAnswersExactly(t', obs, c, wall, reading, drawn);
  }

  lemma LeaseIdUnit(c: char)
    ensures c in CAPITALS + LETTERS + DIGITS + "_-" <==>
            'A' <= c <= 'Z' || 'a' <= c <= 'z' || '0' <= c <= '9' || c == '_' || c == '-'
  {
    InConsecutive('A', 26, c);
    InConsecutive('a', 26, c);
    InConsecutive('0', 10, c);
    assert "_-"[0] == '_' && "_-"[1] == '-';
  }

  /** A lease ID is 24 random bytes in base64url: 32 characters of that alphabet. */
  lemma LeaseIdsAreBase64(l: LeaseId)
    ensures IsLeaseId(l) <==> |l| == 32 && forall i :: 0 <= i < |l| ==> l[i] in CAPITALS + LETTERS + DIGITS + "_-"
  {
    forall i | 0 <= i < |l|
      ensures l[i] in CAPITALS + LETTERS + DIGITS + "_-" <==>
              'A' <= l[i] <= 'Z' || 'a' <= l[i] <= 'z' || '0' <= l[i] <= '9' || l[i] == '_' || l[i] == '-'
    {
      LeaseIdUnit(l[i]);
    }
  }
}
