/** Runs of the lease protocol: any number of processes, each with its own observation map and its
    own monotonic origin, interleave arbitrarily on one table while wall clocks jump freely.

    `skew(p)` is the constant offset of process `p`'s monotonic clock (equal rates, unknown origins)
    and `wait` bounds the delay between reading that clock and entering the transaction.
 */
module LeaseProtocol {
  import opened OAuthRefreshLease

  datatype Event =
    | Tick(elapsed: real)
    | CreateCredential(created: CredentialId)
    | DeleteCredential(deleted: CredentialId)
    | Acquire(process: ProcessId, credential: CredentialId, wall: int, lockWait: real, freshId: LeaseId)
    | Renew(renewed: LeaseId, at: int)
    | Release(released: LeaseId)

  datatype Outcome = Silent | AcquireOutcome(a: Acquisition) | RenewOutcome(r: Renewal) | ReleaseOutcome(done: bool)

  /** `issued` and `touched` are history: every lease ID that a process ever drew, and the time at
      which each row was last acquired or renewed. */
  datatype World = World(
    tables: Tables,
    observed: map<ProcessId, Observations>,
    now: real,
    issued: set<LeaseId>,
    touched: map<CredentialId, real>)

  type Skew = ProcessId -> real

  ghost function ObservationsOf(w: World, p: ProcessId): Observations
  {
    if p in w.observed then w.observed[p] else map[]
  }

  ghost predicate Legal(w: World, e: Event, wait: real)
  {
    match e
    case Tick(d) => d >= 0.0
    case Acquire(_, _, _, lockWait, id) => 0.0 <= lockWait <= wait && id !in w.issued && IsLeaseId(id)
    case _ => true
  }

  ghost function Step(w: World, e: Event, skew: Skew): (Outcome, World)
  {
    match e
    case Tick(d) => (Silent, w.(now := w.now + d))
    case CreateCredential(c) => (Silent, w.(tables := w.tables.(credentials := w.tables.credentials + {c})))
    case DeleteCredential(c) =>
      // The foreign key cascades to the lease row.
      (Silent, w.(tables := Tables(w.tables.credentials - {c}, w.tables.leases - {c})))
    case Acquire(p, c, wall, lockWait, id) =>
      var (a, t, obs) := AcquireStep(w.tables, ObservationsOf(w, p), c, wall, w.now - lockWait + skew(p), id);
      (AcquireOutcome(a),
       w.(tables := t, observed := w.observed[p := obs], issued := w.issued + {id},
          touched := if a.Acquired? then w.touched[c := w.now] else w.touched))
    case Renew(id, wall) =>
      var (r, t) := RenewStep(w.tables, id, wall);
      (RenewOutcome(r),
       w.(tables := t,
          touched := if r == Renewed(true) && Held(w.tables, id) then w.touched[HolderOf(w.tables, id) := w.now]
                     else w.touched))
    case Release(id) =>
      var (b, t) := ReleaseStep(w.tables, id);
      (ReleaseOutcome(b), w.(tables := t))
  }

  ghost function Run(w: World, es: seq<Event>, skew: Skew): World
    decreases |es|
  {
    if es == [] then w else Run(Step(w, es[0], skew).1, es[1..], skew)
  }

  ghost function Outcomes(w: World, es: seq<Event>, skew: Skew): seq<Outcome>
    decreases |es|
  {
    if es == [] then []
    else [Step(w, es[0], skew).0] + Outcomes(Step(w, es[0], skew).1, es[1..], skew)
  }

  ghost predicate LegalRun(w: World, es: seq<Event>, skew: Skew, wait: real)
    decreases |es|
  {
    es == [] || (Legal(w, es[0], wait) && LegalRun(Step(w, es[0], skew).1, es[1..], skew, wait))
  }

  // ---------------------------------------------------------------------------------------------
  // The invariant
  // ---------------------------------------------------------------------------------------------

  ghost predicate RowsTracked(w: World)
  {
    && WellFormed(w.tables)
    && (forall c :: c in w.tables.leases ==>
         w.tables.leases[c].leaseId in w.issued && c in w.touched && w.touched[c] <= w.now)
  }

  /** An observation is never newer than the row it was taken from. */
  ghost predicate ObservationOld(w: World, p: ProcessId, c: CredentialId)
  {
    c in ObservationsOf(w, p) ==>
      var v := ObservationsOf(w, p)[c].version;
      && v.leaseId in w.issued
      && (c in w.tables.leases && w.tables.leases[c].leaseId == v.leaseId ==> v.expiresAt <= w.tables.leases[c].expiresAt)
  }

  /** An observation of the version that is still current was made after the last renewal. */
  ghost predicate ObservationCurrent(w: World, p: ProcessId, c: CredentialId, skew: Skew, wait: real)
  {
    c in ObservationsOf(w, p) && c in w.tables.leases && c in w.touched &&
    ObservationsOf(w, p)[c].version == w.tables.leases[c] ==>
      ObservationsOf(w, p)[c].observedAt >= w.touched[c] + skew(p) - wait
  }

  ghost predicate Invariant(w: World, skew: Skew, wait: real)
  {
    && RowsTracked(w)
    && (forall p, c :: ObservationOld(w, p, c))
    && (forall p, c :: ObservationCurrent(w, p, c, skew, wait))
  }

  const Start := World(Tables({}, map[]), map[], 0.0, {}, map[])

  lemma AcquireKeepsRows(w: World, e: Event, skew: Skew, wait: real)
    requires RowsTracked(w) && Legal(w, e, wait) && e.Acquire?
    ensures RowsTracked(Step(w, e, skew).1)
  {
    var a := AcquireStep(
      w.tables, ObservationsOf(w, e.process), e.credential, e.wall, w.now - e.lockWait + skew(e.process), e.freshId);
    assert a.1.leases.Keys <= w.tables.leases.Keys + {e.credential};
  }

  lemma RowsStayTracked(w: World, e: Event, skew: Skew, wait: real)
    requires RowsTracked(w) && Legal(w, e, wait)
    ensures RowsTracked(Step(w, e, skew).1)
  {
    if e.Acquire? {
      AcquireKeepsRows(w, e, skew, wait);
    }
  }

  lemma AcquireKeepsObservations(w: World, e: Event, skew: Skew, wait: real, p: ProcessId, c: CredentialId)
    requires Invariant(w, skew, wait) && Legal(w, e, wait) && e.Acquire?
    ensures ObservationOld(Step(w, e, skew).1, p, c)
    ensures ObservationCurrent(Step(w, e, skew).1, p, c, skew, wait)
  {
    assert ObservationOld(w, p, c) && ObservationCurrent(w, p, c, skew, wait);
    var w' := Step(w, e, skew).1;
    if p != e.process {
      assert ObservationsOf(w', p) == ObservationsOf(w, p);
    }
  }

  lemma RenewKeepsObservations(w: World, e: Event, skew: Skew, wait: real, p: ProcessId, c: CredentialId)
    requires Invariant(w, skew, wait) && Legal(w, e, wait) && e.Renew?
    ensures ObservationOld(Step(w, e, skew).1, p, c)
    ensures ObservationCurrent(Step(w, e, skew).1, p, c, skew, wait)
  {
    assert ObservationOld(w, p, c) && ObservationCurrent(w, p, c, skew, wait);
    assert ObservationsOf(Step(w, e, skew).1, p) == ObservationsOf(w, p);
  }

  lemma StepKeepsInvariant(w: World, e: Event, skew: Skew, wait: real)
    requires Invariant(w, skew, wait) && Legal(w, e, wait)
    ensures Invariant(Step(w, e, skew).1, skew, wait)
  {
    var w' := Step(w, e, skew).1;
    RowsStayTracked(w, e, skew, wait);
    forall p, c
      ensures ObservationOld(w', p, c)
      ensures ObservationCurrent(w', p, c, skew, wait)
    {
      if e.Acquire? {
        AcquireKeepsObservations(w, e, skew, wait, p, c);
      } else if e.Renew? {
        RenewKeepsObservations(w, e, skew, wait, p, c);
      } else {
        assert ObservationOld(w, p, c) && ObservationCurrent(w, p, c, skew, wait);
        assert ObservationsOf(w', p) == ObservationsOf(w, p);
      }
    }
  }

  lemma {:induction false} RunKeepsInvariant(w: World, es: seq<Event>, skew: Skew, wait: real)
    requires Invariant(w, skew, wait) && LegalRun(w, es, skew, wait)
    ensures Invariant(Run(w, es, skew), skew, wait)
    decreases |es|
  {
    if es != [] {
      StepKeepsInvariant(w, es[0], skew, wait);
      RunKeepsInvariant(Step(w, es[0], skew).1, es[1..], skew, wait);
    }
  }

  /** So it holds in every world that a legal run reaches from empty tables, whatever the skews and the
      longest lock wait. */
  lemma ReachableWorldsKeepInvariant(es: seq<Event>, skew: Skew, wait: real)
    requires LegalRun(Start, es, skew, wait)
    ensures Invariant(Run(Start, es, skew), skew, wait)
  {
    RunKeepsInvariant(Start, es, skew, wait);
  }

  // ---------------------------------------------------------------------------------------------
  // Exclusion: a holder that keeps renewing is never reclaimed
  // ---------------------------------------------------------------------------------------------

  ghost predicate Holds(w: World, c: CredentialId, id: LeaseId)
  {
    c in w.tables.leases && w.tables.leases[c].leaseId == id
  }

  /** The schedule `es` leaves lease `id` on `c` alone and never lets a process attempt `c` once the
      holder has been quiet for `margin`; `quiet` is the time since its last successful renewal. */
  ghost predicate KeepsRenewing(w: World, es: seq<Event>, skew: Skew, margin: real, c: CredentialId, id: LeaseId, quiet: real)
    decreases |es|
  {
    es == [] ||
    var (o, w') := Step(w, es[0], skew);
    match es[0]
    case Tick(d) => KeepsRenewing(w', es[1..], skew, margin, c, id, quiet + d)
    case CreateCredential(_) => KeepsRenewing(w', es[1..], skew, margin, c, id, quiet)
    case DeleteCredential(d) => d != c && KeepsRenewing(w', es[1..], skew, margin, c, id, quiet)
    case Acquire(_, d, _, _, _) =>
      (d == c ==> quiet < margin) && KeepsRenewing(w', es[1..], skew, margin, c, id, quiet)
    case Renew(l, _) =>
      KeepsRenewing(w', es[1..], skew, margin, c, id,
                    if l == id && o == RenewOutcome(Renewed(true)) then 0.0 else quiet)
    case Release(l) => l != id && KeepsRenewing(w', es[1..], skew, margin, c, id, quiet)
  }

  /** One step of the exclusion argument: the row survives and its last touch is no older than `quiet`. */
  lemma HolderSurvivesStep(w: World, e: Event, skew: Skew, wait: real, c: CredentialId, id: LeaseId, quiet: real)
    requires Invariant(w, skew, wait) && Legal(w, e, wait) && wait >= 0.0
    requires Holds(w, c, id) && w.now - w.touched[c] <= quiet
    requires e != DeleteCredential(c) && e != Release(id)
    requires e.Acquire? && e.credential == c ==> quiet < TTL - wait
    ensures Invariant(Step(w, e, skew).1, skew, wait)
    ensures Holds(Step(w, e, skew).1, c, id)
    ensures var w' := Step(w, e, skew).1;
            w'.now - w'.touched[c] <=
              (if e.Tick? then quiet + e.elapsed
               else if e.Renew? && e.renewed == id && Step(w, e, skew).0 == RenewOutcome(Renewed(true)) then 0.0
               else quiet)
  {
    StepKeepsInvariant(w, e, skew, wait);
    if e.Acquire? && e.credential == c {
      assert ObservationCurrent(w, e.process, c, skew, wait);
      var reading := w.now - e.lockWait + skew(e.process);
      assert reading - Observe(ObservationsOf(w, e.process), c, w.tables.leases[c], reading).observedAt < TTL;
    }
  }

  /** Mutual exclusion over all interleavings: whoever renews at intervals shorter than
      TTL - wait still holds the lease, whatever the other processes and the wall clocks do. */
  lemma {:induction false} RenewingHolderIsNeverReclaimed(
      w: World, es: seq<Event>, skew: Skew, wait: real, margin: real, c: CredentialId, id: LeaseId, quiet: real)
    requires Invariant(w, skew, wait) && LegalRun(w, es, skew, wait) && wait >= 0.0
    requires Holds(w, c, id) && w.now - w.touched[c] <= quiet
    requires margin <= TTL - wait && KeepsRenewing(w, es, skew, margin, c, id, quiet)
    ensures Holds(Run(w, es, skew), c, id)
    decreases |es|
  {
    if es != [] {
      var e := es[0];
      HolderSurvivesStep(w, e, skew, wait, c, id, quiet);
      var (o, w') := Step(w, e, skew);
      var quiet' :=
        if e.Tick? then quiet + e.elapsed
        else if e.Renew? && e.renewed == id && o == RenewOutcome(Renewed(true)) then 0.0
        else quiet;
      RenewingHolderIsNeverReclaimed(w', es[1..], skew, wait, margin, c, id, quiet');
    }
  }

  // ---------------------------------------------------------------------------------------------
  // Versions never repeat, and a lost lease stays lost
  // ---------------------------------------------------------------------------------------------

  /** Version `v` was issued for `c` and can never be the current row again. */
  ghost predicate Gone(w: World, c: CredentialId, v: LeaseVersion)
  {
    && v.leaseId in w.issued
    && (Holds(w, c, v.leaseId) ==> v.expiresAt < w.tables.leases[c].expiresAt)
  }

  lemma VersionStaysOrGoes(w: World, e: Event, skew: Skew, wait: real, c: CredentialId, v: LeaseVersion)
    requires Invariant(w, skew, wait) && Legal(w, e, wait)
    requires Gone(w, c, v) || (c in w.tables.leases && w.tables.leases[c] == v)
    ensures var w' := Step(w, e, skew).1;
            Gone(w', c, v) || (!Gone(w, c, v) && c in w'.tables.leases && w'.tables.leases[c] == v)
  {
  }

  /** No ABA: a row version that was replaced, renewed or deleted never becomes current again. */
  lemma {:induction false} VersionsNeverRepeat(
      w: World, es: seq<Event>, skew: Skew, wait: real, c: CredentialId, v: LeaseVersion)
    requires Invariant(w, skew, wait) && LegalRun(w, es, skew, wait) && Gone(w, c, v)
    ensures Gone(Run(w, es, skew), c, v)
    ensures var t := Run(w, es, skew).tables; c !in t.leases || t.leases[c] != v
    decreases |es|
  {
    if es != [] {
      StepKeepsInvariant(w, es[0], skew, wait);
      VersionStaysOrGoes(w, es[0], skew, wait, c, v);
      VersionsNeverRepeat(Step(w, es[0], skew).1, es[1..], skew, wait, c, v);
    }
  }

  lemma LostStepStaysLost(w: World, e: Event, skew: Skew, wait: real, id: LeaseId)
    requires Invariant(w, skew, wait) && Legal(w, e, wait)
    requires id in w.issued && !Held(w.tables, id)
    ensures id in Step(w, e, skew).1.issued && !Held(Step(w, e, skew).1.tables, id)
  {
    var t' := Step(w, e, skew).1.tables;
    forall c | c in t'.leases
      ensures t'.leases[c].leaseId != id
    {
      if c in w.tables.leases {
        assert w.tables.leases[c].leaseId != id;
      }
    }
  }

  /** A lease ID that left the table is never held, renewed or released again. */
  lemma {:induction false} StaleOwnerNeverReturns(w: World, es: seq<Event>, skew: Skew, wait: real, id: LeaseId, wall: int)
    requires Invariant(w, skew, wait) && LegalRun(w, es, skew, wait)
    requires id in w.issued && !Held(w.tables, id)
    ensures var t := Run(w, es, skew).tables;
            !Held(t, id) && RenewStep(t, id, wall).0 != Renewed(true) && !ReleaseStep(t, id).0
    decreases |es|
  {
    if es != [] {
      StepKeepsInvariant(w, es[0], skew, wait);
      LostStepStaysLost(w, es[0], skew, wait, id);
      StaleOwnerNeverReturns(Step(w, es[0], skew).1, es[1..], skew, wait, id, wall);
    }
  }

  lemma HolderStaysOrLeaves(w: World, e: Event, skew: Skew, wait: real, c: CredentialId, id: LeaseId)
    requires Invariant(w, skew, wait) && Legal(w, e, wait) && Holds(w, c, id)
    ensures var w' := Step(w, e, skew).1; Holds(w', c, id) || !Held(w'.tables, id)
    ensures id in Step(w, e, skew).1.issued
  {
    var t' := Step(w, e, skew).1.tables;
    forall d | d in t'.leases && d != c
      ensures t'.leases[d].leaseId != id
    {
      if d in w.tables.leases {
        assert w.tables.leases[d].leaseId != id;
      }
    }
  }

  /** A process that holds a lease before and after an interval held it throughout, so the check
      made inside its commit transaction excludes every other holder in between. */
  lemma {:induction false} HeldAtBothEndsIsHeldThroughout(
      w: World, es: seq<Event>, fs: seq<Event>, skew: Skew, wait: real, c: CredentialId, id: LeaseId)
    requires Invariant(w, skew, wait) && LegalRun(w, es, skew, wait) && LegalRun(Run(w, es, skew), fs, skew, wait)
    requires Holds(w, c, id) && Held(Run(Run(w, es, skew), fs, skew).tables, id)
    ensures Holds(Run(w, es, skew), c, id)
    decreases |es|
  {
    if es != [] {
      var w' := Step(w, es[0], skew).1;
      StepKeepsInvariant(w, es[0], skew, wait);
      HolderStaysOrLeaves(w, es[0], skew, wait, c, id);
      if Holds(w', c, id) {
        HeldAtBothEndsIsHeldThroughout(w', es[1..], fs, skew, wait, c, id);
      } else {
        StaleOwnerNeverReturns(w', es[1..], skew, wait, id, 0);
        RunKeepsInvariant(w', es[1..], skew, wait);
        StaysIssued(w', es[1..], skew, id);
        StaleOwnerNeverReturns(Run(w', es[1..], skew), fs, skew, wait, id, 0);
        assert false;
      }
    }
  }

  lemma {:induction false} StaysIssued(w: World, es: seq<Event>, skew: Skew, id: LeaseId)
    requires id in w.issued
    ensures id in Run(w, es, skew).issued
    decreases |es|
  {
    if es != [] {
      StaysIssued(Step(w, es[0], skew).1, es[1..], skew, id);
    }
  }

  // ---------------------------------------------------------------------------------------------
  // A silent holder is reclaimable
  // ---------------------------------------------------------------------------------------------

  predicate Storable(wall: int)
  {
    IsRowStamp(wall) && IsRowStamp(wall + LEASE_TTL_MS)
  }

  predicate StorableWalls(es: seq<Event>)
  {
    forall i :: 0 <= i < |es| && es[i].Acquire? ==> Storable(es[i].wall)
  }

  /** Process `p` has been watching version `v` of `c` since its clock read at most `since`. */
  ghost predicate Watching(w: World, p: ProcessId, c: CredentialId, v: LeaseVersion, since: real)
  {
    && IsCredentialId(c)
    && c in w.tables.leases && w.tables.leases[c] == v
    && c in ObservationsOf(w, p)
    && ObservationsOf(w, p)[c].version == v && ObservationsOf(w, p)[c].observedAt <= since
  }

  lemma WatchingStep(w: World, e: Event, skew: Skew, wait: real, p: ProcessId, c: CredentialId, v: LeaseVersion, since: real)
    requires Invariant(w, skew, wait) && Legal(w, e, wait)
    requires Watching(w, p, c, v, since)
    requires e.Acquire? ==> Storable(e.wall)
    ensures Watching(Step(w, e, skew).1, p, c, v, since) || Gone(Step(w, e, skew).1, c, v)
  {
    var w' := Step(w, e, skew).1;
    VersionStaysOrGoes(w, e, skew, wait, c, v);
    if !e.Acquire? || e.process != p {
      assert ObservationsOf(w', p) == ObservationsOf(w, p);
    } else if e.credential == c {
      FreshIdIsNotHeld(w, e.freshId, c, skew, wait);
    }
  }

  lemma FreshIdIsNotHeld(w: World, id: LeaseId, c: CredentialId, skew: Skew, wait: real)
    requires Invariant(w, skew, wait) && id !in w.issued
    ensures !Held(w.tables.(leases := w.tables.leases - {c}), id)
  {
  }

  lemma {:induction false} WatchingRun(
      w: World, es: seq<Event>, skew: Skew, wait: real, p: ProcessId, c: CredentialId, v: LeaseVersion, since: real)
    requires Invariant(w, skew, wait) && LegalRun(w, es, skew, wait) && StorableWalls(es)
    requires Watching(w, p, c, v, since)
    ensures Watching(Run(w, es, skew), p, c, v, since) || Gone(Run(w, es, skew), c, v)
    decreases |es|
  {
    if es != [] {
      var w' := Step(w, es[0], skew).1;
      StepKeepsInvariant(w, es[0], skew, wait);
      WatchingStep(w, es[0], skew, wait, p, c, v, since);
      if Watching(w', p, c, v, since) {
        assert StorableWalls(es[1..]) by {
          forall i | 0 <= i < |es[1..]| && es[1..][i].Acquire? ensures Storable(es[1..][i].wall) {
            assert es[1..][i] == es[i + 1];
          }
        }
        WatchingRun(w', es[1..], skew, wait, p, c, v, since);
      } else {
        VersionsNeverRepeat(w', es[1..], skew, wait, c, v);
      }
    }
  }

  /** Process `p` was turned away by version `v`; one TTL (plus the lock wait) later the row still
      carries `v`. Then the next attempt of `p` takes the lease over. */
  lemma SilentHolderIsReclaimable(w: World, first: Event, es: seq<Event>, again: Event, skew: Skew, wait: real)
    requires Invariant(w, skew, wait) && Legal(w, first, wait) && wait >= 0.0
    requires first.Acquire? && Step(w, first, skew).0.AcquireOutcome? && Step(w, first, skew).0.a.Contended?
    requires var w1 := Step(w, first, skew).1;
             var w2 := Run(w1, es, skew);
             && LegalRun(w1, es, skew, wait) && StorableWalls(es)
             && Legal(w2, again, wait) && again.Acquire? && Storable(again.wall)
             && again.process == first.process && again.credential == first.credential
             && w2.now - w1.now >= TTL + wait
             && first.credential in w2.tables.leases
             && w2.tables.leases[first.credential] == w1.tables.leases[first.credential]
    ensures var w2 := Run(Step(w, first, skew).1, es, skew);
            Step(w2, again, skew).0 == AcquireOutcome(Acquired(again.freshId, again.wall + LEASE_TTL_MS))
  {
    var w1 := Step(w, first, skew).1;
    var p, c := first.process, first.credential;
    var v := w1.tables.leases[c];
    StepKeepsInvariant(w, first, skew, wait);
    assert Watching(w1, p, c, v, w1.now + skew(p));
    WatchingRun(w1, es, skew, wait, p, c, v, w1.now + skew(p));
    RunKeepsInvariant(w1, es, skew, wait);
    var w2 := Run(w1, es, skew);
    assert Watching(w2, p, c, v, w1.now + skew(p));
    FreshIdIsNotHeld(w2, again.freshId, c, skew, wait);
  }

  /** Why the margin is TTL - wait and not TTL: the clock is read before the transaction starts, so
      a process can date its observation `wait` before the holder's last touch and reclaim the
      lease while the holder has been quiet for TTL - wait only. */
  lemma LockWaitShortensTheMargin(
      w: World, skew: Skew, wait: real, p: ProcessId, c: CredentialId, a: LeaseId, other: LeaseId, b: LeaseId)
    requires Invariant(w, skew, wait) && 0.0 <= wait <= TTL
    requires IsCredentialId(c) && Holds(w, c, a) && w.touched[c] == w.now && c !in ObservationsOf(w, p)
    requires IsLeaseId(other) && other !in w.issued && IsLeaseId(b) && b !in w.issued && b != other
    ensures var first, again := Acquire(p, c, 0, wait, other), Acquire(p, c, 0, 0.0, b);
            var before := Step(Step(w, first, skew).1, Tick(TTL - wait), skew).1;
            && Legal(w, first, wait) && Legal(before, again, wait)
            && Holds(before, c, a) && before.touched == w.touched && before.now - w.touched[c] == TTL - wait
            && !Holds(Step(before, again, skew).1, c, a)
  {
    var first, again := Acquire(p, c, 0, wait, other), Acquire(p, c, 0, 0.0, b);
    var w1 := Step(w, first, skew).1;
    StepKeepsInvariant(w, first, skew, wait);
    assert w1.tables == w.tables;
    assert ObservationsOf(w1, p)[c] == Observation(w.tables.leases[c], w.now - wait + skew(p));
    var before := Step(w1, Tick(TTL - wait), skew).1;
    StepKeepsInvariant(w1, Tick(TTL - wait), skew, wait);
    assert ObservationsOf(before, p) == ObservationsOf(w1, p);
    FreshIdIsNotHeld(before, b, c, skew, wait);
  }

  /** Renewing at intervals shorter than `margin` protects every holder in every legal run. */
  ghost predicate SafeMargin(margin: real, wait: real)
  {
    forall w, es, skew, c, id, quiet ::
      && Invariant(w, skew, wait) && LegalRun(w, es, skew, wait)
      && Holds(w, c, id) && w.now - w.touched[c] <= quiet && KeepsRenewing(w, es, skew, margin, c, id, quiet)
      ==> Holds(Run(w, es, skew), c, id)
  }

  /** A world in which lease `a` of credential `c` has just been acquired. */
  ghost function JustAcquired(c: CredentialId, a: LeaseId): World
  {
    World(Tables({c}, map[c := LeaseVersion(a, 0, LEASE_TTL_MS)]), map[], 0.0, {a}, map[c := 0.0])
  }

  function LeaseIdOf(letter: char): (l: LeaseId)
    requires 'a' <= letter <= 'z'
    ensures IsLeaseId(l) && l[0] == letter
  {
    seq(32, i => letter)
  }

  lemma WideMarginIsUnsafe(margin: real, wait: real)
    requires 0.0 <= wait <= TTL && margin > TTL - wait
    ensures !SafeMargin(margin, wait)
  {
    var c, a, x, y := "c", LeaseIdOf('a'), LeaseIdOf('x'), LeaseIdOf('y');
    var w, skew: Skew := JustAcquired(c, a), _ => 0.0;
    assert a[0] != x[0] && a[0] != y[0] && x[0] != y[0];
    LockWaitShortensTheMargin(w, skew, wait, 0, c, a, x, y);
    var first, tick, again := Acquire(0, c, 0, wait, x), Tick(TTL - wait), Acquire(0, c, 0, 0.0, y);
    RunOfThree(w, first, tick, again, skew);
    LegalOfThree(w, first, tick, again, skew, wait);
    RenewingOfThree(w, first, tick, again, skew, margin, c, a);
    assert KeepsRenewing(w, [first, tick, again], skew, margin, c, a, 0.0);
  }

  lemma RunOfThree(w: World, e: Event, f: Event, g: Event, skew: Skew)
    ensures Run(w, [e, f, g], skew) == Step(Step(Step(w, e, skew).1, f, skew).1, g, skew).1
  {
    assert [e, f, g][1..] == [f, g] && [f, g][1..] == [g] && [g][1..] == [];
    var w1 := Step(w, e, skew).1;
    var w2 := Step(w1, f, skew).1;
    assert Run(w2, [g], skew) == Step(w2, g, skew).1;
    assert Run(w1, [f, g], skew) == Run(w2, [g], skew);
  }

  lemma LegalOfThree(w: World, e: Event, f: Event, g: Event, skew: Skew, wait: real)
    requires var w1 := Step(w, e, skew).1;
             Legal(w, e, wait) && Legal(w1, f, wait) && Legal(Step(w1, f, skew).1, g, wait)
    ensures LegalRun(w, [e, f, g], skew, wait)
  {
    assert [e, f, g][1..] == [f, g] && [f, g][1..] == [g] && [g][1..] == [];
    var w1 := Step(w, e, skew).1;
    var w2 := Step(w1, f, skew).1;
    assert LegalRun(w2, [g], skew, wait);
    assert LegalRun(w1, [f, g], skew, wait);
  }

  lemma RenewingOfThree(
      w: World, e: Event, f: Event, g: Event, skew: Skew, margin: real, c: CredentialId, id: LeaseId)
    requires e.Acquire? && f.Tick? && g.Acquire? && 0.0 < margin && f.elapsed < margin
    ensures KeepsRenewing(w, [e, f, g], skew, margin, c, id, 0.0)
  {
    assert [e, f, g][1..] == [f, g] && [f, g][1..] == [g] && [g][1..] == [];
    var w1 := Step(w, e, skew).1;
    var w2 := Step(w1, f, skew).1;
    assert KeepsRenewing(w2, [g], skew, margin, c, id, f.elapsed);
    assert KeepsRenewing(w1, [f, g], skew, margin, c, id, 0.0);
  }

  /** The exact margin: for a lock wait of at most one TTL, renewing at intervals shorter than `margin`
      always protects the holder if and only if `margin` is at most TTL - wait. */
  lemma SafeMarginIsExact(margin: real, wait: real)
    requires 0.0 <= wait <= TTL
    ensures SafeMargin(margin, wait) <==> margin <= TTL - wait
  {
    if margin <= TTL - wait {
      forall w, es, skew, c, id, quiet |
        && Invariant(w, skew, wait) && LegalRun(w, es, skew, wait)
        && Holds(w, c, id) && w.now - w.touched[c] <= quiet && KeepsRenewing(w, es, skew, margin, c, id, quiet)
        ensures Holds(Run(w, es, skew), c, id)
      {
        RenewingHolderIsNeverReclaimed(w, es, skew, wait, margin, c, id, quiet);
      }
    } else {
      WideMarginIsUnsafe(margin, wait);
    }
  }

  // ---------------------------------------------------------------------------------------------
  // Wall clocks only label versions
  // ---------------------------------------------------------------------------------------------

  /** Two events that differ at most in the wall-clock value they carry. */
  predicate SameUpToWall(e: Event, f: Event)
  {
    match (e, f)
    case (Acquire(p, c, _, d, id), Acquire(q, c', _, d', id')) => p == q && c == c' && d == d' && id == id'
    case (Renew(id, _), Renew(id', _)) => id == id'
    case _ => e == f
  }

  predicate SameScript(es: seq<Event>, fs: seq<Event>)
  {
    |es| == |fs| && forall i :: 0 <= i < |es| ==> SameUpToWall(es[i], fs[i])
  }

  /** The wall readings leave room for `n` one-millisecond renewals below the last storable stamp. */
  predicate HasRoom(wall: int, n: nat)
  {
    MIN_ROW_STAMP <= wall && wall + LEASE_TTL_MS + n <= MAX_ROW_STAMP
  }

  predicate WallsHaveRoom(es: seq<Event>, n: nat)
  {
    forall i :: 0 <= i < |es| ==>
      (es[i].Acquire? ==> HasRoom(es[i].wall, n)) && (es[i].Renew? ==> HasRoom(es[i].at, n))
  }

  ghost predicate RowsHaveRoom(w: World, n: nat)
  {
    forall c :: c in w.tables.leases ==> w.tables.leases[c].expiresAt + n <= MAX_ROW_STAMP
  }

  predicate SameOutcome(o: Outcome, q: Outcome)
  {
    match (o, q)
    case (AcquireOutcome(Acquired(id, _)), AcquireOutcome(Acquired(id', _))) => id == id'
    case (AcquireOutcome(Contended(_)), AcquireOutcome(Contended(_))) => true
    case _ => o == q
  }

  ghost predicate SameObservation(a: World, b: World, p: ProcessId, c: CredentialId)
  {
    var x, y := ObservationsOf(a, p), ObservationsOf(b, p);
    && (c in x <==> c in y)
    && (c in x ==> x[c].observedAt == y[c].observedAt)
    && (c in x && c in a.tables.leases && c in b.tables.leases ==>
         (x[c].version == a.tables.leases[c] <==> y[c].version == b.tables.leases[c]))
  }

  ghost predicate SameRows(a: World, b: World)
  {
    && a.tables.credentials == b.tables.credentials && a.now == b.now && a.issued == b.issued
    && a.tables.leases.Keys == b.tables.leases.Keys
    && (forall c :: c in a.tables.leases ==> a.tables.leases[c].leaseId == b.tables.leases[c].leaseId)
  }

  /** Worlds that no process can tell apart except by reading time stamps. */
  ghost predicate Indistinguishable(a: World, b: World)
  {
    SameRows(a, b) && forall p, c :: SameObservation(a, b, p, c)
  }

  lemma SameHolders(a: World, b: World, id: LeaseId)
    requires SameRows(a, b) && WellFormed(a.tables) && WellFormed(b.tables)
    ensures Held(a.tables, id) == Held(b.tables, id)
    ensures Held(a.tables, id) ==> HolderOf(a.tables, id) == HolderOf(b.tables, id)
  {
    if Held(a.tables, id) {
      var c := HolderOf(a.tables, id);
      assert c in b.tables.leases && b.tables.leases[c].leaseId == id;
    }
    if Held(b.tables, id) {
      var c := HolderOf(b.tables, id);
      assert c in a.tables.leases && a.tables.leases[c].leaseId == id;
    }
  }

  /** The row is held and the process has not yet watched its version for a whole TTL. */
  ghost predicate Contends(w: World, e: Event, skew: Skew)
    requires e.Acquire?
  {
    var c, reading := e.credential, w.now - e.lockWait + skew(e.process);
    c in w.tables.leases &&
    reading - Observe(ObservationsOf(w, e.process), c, w.tables.leases[c], reading).observedAt < TTL
  }

  lemma ContendsAlike(a: World, b: World, e: Event, f: Event, skew: Skew)
    requires e.Acquire? && SameUpToWall(e, f) && SameRows(a, b) && SameObservation(a, b, e.process, e.credential)
    ensures Contends(a, e, skew) == Contends(b, f, skew)
  {
  }

  lemma ContendedDecidesAlike(a: World, b: World, e: Event, f: Event, skew: Skew)
    requires e.Acquire? && SameUpToWall(e, f) && Storable(e.wall) && Storable(f.wall) && SameRows(a, b)
    requires Contends(a, e, skew) && Contends(b, f, skew)
    ensures SameOutcome(Step(a, e, skew).0, Step(b, f, skew).0)
    ensures SameRows(Step(a, e, skew).1, Step(b, f, skew).1)
  {
  }

  lemma FreeDecidesAlike(a: World, b: World, e: Event, f: Event, skew: Skew)
    requires e.Acquire? && SameUpToWall(e, f) && Storable(e.wall) && Storable(f.wall) && SameRows(a, b)
    requires !Contends(a, e, skew) && !Contends(b, f, skew)
    requires !Held(a.tables.(leases := a.tables.leases - {e.credential}), e.freshId)
    requires !Held(b.tables.(leases := b.tables.leases - {e.credential}), e.freshId)
    ensures SameOutcome(Step(a, e, skew).0, Step(b, f, skew).0)
    ensures SameRows(Step(a, e, skew).1, Step(b, f, skew).1)
  {
  }

  lemma AcquireDecidesAlike(a: World, b: World, e: Event, f: Event, skew: Skew)
    requires e.Acquire? && SameUpToWall(e, f) && Storable(e.wall) && Storable(f.wall)
    requires SameRows(a, b) && SameObservation(a, b, e.process, e.credential)
    requires !Held(a.tables.(leases := a.tables.leases - {e.credential}), e.freshId)
    requires !Held(b.tables.(leases := b.tables.leases - {e.credential}), e.freshId)
    ensures SameOutcome(Step(a, e, skew).0, Step(b, f, skew).0)
    ensures SameRows(Step(a, e, skew).1, Step(b, f, skew).1)
  {
    ContendsAlike(a, b, e, f, skew);
    if Contends(a, e, skew) {
      ContendedDecidesAlike(a, b, e, f, skew);
    } else {
      FreeDecidesAlike(a, b, e, f, skew);
    }
  }

  lemma AcquireObservesAlike(a: World, b: World, e: Event, f: Event, skew: Skew, p: ProcessId, c: CredentialId)
    requires e.Acquire? && SameUpToWall(e, f) && Storable(e.wall) && Storable(f.wall)
    requires SameRows(a, b) && SameObservation(a, b, e.process, e.credential) && SameObservation(a, b, p, c)
    requires !Held(a.tables.(leases := a.tables.leases - {e.credential}), e.freshId)
    requires !Held(b.tables.(leases := b.tables.leases - {e.credential}), e.freshId)
    requires c in ObservationsOf(a, p) ==> ObservationsOf(a, p)[c].version.leaseId != e.freshId
    requires c in ObservationsOf(b, p) ==> ObservationsOf(b, p)[c].version.leaseId != e.freshId
    ensures SameObservation(Step(a, e, skew).1, Step(b, f, skew).1, p, c)
  {
    var a', b' := Step(a, e, skew).1, Step(b, f, skew).1;
    if c != e.credential {
      AcquireLeavesOthersAlone(a, e, skew, p, c);
      AcquireLeavesOthersAlone(b, f, skew, p, c);
    } else {
      AcquireDecidesAlike(a, b, e, f, skew);
      AcquireAtItsCredential(a, e, skew, p);
      AcquireAtItsCredential(b, f, skew, p);
      AcquireDatesAlike(a, b, e, f, skew);
    }
  }

  /** What an acquire leaves behind at its own credential, outcome by outcome. */
  lemma AcquireAtItsCredential(w: World, e: Event, skew: Skew, p: ProcessId)
    requires e.Acquire? && Storable(e.wall)
    requires !Held(w.tables.(leases := w.tables.leases - {e.credential}), e.freshId)
    ensures var (o, w') := Step(w, e, skew);
            var c, obs := e.credential, ObservationsOf(w', p);
            && o.AcquireOutcome?
            && (p != e.process ==> obs == ObservationsOf(w, p))
            && match o.a
               case AcquireRejected => w'.tables == w.tables && obs == ObservationsOf(w, p)
               case Contended(_) =>
                 && w'.tables == w.tables && c in w.tables.leases
                 && (p == e.process ==> c in obs && obs[c].version == w.tables.leases[c])
               case NotFound => c !in w'.tables.leases && (p == e.process ==> c !in obs)
               case Acquired(_, _) =>
                 && c in w'.tables.leases && w'.tables.leases[c].leaseId == e.freshId
                 && (p == e.process ==> c !in obs)
               case AcquireAborted => false
  {
  }

  lemma AcquireDatesAlike(a: World, b: World, e: Event, f: Event, skew: Skew)
    requires e.Acquire? && SameUpToWall(e, f) && Storable(e.wall) && Storable(f.wall)
    requires SameRows(a, b) && SameObservation(a, b, e.process, e.credential)
    ensures var x := ObservationsOf(Step(a, e, skew).1, e.process);
            var y := ObservationsOf(Step(b, f, skew).1, e.process);
            e.credential in x && e.credential in y ==> x[e.credential].observedAt == y[e.credential].observedAt
  {
  }

  lemma AcquireLeavesOthersAlone(w: World, e: Event, skew: Skew, p: ProcessId, c: CredentialId)
    requires e.Acquire? && c != e.credential
    ensures var w' := Step(w, e, skew).1;
            && (c in w'.tables.leases <==> c in w.tables.leases)
            && (c in w.tables.leases ==> w'.tables.leases[c] == w.tables.leases[c])
            && (c in ObservationsOf(w', p) <==> c in ObservationsOf(w, p))
            && (c in ObservationsOf(w, p) ==> ObservationsOf(w', p)[c] == ObservationsOf(w, p)[c])
  {
  }

  lemma RenewIgnoresWall(a: World, b: World, e: Event, f: Event, skew: Skew, wait: real)
    requires Invariant(a, skew, wait) && Invariant(b, skew, wait) && Indistinguishable(a, b)
    requires e.Renew? && SameUpToWall(e, f) && HasRoom(e.at, 0) && HasRoom(f.at, 0)
    requires RowsHaveRoom(a, 1) && RowsHaveRoom(b, 1)
    ensures SameOutcome(Step(a, e, skew).0, Step(b, f, skew).0)
    ensures Indistinguishable(Step(a, e, skew).1, Step(b, f, skew).1)
  {
    var a', b' := Step(a, e, skew).1, Step(b, f, skew).1;
    SameHolders(a, b, e.renewed);
    forall p, c
      ensures SameObservation(a', b', p, c)
    {
      assert SameObservation(a, b, p, c) && ObservationOld(a, p, c) && ObservationOld(b, p, c);
      assert ObservationsOf(a', p) == ObservationsOf(a, p) && ObservationsOf(b', p) == ObservationsOf(b, p);
    }
  }

  lemma AcquireIgnoresWall(a: World, b: World, e: Event, f: Event, skew: Skew, wait: real)
    requires Invariant(a, skew, wait) && Invariant(b, skew, wait) && Indistinguishable(a, b)
    requires e.Acquire? && SameUpToWall(e, f) && Legal(a, e, wait) && Legal(b, f, wait)
    requires Storable(e.wall) && Storable(f.wall)
    ensures SameOutcome(Step(a, e, skew).0, Step(b, f, skew).0)
    ensures Indistinguishable(Step(a, e, skew).1, Step(b, f, skew).1)
  {
    assert SameObservation(a, b, e.process, e.credential);
    FreshIdIsNotHeld(a, e.freshId, e.credential, skew, wait);
    FreshIdIsNotHeld(b, e.freshId, e.credential, skew, wait);
    AcquireDecidesAlike(a, b, e, f, skew);
    forall p, c
      ensures SameObservation(Step(a, e, skew).1, Step(b, f, skew).1, p, c)
    {
      assert SameObservation(a, b, p, c) && ObservationOld(a, p, c) && ObservationOld(b, p, c);
      AcquireObservesAlike(a, b, e, f, skew, p, c);
    }
  }

  lemma OthersIgnoreWall(a: World, b: World, e: Event, skew: Skew)
    requires WellFormed(a.tables) && WellFormed(b.tables) && Indistinguishable(a, b)
    requires !e.Acquire? && !e.Renew?
    ensures SameOutcome(Step(a, e, skew).0, Step(b, e, skew).0)
    ensures Indistinguishable(Step(a, e, skew).1, Step(b, e, skew).1)
  {
    var a', b' := Step(a, e, skew).1, Step(b, e, skew).1;
    if e.Release? {
      SameHolders(a, b, e.released);
    }
    forall p, c
      ensures SameObservation(a', b', p, c)
    {
      assert SameObservation(a, b, p, c);
      assert ObservationsOf(a', p) == ObservationsOf(a, p) && ObservationsOf(b', p) == ObservationsOf(b, p);
    }
  }

  lemma RoomShrinksByOne(w: World, e: Event, skew: Skew, n: nat)
    requires n >= 1 && RowsHaveRoom(w, n)
    requires (e.Acquire? ==> HasRoom(e.wall, n)) && (e.Renew? ==> HasRoom(e.at, n))
    ensures RowsHaveRoom(Step(w, e, skew).1, n - 1)
  {
  }

  lemma StepIgnoresWall(a: World, b: World, e: Event, f: Event, skew: Skew, wait: real, n: nat)
    requires Invariant(a, skew, wait) && Invariant(b, skew, wait) && Indistinguishable(a, b)
    requires SameUpToWall(e, f) && Legal(a, e, wait) && Legal(b, f, wait) && n >= 1
    requires RowsHaveRoom(a, n) && RowsHaveRoom(b, n)
    requires e.Acquire? ==> HasRoom(e.wall, n) && HasRoom(f.wall, n)
    requires e.Renew? ==> HasRoom(e.at, n) && HasRoom(f.at, n)
    ensures SameOutcome(Step(a, e, skew).0, Step(b, f, skew).0)
    ensures Indistinguishable(Step(a, e, skew).1, Step(b, f, skew).1)
    ensures RowsHaveRoom(Step(a, e, skew).1, n - 1) && RowsHaveRoom(Step(b, f, skew).1, n - 1)
  {
    RoomShrinksByOne(a, e, skew, n);
    RoomShrinksByOne(b, f, skew, n);
    if e.Acquire? {
      AcquireIgnoresWall(a, b, e, f, skew, wait);
    } else if e.Renew? {
      RenewIgnoresWall(a, b, e, f, skew, wait);
    } else {
      OthersIgnoreWall(a, b, e, skew);
    }
  }

  ghost predicate SameOutcomes(x: seq<Outcome>, y: seq<Outcome>)
  {
    |x| == |y| && forall i :: 0 <= i < |x| ==> SameOutcome(x[i], y[i])
  }

  lemma SameOutcomesFirst(o: Outcome, q: Outcome, x: seq<Outcome>, y: seq<Outcome>)
    requires SameOutcome(o, q) && SameOutcomes(x, y)
    ensures SameOutcomes([o] + x, [q] + y)
  {
  }

  /** Two runs of one script under different wall clocks acquire, turn away, renew and release
      alike: the wall clock decides nothing. */
  lemma {:induction false} WallClockIndependence(
      a: World, b: World, es: seq<Event>, fs: seq<Event>, skew: Skew, wait: real, n: nat)
    requires Invariant(a, skew, wait) && Invariant(b, skew, wait) && Indistinguishable(a, b)
    requires SameScript(es, fs) && LegalRun(a, es, skew, wait) && LegalRun(b, fs, skew, wait) && |es| <= n
    requires WallsHaveRoom(es, n) && WallsHaveRoom(fs, n) && RowsHaveRoom(a, n) && RowsHaveRoom(b, n)
    ensures SameOutcomes(Outcomes(a, es, skew), Outcomes(b, fs, skew))
    ensures Indistinguishable(Run(a, es, skew), Run(b, fs, skew))
    decreases |es|
  {
    if es != [] {
      var e, f := es[0], fs[0];
      StepKeepsInvariant(a, e, skew, wait);
      StepKeepsInvariant(b, f, skew, wait);
      StepIgnoresWall(a, b, e, f, skew, wait, n);
      var (o, a') := Step(a, e, skew);
      var (q, b') := Step(b, f, skew);
      WallClockIndependence(a', b', es[1..], fs[1..], skew, wait, n - 1);
      SameOutcomesFirst(o, q, Outcomes(a', es[1..], skew), Outcomes(b', fs[1..], skew));
    }
  }
}
