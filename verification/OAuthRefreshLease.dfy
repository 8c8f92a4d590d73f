/** The cross-process OAuth refresh lease: one table shared by every process, one in-memory
    observation map per process. A lease is reclaimed only by a process that has seen one
    unchanged row version for a whole monotonic TTL.
 */
module OAuthRefreshLease {

  type CredentialId = string
  type LeaseId = string
  type ProcessId = nat

  const LEASE_TTL_MS := 60000
  const TTL: real := 60000.0
  const MAX_CREDENTIAL_ID_LENGTH := 256

  /** Range of a JavaScript Date; beyond it `toISOString` throws. */
  const MAX_DATE := 8640000000000000
  /** Years 0000-9999, the only ISO timestamps that the lease table's CHECK accepts. */
  const MIN_ROW_STAMP := -62167219200000
  const MAX_ROW_STAMP := 253402300799999

  predicate IsDate(t: int) { -MAX_DATE <= t <= MAX_DATE }

  predicate IsRowStamp(t: int) { MIN_ROW_STAMP <= t <= MAX_ROW_STAMP }

  predicate IsCredentialId(c: CredentialId) { 1 <= |c| <= MAX_CREDENTIAL_ID_LENGTH }

  predicate IsLeaseId(l: LeaseId)
  {
    |l| == 32 &&
    forall i :: 0 <= i < |l| ==>
      'A' <= l[i] <= 'Z' || 'a' <= l[i] <= 'z' || '0' <= l[i] <= '9' || l[i] == '_' || l[i] == '-'
  }

  /** One row of the lease table; the three columns together are the version a process observes. */
  datatype LeaseVersion = LeaseVersion(leaseId: LeaseId, acquiredAt: int, expiresAt: int)

  datatype Observation = Observation(version: LeaseVersion, observedAt: real)

  type Observations = map<CredentialId, Observation>

  datatype Tables = Tables(credentials: set<CredentialId>, leases: map<CredentialId, LeaseVersion>)

  /** `Rejected` is an exception raised by argument or date checks, `Aborted` one raised by a table
      constraint. Both roll the transaction back. */
  datatype Acquisition =
    | Acquired(leaseId: LeaseId, expiresAt: int)
    | Contended(expiresAt: int)
    | NotFound
    | AcquireRejected
    | AcquireAborted

  datatype Renewal = Renewed(success: bool) | RenewRejected | RenewAborted

  /** Lease IDs are UNIQUE and every lease row references a credential. */
  ghost predicate WellFormed(t: Tables)
  {
    && t.leases.Keys <= t.credentials
    && (forall c, d :: c in t.leases && d in t.leases && t.leases[c].leaseId == t.leases[d].leaseId ==> c == d)
  }

  ghost predicate Held(t: Tables, id: LeaseId)
  {
    exists c :: c in t.leases && t.leases[c].leaseId == id
  }

  ghost function HolderOf(t: Tables, id: LeaseId): (c: CredentialId)
    requires Held(t, id)
    ensures c in t.leases && t.leases[c].leaseId == id
  {
    var c :| c in t.leases && t.leases[c].leaseId == id; c
  }

  function Observe(obs: Observations, c: CredentialId, holder: LeaseVersion, reading: real): Observation
  {
    if c in obs && obs[c].version == holder && reading >= obs[c].observedAt
    then obs[c]
    else Observation(holder, reading)
  }

  /** One acquire transaction: outcome, new tables, new observation map of the calling process. */
  ghost function AcquireStep(t: Tables, obs: Observations, c: CredentialId, wall: int, reading: real, id: LeaseId)
    : (Acquisition, Tables, Observations)
  {
    if !IsCredentialId(c) || !IsDate(wall) || !IsDate(wall + LEASE_TTL_MS) then
      (AcquireRejected, t, obs)
    else if c in t.leases && reading - Observe(obs, c, t.leases[c], reading).observedAt < TTL then
      (Contended(t.leases[c].expiresAt), t, obs[c := Observe(obs, c, t.leases[c], reading)])
    else
      var rest := t.leases - {c};
      if c !in t.credentials then
        (NotFound, t.(leases := rest), obs - {c})
      else if Held(t.(leases := rest), id) || !IsRowStamp(wall) || !IsRowStamp(wall + LEASE_TTL_MS) then
        (AcquireAborted, t, obs - {c})
      else
        (Acquired(id, wall + LEASE_TTL_MS),
         t.(leases := rest[c := LeaseVersion(id, wall, wall + LEASE_TTL_MS)]),
         obs - {c})
  }

  function NextExpiry(wall: int, current: int): int
  {
    if wall + LEASE_TTL_MS >= current + 1 then wall + LEASE_TTL_MS else current + 1
  }

  ghost function RenewStep(t: Tables, id: LeaseId, wall: int): (Renewal, Tables)
  {
    if !IsLeaseId(id) || !IsDate(wall) then (RenewRejected, t)
    else if !Held(t, id) then (Renewed(false), t)
    else
      var c := HolderOf(t, id);
      var expiry := NextExpiry(wall, t.leases[c].expiresAt);
      if !IsDate(expiry) then (RenewRejected, t)
      else if !IsRowStamp(expiry) then (RenewAborted, t)
      else (Renewed(true), t.(leases := t.leases[c := t.leases[c].(expiresAt := expiry)]))
  }

  ghost function ReleaseStep(t: Tables, id: LeaseId): (bool, Tables)
  {
    if Held(t, id) then (true, t.(leases := t.leases - {HolderOf(t, id)})) else (false, t)
  }

  // ---------------------------------------------------------------------------------------------
  // The store itself
  // ---------------------------------------------------------------------------------------------

  /** The SQLite tables that all processes share. */
  class LeaseDatabase {
    var credentials: set<CredentialId>
    var leases: map<CredentialId, LeaseVersion>

    constructor ()
      ensures Contents() == Tables({}, map[]) && WellFormed(Contents())
    {
      credentials, leases := {}, map[];
    }

    ghost function Contents(): Tables
      reads this
    {
      Tables(credentials, leases)
    }

    /** DELETE of one exact row version; returns the number of changed rows. */
    method DeleteVersion(c: CredentialId, v: LeaseVersion) returns (changes: nat)
      modifies this`leases
      ensures changes == if c in old(leases) && old(leases)[c] == v then 1 else 0
      ensures leases == if changes == 1 then old(leases) - {c} else old(leases)
    {
      changes := 0;
      if c in leases && leases[c] == v {
        leases := leases - {c};
        changes := 1;
      }
    }

    /** Find the row that carries a lease ID. */
    method FindLease(id: LeaseId) returns (found: bool, c: CredentialId)
      requires WellFormed(Contents())
      ensures found == Held(Contents(), id)
      ensures found ==> c == HolderOf(Contents(), id)
    {
      found, c := false, "";
      var todo := leases.Keys;
      while todo != {}
        invariant todo <= leases.Keys
        invariant forall d :: d in leases && d !in todo ==> leases[d].leaseId != id
      {
        var d :| d in todo;
        if leases[d].leaseId == id {
          return true, d;
        }
        todo := todo - {d};
      }
    }

    method Renew(id: LeaseId, wall: int) returns (r: Renewal)
      requires WellFormed(Contents())
      modifies this`leases
      ensures (r, Contents()) == RenewStep(old(Contents()), id, wall)
    {
      if !IsLeaseId(id) || !IsDate(wall) {
        return RenewRejected;
      }
      var found, c := FindLease(id);
      if !found {
        return Renewed(false);
      }
      var expiry := NextExpiry(wall, leases[c].expiresAt);
      if !IsDate(expiry) {
        return RenewRejected;
      }
      if !IsRowStamp(expiry) {
        return RenewAborted;
      }
      leases := leases[c := leases[c].(expiresAt := expiry)];
      r := Renewed(true);
    }

    method IsHeld(id: LeaseId) returns (held: bool)
      requires WellFormed(Contents())
      ensures held == Held(Contents(), id)
    {
      var found, _ := FindLease(id);
      held := found;
    }

    method Release(id: LeaseId) returns (released: bool)
      requires WellFormed(Contents())
      modifies this`leases
      ensures (released, Contents()) == ReleaseStep(old(Contents()), id)
    {
      var c;
      released, c := FindLease(id);
      if released {
        leases := leases - {c};
      }
    }
  }

  /** One server process: the shared tables and its own observation map. */
  class LeaseProcess {
    const db: LeaseDatabase
    var leaseObservations: Observations

    constructor (db: LeaseDatabase)
      ensures this.db == db && leaseObservations == map[]
    {
      this.db := db;
      leaseObservations := map[];
    }

    method ObserveLeaseVersion(c: CredentialId, holder: LeaseVersion, reading: real) returns (o: Observation)
      modifies this
      ensures o == Observe(old(leaseObservations), c, holder, reading)
      ensures leaseObservations == old(leaseObservations)[c := o]
    {
      if c in leaseObservations && leaseObservations[c].version == holder &&
         reading >= leaseObservations[c].observedAt {
        return leaseObservations[c];
      }
      o := Observation(holder, reading);
      leaseObservations := leaseObservations[c := o];
    }

    method Acquire(c: CredentialId, wall: int, reading: real, id: LeaseId) returns (r: Acquisition)
      requires WellFormed(db.Contents())
      modifies this, db`leases
      ensures (r, db.Contents(), leaseObservations)
           == AcquireStep(old(db.Contents()), old(leaseObservations), c, wall, reading, id)
    {
      if !IsCredentialId(c) || !IsDate(wall) || !IsDate(wall + LEASE_TTL_MS) {
        return AcquireRejected;
      }
      ghost var before := db.Contents();
      var rollback := db.leases;
      if c in db.leases {
        var holder := db.leases[c];
        var observed := ObserveLeaseVersion(c, holder, reading);
        if reading - observed.observedAt < TTL {
          return Contended(holder.expiresAt);
        }
        // Inside the immediate transaction the row still carries the observed version.
        var changes := db.DeleteVersion(c, observed.version);
        assert changes == 1;
      }
      leaseObservations := leaseObservations - {c};
      assert leaseObservations == old(leaseObservations) - {c};
      assert db.Contents() == before.(leases := before.leases - {c});
      if c !in db.credentials {
        return NotFound;
      }
      var taken, _ := db.FindLease(id);
      if taken || !IsRowStamp(wall) || !IsRowStamp(wall + LEASE_TTL_MS) {
        db.leases := rollback;
        return AcquireAborted;
      }
      db.leases := db.leases[c := LeaseVersion(id, wall, wall + LEASE_TTL_MS)];
      r := Acquired(id, wall + LEASE_TTL_MS);
    }
  }
}
