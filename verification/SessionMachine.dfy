/**
 Every interleaving of Login, RefreshToken, Logout and the revoking operations over the
 session table and the cache in front of it. An action is one atomic effect on the shared
 stores. Cache keys may disappear at any moment (expiry, eviction, DeleteSession), queued
 stores may be late or lost, a refresh may stop anywhere, and clocks may read anything.
 */
module SessionMachine {
  import opened Wrappers
  import opened SessionTable

  /** A StoreSession that has been decided but has not reached Redis yet. */
  datatype Pending = Pending(key: string, image: Session)

  /** A RefreshToken call past its validation; Locked while it holds the row lock. */
  datatype Flight =
    | Checked(hash: string, newHash: string, now: int)
    | Locked(hash: string, newHash: string, now: int, id: int, row: Session)

  datatype Event =
    | LoggedIn(id: int, hash: string)
    | Rotated(id: int, oldHash: string, newHash: string)
    | RevokedRows(ids: set<int>)

  /**
   `minted`, `births` and `log` are history: every token hash ever generated, the row as it
   was when a hash was installed in it, and the changes of the table in order.
   */
  datatype State = State(
    rows: Table,
    cache: map<string, Session>,
    queue: set<Pending>,
    flights: map<int, Flight>,
    minted: set<string>,
    births: map<string, Session>,
    log: seq<Event>)

  datatype Action =
    | Drop(keys: set<string>)
    | Store(pending: Pending)
    | Lose(pending: Pending)
    | Login(id: int, session: Session, dbNow: int)
    | ReadCache(pid: int, hash: string, newHash: string, now: int)
    | ReadRow(pid: int, id: int, newHash: string, now: int)
    | Lock(pid: int, id: int)
    | Commit(pid: int, ttl: int, dbNow: int)
    | Stop(pid: int)
    | Revoke(which: Revocation, at: int, dbNow: int)

  function Init(): State {
    State(map[], map[], {}, map[], {}, map[], [])
  }

  /** No transaction holds the lock of row `id`. */
  ghost predicate Free(s: State, id: int) {
    forall pid :: pid in s.flights && s.flights[pid].Locked? ==> s.flights[pid].id != id
  }

  /** A session entity as Login builds it before the upsert. */
  predicate NewSession(x: Session) {
    x.status == Active && x.revokedAt == None && x.revokedReason == None
  }

  ghost predicate Enabled(s: State, a: Action) {
    match a
    case Drop(_) => true
    case Store(p) => p in s.queue
    case Lose(p) => p in s.queue
    case Login(id, x, _) =>
      && NewSession(x) && x.hash !in s.minted
      && UpsertTarget(s.rows, id, x.userId, x.deviceId) && Free(s, id)
    case ReadCache(pid, h, nh, now) =>
      && pid !in s.flights && nh !in s.minted
      && h in s.cache && s.cache[h].Usable(now)
    case ReadRow(pid, id, nh, now) =>
      && pid !in s.flights && nh !in s.minted
      && id in s.rows && s.rows[id].Usable(now)
    case Lock(pid, id) =>
      && pid in s.flights && s.flights[pid].Checked?
      && HoldsHash(s.rows, id, s.flights[pid].hash) && Free(s, id)
    case Commit(pid, _, _) => pid in s.flights && s.flights[pid].Locked?
    case Stop(pid) => pid in s.flights
    case Revoke(which, _, _) => forall id | id in HitIds(s.rows, which) :: Free(s, id)
  }

  /** The effect of an action; the result matters only when the action is enabled. */
  ghost function Apply(s: State, a: Action): State
    requires Enabled(s, a)
  {
    match a
    case Drop(keys) => s.(cache := s.cache - keys)
    case Store(p) => s.(cache := s.cache[p.key := p.image], queue := s.queue - {p})
    case Lose(p) => s.(queue := s.queue - {p})
    case Login(id, x, dbNow) =>
      var row := UpsertRow(s.rows, id, x, dbNow);
      s.(rows := s.rows[id := row],
      queue := s.queue + {Pending(x.hash, UpsertImage(s.rows, id, x, dbNow))},
      minted := s.minted + {x.hash},
      births := s.births[x.hash := row],
      log := s.log + [LoggedIn(id, x.hash)])
    case ReadCache(pid, h, nh, now) =>
      s.(flights := s.flights[pid := Checked(h, nh, now)], minted := s.minted + {nh})
    case ReadRow(pid, id, nh, now) =>
      s.(flights := s.flights[pid := Checked(s.rows[id].hash, nh, now)], minted := s.minted + {nh})
    case Lock(pid, id) =>
      var f := s.flights[pid];
      s.(flights := s.flights[pid := Locked(f.hash, f.newHash, f.now, id, s.rows[id])])
    case Commit(pid, ttl, dbNow) =>
      var f := s.flights[pid];
      var image := RotateImage(f.row, f.newHash, f.now, ttl);
      var rows := RotateRow(s.rows, image, dbNow);
      s.(rows := rows,
      queue := s.queue + {Pending(f.newHash, image)},
      flights := s.flights - {pid},
      births := if f.id in rows then s.births[f.newHash := rows[f.id]] else s.births,
      log := s.log + [Rotated(f.id, f.hash, f.newHash)])
    case Stop(pid) => s.(flights := s.flights - {pid})
    case Revoke(which, at, dbNow) =>
      s.(rows := RevokeRows(s.rows, which, at, dbNow),
      log := s.log + [RevokedRows(HitIds(s.rows, which))])
  }

  // ----- what every reachable state satisfies

  /** What the statements make of a row. */
  ghost predicate Shapes(t: Table) {
    && (forall id :: id in t ==> t[id].id == id && t[id].revokedReason == None)
    && (forall id :: id in t && t[id].status != Active ==> t[id].IsRevoked())
  }

  /** The unique constraints of the table. */
  ghost predicate Unique(t: Table) {
    && (forall i, j :: i in t && j in t && t[i].hash == t[j].hash ==> i == j)
    && (forall i, j :: i in t && j in t && t[i].userId == t[j].userId && t[i].deviceId == t[j].deviceId ==> i == j)
  }

  ghost predicate TableInv(t: Table) {
    Shapes(t) && Unique(t)
  }

  /** Equal but for updated_at. */
  predicate SameImage(image: Session, birth: Session) {
    image.(updatedAt := birth.updatedAt) == birth
  }

  /** Equal but for the revocation fields and updated_at; a revocation is never taken back. */
  predicate Descends(row: Session, birth: Session) {
    && row.(status := birth.status, revokedAt := birth.revokedAt, updatedAt := birth.updatedAt) == birth
    && (birth.IsRevoked() ==> row.IsRevoked())
    && (birth.status != Active ==> row.status != Active)
  }

  /** A row descends from the row that was there when its present hash was installed. */
  ghost predicate RowsInv(s: State) {
    forall id :: id in s.rows ==>
                   && s.rows[id].hash in s.births
                   && Descends(s.rows[id], s.births[s.rows[id].hash])
  }

  /** Cached and queued images are the rows at the installation of their hash. */
  ghost predicate ImagesInv(s: State) {
    && (forall h :: h in s.cache ==> h in s.births && SameImage(s.cache[h], s.births[h]))
    && (forall p :: p in s.queue ==> p.key in s.births && SameImage(p.image, s.births[p.key]))
    && (forall h :: h in s.births ==> h in s.minted && s.births[h].hash == h)
  }

  /** The hash a flight will install has been generated but is nowhere installed. */
  ghost predicate FlightsInv(s: State) {
    && (forall pid :: pid in s.flights ==>
                        && s.flights[pid].hash in s.births
                        && s.births[s.flights[pid].hash].InForce()
                        && s.flights[pid].newHash in s.minted
                        && s.flights[pid].newHash !in s.births)
    && (forall p, q :: p in s.flights && q in s.flights && s.flights[p].newHash == s.flights[q].newHash ==> p == q)
  }

  /** A locked row is the one its holder read, and has one holder. */
  ghost predicate LocksInv(s: State) {
    && (forall pid :: pid in s.flights && s.flights[pid].Locked? ==>
                        && s.flights[pid].id in s.rows
                        && s.rows[s.flights[pid].id] == s.flights[pid].row
                        && s.flights[pid].row.hash == s.flights[pid].hash)
    && (forall p, q ::
          p in s.flights && q in s.flights && s.flights[p].Locked? && s.flights[q].Locked? && p != q
          ==> s.flights[p].id != s.flights[q].id)
  }

  /** A hash that was exchanged once is installed nowhere. */
  ghost predicate LogInv(s: State) {
    forall i :: 0 <= i < |s.log| && s.log[i].Rotated? ==>
                  && s.log[i].oldHash in s.births
                  && forall id :: id in s.rows ==> s.rows[id].hash != s.log[i].oldHash
  }

  ghost predicate Distinct(log: seq<Event>) {
    forall i, j :: 0 <= i < j < |log| && log[i].Rotated? && log[j].Rotated? ==> log[i].oldHash != log[j].oldHash
  }

  /** What has happened to a row since its last Login. */
  datatype Phase = Clean | Cut | Spent

  function Next(before: Phase, e: Event, id: int): Phase {
    match e
    case LoggedIn(i, _) => if i == id then Clean else before
    case Rotated(i, _, _) => if i == id && before != Clean then Spent else before
    case RevokedRows(ids) => if id in ids && before == Clean then Cut else before
  }

  function PhaseOf(log: seq<Event>, id: int): Phase {
    if log == [] then Clean
    else Next(PhaseOf(log[..|log| - 1], id), log[|log| - 1], id)
  }

  /** No rotation follows a revocation and a rotation of the same row. */
  ghost predicate Bounded(log: seq<Event>) {
    forall k :: 0 <= k < |log| && log[k].Rotated? ==> PhaseOf(log[..k], log[k].id) != Spent
  }

  ghost predicate PhaseInv(s: State) {
    forall id ::
      && (PhaseOf(s.log, id) != Clean ==> id in s.rows && s.rows[id].IsRevoked())
      && (PhaseOf(s.log, id) == Spent ==>
            id in s.rows && s.rows[id].hash in s.births && s.births[s.rows[id].hash].IsRevoked())
  }

  ghost predicate Inv(s: State) {
    && TableInv(s.rows) && RowsInv(s) && ImagesInv(s) && FlightsInv(s) && LocksInv(s)
    && LogInv(s) && Distinct(s.log) && PhaseInv(s) && Bounded(s.log)
  }

  // ----- every action keeps the invariant

  lemma PhaseSnoc(log: seq<Event>, e: Event, id: int)
    ensures PhaseOf(log + [e], id) == Next(PhaseOf(log, id), e, id)
  {
    assert (log + [e])[..|log|] == log;
  }

  lemma BoundedSnoc(log: seq<Event>, e: Event)
    requires Bounded(log)
    requires e.Rotated? ==> PhaseOf(log, e.id) != Spent
    ensures Bounded(log + [e])
  {
    var l := log + [e];
    forall k | 0 <= k < |l| && l[k].Rotated?
      ensures PhaseOf(l[..k], l[k].id) != Spent
    {
      if k < |log| {
        assert l[..k] == log[..k];
      } else {
        assert l[..k] == log;
      }
    }
  }

  lemma CacheStep(s: State, a: Action)
    requires Inv(s) && Enabled(s, a) && (a.Drop? || a.Store? || a.Lose?)
    ensures Inv(Apply(s, a))
  {}

  /** What speaks of the table and its history only. */
  ghost predicate TablesInv(s: State) {
    TableInv(s.rows) && RowsInv(s) && LogInv(s) && Distinct(s.log) && PhaseInv(s) && Bounded(s.log)
  }

  lemma SameTables(s: State, s': State)
    requires TablesInv(s) && s'.rows == s.rows && s'.births == s.births && s'.log == s.log
    ensures TablesInv(s')
  {}

  lemma ReadKeepsFlights(s: State, a: Action)
    requires RowsInv(s) && ImagesInv(s) && FlightsInv(s) && LocksInv(s) && Enabled(s, a) && (a.ReadCache? || a.ReadRow?)
    ensures ImagesInv(Apply(s, a)) && FlightsInv(Apply(s, a)) && LocksInv(Apply(s, a))
  {}

  lemma ReadStep(s: State, a: Action)
    requires Inv(s) && Enabled(s, a) && (a.ReadCache? || a.ReadRow?)
    ensures Inv(Apply(s, a))
  {
    SameTables(s, Apply(s, a));
    ReadKeepsFlights(s, a);
  }

  lemma LockKeepsFlights(s: State, a: Action)
    requires ImagesInv(s) && FlightsInv(s) && LocksInv(s) && Enabled(s, a) && (a.Lock? || a.Stop?)
    ensures ImagesInv(Apply(s, a)) && FlightsInv(Apply(s, a)) && LocksInv(Apply(s, a))
  {}

  lemma LockStep(s: State, a: Action)
    requires Inv(s) && Enabled(s, a) && (a.Lock? || a.Stop?)
    ensures Inv(Apply(s, a))
  {
    SameTables(s, Apply(s, a));
    LockKeepsFlights(s, a);
  }

  lemma LoginKeepsShapes(s: State, a: Action)
    requires Enabled(s, a) && a.Login? && TableInv(s.rows) && LocksInv(s)
    ensures Shapes(Apply(s, a).rows)
  {}

  lemma LoginKeepsUnique(s: State, a: Action)
    requires Enabled(s, a) && a.Login?
    requires TableInv(s.rows) && RowsInv(s) && ImagesInv(s) && FlightsInv(s) && LocksInv(s)
    ensures Unique(Apply(s, a).rows)
  {
    var x := a.session;
    forall i | i in s.rows && i != a.id
      ensures s.rows[i].hash != x.hash
      ensures s.rows[i].userId != x.userId || s.rows[i].deviceId != x.deviceId
    {
      assert HoldsDevice(s.rows, i, x.userId, x.deviceId)
             <==> s.rows[i].userId == x.userId && s.rows[i].deviceId == x.deviceId;
    }
  }

  lemma LoginKeepsImages(s: State, a: Action)
    requires Enabled(s, a) && a.Login?
    requires TableInv(s.rows) && RowsInv(s) && ImagesInv(s) && FlightsInv(s) && LocksInv(s)
    ensures RowsInv(Apply(s, a)) && ImagesInv(Apply(s, a))
  {}

  lemma LoginKeepsFlights(s: State, a: Action)
    requires Enabled(s, a) && a.Login?
    requires TableInv(s.rows) && ImagesInv(s) && FlightsInv(s) && LocksInv(s)
    ensures FlightsInv(Apply(s, a)) && LocksInv(Apply(s, a))
  {}

  lemma LoginKeepsLog(s: State, a: Action)
    requires Enabled(s, a) && a.Login?
    requires TableInv(s.rows) && ImagesInv(s) && FlightsInv(s) && LocksInv(s) && LogInv(s) && Distinct(s.log)
    ensures LogInv(Apply(s, a)) && Distinct(Apply(s, a).log)
  {}

  lemma LoginKeepsPhase(s: State, a: Action)
    requires Enabled(s, a) && a.Login?
    requires TableInv(s.rows) && RowsInv(s) && ImagesInv(s) && FlightsInv(s) && LocksInv(s)
    requires PhaseInv(s) && Bounded(s.log)
    ensures PhaseInv(Apply(s, a)) && Bounded(Apply(s, a).log)
  {
    var e := Apply(s, a).log[|s.log|];
    forall id { PhaseSnoc(s.log, e, id); }
    BoundedSnoc(s.log, e);
  }

  lemma LoginStep(s: State, a: Action)
    requires Inv(s) && Enabled(s, a) && a.Login?
    ensures Inv(Apply(s, a))
  {
    LoginKeepsShapes(s, a);
    LoginKeepsUnique(s, a);
    LoginKeepsImages(s, a);
    LoginKeepsFlights(s, a);
    LoginKeepsLog(s, a);
    LoginKeepsPhase(s, a);
  }

  lemma CommitKeepsShapes(s: State, a: Action)
    requires Enabled(s, a) && a.Commit? && TableInv(s.rows) && LocksInv(s)
    ensures Shapes(Apply(s, a).rows)
  {}

  lemma CommitKeepsUnique(s: State, a: Action)
    requires Enabled(s, a) && a.Commit?
    requires TableInv(s.rows) && RowsInv(s) && ImagesInv(s) && FlightsInv(s) && LocksInv(s)
    ensures Unique(Apply(s, a).rows)
  {}

  lemma CommitKeepsImages(s: State, a: Action)
    requires Enabled(s, a) && a.Commit?
    requires TableInv(s.rows) && RowsInv(s) && ImagesInv(s) && FlightsInv(s) && LocksInv(s)
    ensures RowsInv(Apply(s, a)) && ImagesInv(Apply(s, a))
  {}

  lemma CommitKeepsFlights(s: State, a: Action)
    requires Enabled(s, a) && a.Commit?
    requires TableInv(s.rows) && ImagesInv(s) && FlightsInv(s) && LocksInv(s)
    ensures FlightsInv(Apply(s, a)) && LocksInv(Apply(s, a))
  {}

  lemma CommitKeepsLog(s: State, a: Action)
    requires Enabled(s, a) && a.Commit?
    requires TableInv(s.rows) && ImagesInv(s) && FlightsInv(s) && LocksInv(s) && LogInv(s) && Distinct(s.log)
    ensures LogInv(Apply(s, a)) && Distinct(Apply(s, a).log)
  {}

  lemma CommitKeepsPhase(s: State, a: Action)
    requires Enabled(s, a) && a.Commit?
    requires TableInv(s.rows) && RowsInv(s) && ImagesInv(s) && FlightsInv(s) && LocksInv(s)
    requires PhaseInv(s) && Bounded(s.log)
    ensures PhaseInv(Apply(s, a)) && Bounded(Apply(s, a).log)
  {
    var e := Apply(s, a).log[|s.log|];
    forall id { PhaseSnoc(s.log, e, id); }
    BoundedSnoc(s.log, e);
  }

  lemma CommitStep(s: State, a: Action)
    requires Inv(s) && Enabled(s, a) && a.Commit?
    ensures Inv(Apply(s, a))
  {
    CommitKeepsShapes(s, a);
    CommitKeepsUnique(s, a);
    CommitKeepsImages(s, a);
    CommitKeepsFlights(s, a);
    CommitKeepsLog(s, a);
    CommitKeepsPhase(s, a);
  }

  lemma RevokeKeepsShapes(s: State, a: Action)
    requires Enabled(s, a) && a.Revoke? && TableInv(s.rows) && LocksInv(s)
    ensures Shapes(Apply(s, a).rows)
  {}

  lemma RevokeKeepsUnique(s: State, a: Action)
    requires Enabled(s, a) && a.Revoke?
    requires TableInv(s.rows) && RowsInv(s) && ImagesInv(s) && FlightsInv(s) && LocksInv(s)
    ensures Unique(Apply(s, a).rows)
  {
    var t := Apply(s, a).rows;
    forall id | id in t
      ensures t[id].id == s.rows[id].id && t[id].hash == s.rows[id].hash
      ensures t[id].userId == s.rows[id].userId && t[id].deviceId == s.rows[id].deviceId
    {}
  }

  lemma RevokeKeepsImages(s: State, a: Action)
    requires Enabled(s, a) && a.Revoke?
    requires TableInv(s.rows) && RowsInv(s) && ImagesInv(s) && FlightsInv(s) && LocksInv(s)
    ensures RowsInv(Apply(s, a)) && ImagesInv(Apply(s, a))
  {}

  lemma RevokeKeepsFlights(s: State, a: Action)
    requires Enabled(s, a) && a.Revoke?
    requires TableInv(s.rows) && ImagesInv(s) && FlightsInv(s) && LocksInv(s)
    ensures FlightsInv(Apply(s, a)) && LocksInv(Apply(s, a))
  {
    var t := Apply(s, a).rows;
    forall pid | pid in s.flights && s.flights[pid].Locked?
      ensures t[s.flights[pid].id] == s.rows[s.flights[pid].id]
    {
      assert s.flights[pid].id in HitIds(s.rows, a.which) ==> Free(s, s.flights[pid].id);
    }
  }

  lemma RevokeKeepsLog(s: State, a: Action)
    requires Enabled(s, a) && a.Revoke?
    requires TableInv(s.rows) && ImagesInv(s) && FlightsInv(s) && LocksInv(s) && LogInv(s) && Distinct(s.log)
    ensures LogInv(Apply(s, a)) && Distinct(Apply(s, a).log)
  {}

  lemma RevokeKeepsPhase(s: State, a: Action)
    requires Enabled(s, a) && a.Revoke?
    requires TableInv(s.rows) && RowsInv(s) && ImagesInv(s) && FlightsInv(s) && LocksInv(s)
    requires PhaseInv(s) && Bounded(s.log)
    ensures PhaseInv(Apply(s, a)) && Bounded(Apply(s, a).log)
  {
    var e := Apply(s, a).log[|s.log|];
    forall id { PhaseSnoc(s.log, e, id); }
    BoundedSnoc(s.log, e);
  }

  lemma RevokeStep(s: State, a: Action)
    requires Inv(s) && Enabled(s, a) && a.Revoke?
    ensures Inv(Apply(s, a))
  {
    RevokeKeepsShapes(s, a);
    RevokeKeepsUnique(s, a);
    RevokeKeepsImages(s, a);
    RevokeKeepsFlights(s, a);
    RevokeKeepsLog(s, a);
    RevokeKeepsPhase(s, a);
  }

  lemma StepKeepsInv(s: State, a: Action)
    requires Inv(s) && Enabled(s, a)
    ensures Inv(Apply(s, a))
  {
    match a
    case Drop(_) => CacheStep(s, a);
    case Store(_) => CacheStep(s, a);
    case Lose(_) => CacheStep(s, a);
    case Login(_, _, _) => LoginStep(s, a);
    case ReadCache(_, _, _, _) => ReadStep(s, a);
    case ReadRow(_, _, _, _) => ReadStep(s, a);
    case Lock(_, _) => LockStep(s, a);
    case Commit(_, _, _) => CommitStep(s, a);
    case Stop(_) => LockStep(s, a);
    case Revoke(_, _, _) => RevokeStep(s, a);
  }
}
